// A salon user creates their salon with its first pictures and videos
// (src/service/salon/salon_user/create_salon.rs).

module CreateSalon {
  import opened Common
  import opened Database
  import opened Claim
  import opened Store

  /** A media of the body; its `salon_id` is not read from the client and is filled in later. */
  datatype MediaInput = MediaInput(salonId: Option<Id>, url: string, mediaType: MediaType)

  /** The body; the owner is not read from the client. */
  datatype CreateSalonInput = CreateSalonInput(logo: Option<string>, coverPhoto: Option<string>, name: string,
                                               address: string, phone: Option<string>, email: Option<string>,
                                               description: Option<string>, medias: Option<seq<MediaInput>>)

  /** The salon insert: the body without its medias, owned by the caller. Status and creation time are left to the store. */
  function SalonRow(id: Id, userId: Id, input: CreateSalonInput): Salon
  {
    Salon(Some(id), input.logo, input.coverPhoto, Some(input.name), Some(input.address), input.phone,
          input.email, input.description, None, None, Some(userId))
  }

  /** `for salon_media in salon_medias.iter_mut() { salon_media.salon_id = salon.id; }` */
  method StampMedias(medias: seq<MediaInput>, salonId: Option<Id>) returns (stamped: seq<MediaInput>)
    ensures |stamped| == |medias|
    ensures forall k :: 0 <= k < |medias| ==> stamped[k] == medias[k].(salonId := salonId)
  {
    stamped := medias;
    var i := 0;
    while i < |stamped|
      invariant 0 <= i <= |stamped| == |medias|
      invariant forall k :: 0 <= k < i ==> stamped[k] == medias[k].(salonId := salonId)
      invariant forall k :: i <= k < |stamped| ==> stamped[k] == medias[k]
    {
      stamped := stamped[i := stamped[i].(salonId := salonId)];
      i := i + 1;
    }
  }

  /** The rows the media insert adds, numbered from `serial`. */
  function MediaRows(medias: seq<MediaInput>, serial: Id): (r: seq<SalonMedia>)
    ensures |r| == |medias|
    ensures forall k :: 0 <= k < |r| ==>
              r[k] == SalonMedia(Some(serial + k), medias[k].salonId, Some(medias[k].url), Some(medias[k].mediaType))
    decreases |medias|
  {
    if medias == [] then []
    else [SalonMedia(Some(serial), medias[0].salonId, Some(medias[0].url), Some(medias[0].mediaType))]
         + MediaRows(medias[1..], serial + 1)
  }

  /**
   * `create_salon`. `salonFault` is the text of a refused salon insert; a refused media
   * insert (`mediaRefused`) is not looked at: the salon is answered all the same.
   */
  method CreateSalon(db: Db, claims: Claims, input: CreateSalonInput, salonFault: Option<string>, mediaRefused: bool)
    returns (out: Outcome<Salon>)
    modifies db`salons, db`salonSerial, db`medias, db`mediaSerial
    ensures salonFault.Some? ==>
              out == General(BadRequest, salonFault) &&
              db.salons == old(db.salons) && db.salonSerial == old(db.salonSerial) &&
              db.medias == old(db.medias) && db.mediaSerial == old(db.mediaSerial)
    ensures salonFault.None? ==>
              var salon := SalonRow(old(db.salonSerial), claims.id, input);
              db.salons == old(db.salons) + [salon] && db.salonSerial == old(db.salonSerial) + 1 && out == Ok(salon)
    ensures salonFault.None? && (input.medias.None? || input.medias.value == [] || mediaRefused) ==>
              db.medias == old(db.medias) && db.mediaSerial == old(db.mediaSerial)
    ensures salonFault.None? && input.medias.Some? && input.medias.value != [] && !mediaRefused ==>
              var medias := input.medias.value;
              var added := MediaRows(seq(|medias|, k requires 0 <= k < |medias| => medias[k].(salonId := Some(old(db.salonSerial)))),
                                     old(db.mediaSerial));
              db.medias == old(db.medias) + added && db.mediaSerial == old(db.mediaSerial) + |medias|
  {
    if salonFault.Some? {
      return General(BadRequest, salonFault);
    }
    var salon := SalonRow(db.salonSerial, claims.id, input);
    db.salons := db.salons + [salon];
    db.salonSerial := db.salonSerial + 1;
    if input.medias.Some? && input.medias.value != [] {
      var stamped := StampMedias(input.medias.value, salon.id);
      if !mediaRefused {
        var added := MediaRows(stamped, db.mediaSerial);
        db.medias := db.medias + added;
        db.mediaSerial := db.mediaSerial + |stamped|;
      }
    }
    out := Ok(salon);
  }

  /**
   * The caller owns the new salon, and every media stored with it points to it and
   * keeps the client's url and type, in the client's order.
   */
  lemma CreatedSalonOwnsItsMedias(userId: Id, id: Id, input: CreateSalonInput, serial: Id)
    requires input.medias.Some?
    ensures SalonRow(id, userId, input).userId == Some(userId)
    ensures var medias := input.medias.value;
            var added := MediaRows(seq(|medias|, k requires 0 <= k < |medias| => medias[k].(salonId := Some(id))), serial);
            |added| == |medias| &&
            forall k :: 0 <= k < |added| ==>
              added[k].salonId == SalonRow(id, userId, input).id && added[k].url == Some(medias[k].url) &&
              added[k].mediaType == Some(medias[k].mediaType)
  {
  }
}
