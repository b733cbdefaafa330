// A salon user adds a picture or a video to their salon
// (src/service/salon/salon_user/create_salon_media.rs).

module CreateSalonMedia {
  import opened Common
  import opened Database
  import opened Claim
  import opened Store
  import Table

  const NOT_YOUR_SALON: string := "salon not found or not your salon."

  /** `.eq("id", salon_id).eq("user_id", claims.id)`: the salon with that id, owned by the caller. */
  function OwnedSalon(salonId: Id, userId: Id): Salon -> bool
  {
    (s: Salon) => IdIs(s.id, salonId) && IdIs(s.userId, userId)
  }

  /** The ownership check: with `.single()` it passes only when exactly one salon matches. */
  predicate OwnsSalon(salons: seq<Salon>, salonId: Id, userId: Id)
  {
    Table.CountWhere(salons, OwnedSalon(salonId, userId)) == 1
  }

  /** The media body: the client's url and type; its `salon_id` is the path's. */
  datatype MediaInput = MediaInput(url: string, mediaType: MediaType)

  function MediaRow(id: Id, salonId: Option<Id>, input: MediaInput): SalonMedia
  {
    SalonMedia(Some(id), salonId, Some(input.url), Some(input.mediaType))
  }

  /**
   * `create_salon_media`. `insertFault` is the text of a refused insert.
   */
  method CreateSalonMedia(db: Db, salonId: Id, claims: Claims, input: MediaInput, insertFault: Option<string>)
    returns (out: Outcome<SalonMedia>)
    modifies db`medias, db`mediaSerial
    ensures !OwnsSalon(db.salons, salonId, claims.id) ==>
              out == General(BadRequest, Some(NOT_YOUR_SALON)) &&
              db.medias == old(db.medias) && db.mediaSerial == old(db.mediaSerial)
    ensures OwnsSalon(db.salons, salonId, claims.id) && insertFault.Some? ==>
              out == General(InternalServerError, insertFault) &&
              db.medias == old(db.medias) && db.mediaSerial == old(db.mediaSerial)
    ensures OwnsSalon(db.salons, salonId, claims.id) && insertFault.None? ==>
              var row := MediaRow(old(db.mediaSerial), Some(salonId), input);
              db.medias == old(db.medias) + [row] && db.mediaSerial == old(db.mediaSerial) + 1 && out == Ok(row)
  {
    if Table.CountWhere(db.salons, OwnedSalon(salonId, claims.id)) != 1 {
      return General(BadRequest, Some(NOT_YOUR_SALON));
    }
    if insertFault.Some? {
      return General(InternalServerError, insertFault);
    }
    var row := MediaRow(db.mediaSerial, Some(salonId), input);
    db.medias := db.medias + [row];
    db.mediaSerial := db.mediaSerial + 1;
    out := Ok(row);
  }

  /**
   * The ownership check passes exactly for a salon the caller owns (when ids are unique),
   * and the stored media then points to that salon.
   */
  lemma OwnedSalonPasses(salons: seq<Salon>, s: Salon, userId: Id)
    requires s in salons && s.id.Some? && s.userId == Some(userId)
    requires forall i, j :: 0 <= i < j < |salons| ==> salons[i].id != salons[j].id || salons[i].id.None?
    ensures OwnsSalon(salons, s.id.value, userId)
  {
    var p := OwnedSalon(s.id.value, userId);
    var w := Table.Where(salons, p);
    assert s in w;
    if |w| >= 2 {
      OnlyOneWithId(salons, p, s.id.value);
    }
  }

  /** With unique ids, at most one row has a given id. */
  lemma {:induction false} OnlyOneWithId(salons: seq<Salon>, p: Salon -> bool, id: Id)
    requires forall i, j :: 0 <= i < j < |salons| ==> salons[i].id != salons[j].id || salons[i].id.None?
    requires forall s :: p(s) ==> s.id == Some(id)
    ensures Table.CountWhere(salons, p) <= 1
    decreases |salons|
  {
    if salons != [] {
      OnlyOneWithId(salons[1..], p, id);
      if p(salons[0]) {
        forall k | 0 <= k < |salons[1..]|
          ensures !p(salons[1..][k])
        {
          assert salons[1..][k] == salons[k + 1];
        }
        Table.WhereNone(salons[1..], p);
      }
    }
  }
}
