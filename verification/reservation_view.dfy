// The shape in which the reservation services return a reservation: the row,
// the salon of its bed embedded by `select("*, salon_bed:salon_beds(salon_id)")`,
// and the `salon_id` the handlers copy out of that embedding.

module ReservationView {
  import opened Common
  import opened Database
  import Table

  datatype EmbeddedBed = EmbeddedBed(salonId: Option<Id>)

  datatype ReservationOutput = ReservationOutput(reservation: Reservation, salonBed: Option<EmbeddedBed>, salonId: Option<Id>)

  function BedWithId(id: Id): SalonBed -> bool
  {
    (b: SalonBed) => IdIs(b.id, id)
  }

  /** The row as PostgREST returns it: the referenced bed embedded (null without one); no `salon_id` column. */
  function Embed(r: Reservation, beds: seq<SalonBed>): ReservationOutput
  {
    var bed := if r.salonBedId.None? then None else Table.FindFirst(beds, BedWithId(r.salonBedId.value));
    ReservationOutput(r, if bed.Some? then Some(EmbeddedBed(bed.value.salonId)) else None, None)
  }

  /** `if let Some(salon_bed) = reservation.salon_bed { reservation.salon_id = salon_bed.salon_id }`. */
  function CopySalonId(o: ReservationOutput): ReservationOutput
  {
    match o.salonBed
    case Some(bed) => o.(salonId := bed.salonId)
    case None => o
  }

  /** What a reservation service answers for a stored row. */
  function Present(r: Reservation, beds: seq<SalonBed>): ReservationOutput
  {
    CopySalonId(Embed(r, beds))
  }

  /**
   * A presented reservation carries its row unchanged and the salon of its bed:
   * the `salon_id` of the first bed with the reservation's bed id, NULL when there is none.
   */
  lemma PresentCarriesSalon(r: Reservation, beds: seq<SalonBed>)
    ensures Present(r, beds).reservation == r
    ensures r.salonBedId.None? ==> Present(r, beds).salonId.None?
    ensures r.salonBedId.Some? && (exists i :: 0 <= i < |beds| && IdIs(beds[i].id, r.salonBedId.value)) ==>
              exists i :: 0 <= i < |beds| && IdIs(beds[i].id, r.salonBedId.value) && Present(r, beds).salonId == beds[i].salonId
    ensures r.salonBedId.Some? && (forall i :: 0 <= i < |beds| ==> !IdIs(beds[i].id, r.salonBedId.value)) ==>
              Present(r, beds).salonId.None?
  {
    if r.salonBedId.Some? {
      var found := Table.FindFirst(beds, BedWithId(r.salonBedId.value));
      if found.Some? {
        var i :| 0 <= i < |beds| && beds[i] == found.value;
        assert IdIs(beds[i].id, r.salonBedId.value);
      }
    }
  }

  /**
   * The copying loop of the history service: every output gets the salon of its
   * embedded bed, and nothing else changes.
   */
  method CopySalonIds(rows: seq<ReservationOutput>) returns (out: seq<ReservationOutput>)
    ensures |out| == |rows|
    ensures forall i :: 0 <= i < |rows| ==> out[i].reservation == rows[i].reservation && out[i].salonBed == rows[i].salonBed
    ensures forall i :: 0 <= i < |rows| ==>
              out[i].salonId == if rows[i].salonBed.Some? then rows[i].salonBed.value.salonId else rows[i].salonId
  {
    out := rows;
    var i := 0;
    while i < |out|
      invariant 0 <= i <= |out| == |rows|
      invariant forall k :: 0 <= k < i ==> out[k] == CopySalonId(rows[k])
      invariant forall k :: i <= k < |out| ==> out[k] == rows[k]
    {
      if out[i].salonBed.Some? {
        out := out[i := out[i].(salonId := out[i].salonBed.value.salonId)];
      }
      i := i + 1;
    }
  }
}
