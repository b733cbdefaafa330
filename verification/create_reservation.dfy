// Booking a bed (src/service/reservation/all_user/create_reservation.rs).

module CreateReservation {
  import opened Common
  import opened Database
  import opened Claim
  import opened Store
  import Table
  import opened Availability
  import opened ReservationView

  datatype CreateReservationInput = CreateReservationInput(salonBedId: Id, timeFrom: Time, timeTo: Time, comment: Option<string>)

  const TIME_ORDER_ERROR: string := "time to must be greater than time from"
  const BOOKED_ERROR: string := "This bed already booked at this time."

  /** A reservation row starts out waiting (the column default of `status`). */
  const INITIAL_STATUS: Option<ReservationStatus> := Some(WAITING)

  /** The row the insert stores: the caller's booking, under the next id of the table. */
  function NewReservation(id: Id, userId: Id, input: CreateReservationInput): Reservation
  {
    Reservation(Some(id), Some(userId), Some(input.salonBedId), Some(input.timeFrom), Some(input.timeTo),
                input.comment, INITIAL_STATUS, None, None)
  }

  /**
   * The availability call: `rpc("get_available_salon_beds", {from, to}).eq("id", bed).single()`
   * succeeds when exactly one row of the procedure's answer is that bed.
   */
  predicate Admitted(rpc: (Time, Time) -> seq<SalonBed>, input: CreateReservationInput)
  {
    Table.CountWhere(rpc(input.timeFrom, input.timeTo), BedWithId(input.salonBedId)) == 1
  }

  /**
   * What `get_available_salon_beds` is meant to answer (its body is not part of the
   * source): the beds that the waiting reservations overlapping the period leave
   * free, by the same test the public available-bed query makes.
   */
  function AvailableSalonBeds(beds: seq<SalonBed>, rs: seq<Reservation>): (Time, Time) -> seq<SalonBed>
  {
    (from: Time, to: Time) => Table.Where(beds, (b: SalonBed) => Free(b.id, rs, from, to))
  }

  method CreateReservation(db: Db, claims: Claims, input: CreateReservationInput,
                           rpc: (Time, Time) -> seq<SalonBed>, insertFault: Option<DbError>,
                           errorText: DbError -> string)
    returns (out: Outcome<ReservationOutput>)
    modifies db`reservations, db`reservationSerial
    ensures input.timeFrom >= input.timeTo ==> out == General(BadRequest, Some(TIME_ORDER_ERROR))
    ensures input.timeFrom < input.timeTo && !Admitted(rpc, input) ==> out == General(BadRequest, Some(BOOKED_ERROR))
    ensures input.timeFrom < input.timeTo && Admitted(rpc, input) && insertFault.Some? ==>
              out == General(BadRequest, Some(errorText(insertFault.value)))
    ensures out.Ok? <==> input.timeFrom < input.timeTo && Admitted(rpc, input) && insertFault.None?
    ensures out.Ok? ==>
              var row := NewReservation(old(db.reservationSerial), claims.id, input);
              db.reservations == old(db.reservations) + [row] && db.reservationSerial == old(db.reservationSerial) + 1
              && out.data == Present(row, db.salonBeds)
    ensures !out.Ok? ==> db.reservations == old(db.reservations) && db.reservationSerial == old(db.reservationSerial)
    ensures rpc == AvailableSalonBeds(old(db.salonBeds), old(db.reservations)) && NoOverlappingWaiting(old(db.reservations)) ==>
              NoOverlappingWaiting(db.reservations)
  {
    if input.timeFrom >= input.timeTo {
      return General(BadRequest, Some(TIME_ORDER_ERROR));
    }
    if !Admitted(rpc, input) {
      return General(BadRequest, Some(BOOKED_ERROR));
    }
    if insertFault.Some? {
      return General(BadRequest, Some(errorText(insertFault.value)));
    }
    var row := NewReservation(db.reservationSerial, claims.id, input);
    if rpc == AvailableSalonBeds(db.salonBeds, db.reservations) && NoOverlappingWaiting(db.reservations) {
      CreateKeepsNoOverlap(db.salonBeds, db.reservations, db.reservationSerial, claims.id, input);
    }
    db.reservations := db.reservations + [row];
    db.reservationSerial := db.reservationSerial + 1;
    var reservation := Embed(row, db.salonBeds);
    if reservation.salonBed.Some? {
      reservation := reservation.(salonId := reservation.salonBed.value.salonId);
    }
    out := Ok(reservation);
  }

  /**
   * No double booking: while a waiting reservation of a bed is stored, the availability
   * answer refuses every booking of that bed whose period overlaps it.
   */
  lemma NoDoubleBooking(beds: seq<SalonBed>, rs: seq<Reservation>, id: Id, userId: Id,
                        input: CreateReservationInput, i: nat)
    requires i < |rs| && Clash(rs[i], NewReservation(id, userId, input))
    ensures !Admitted(AvailableSalonBeds(beds, rs), input)
  {
    var from, to := input.timeFrom, input.timeTo;
    BlocksIff(rs[i], from, to);
    FreeIff(input.salonBedId, rs, from, to);
    var answer := AvailableSalonBeds(beds, rs)(from, to);
    forall k | 0 <= k < |answer|
      ensures !BedWithId(input.salonBedId)(answer[k])
    {
      assert Free(answer[k].id, rs, from, to);
    }
    Table.WhereNone(answer, BedWithId(input.salonBedId));
  }

  /**
   * A booking the availability answer admits keeps the table free of double bookings:
   * the new waiting row clashes with no stored one.
   */
  lemma CreateKeepsNoOverlap(beds: seq<SalonBed>, rs: seq<Reservation>, id: Id, userId: Id, input: CreateReservationInput)
    requires NoOverlappingWaiting(rs)
    requires Admitted(AvailableSalonBeds(beds, rs), input)
    ensures NoOverlappingWaiting(rs + [NewReservation(id, userId, input)])
  {
    var row := NewReservation(id, userId, input);
    var all := rs + [row];
    forall i, j | 0 <= i < j < |all|
      ensures !Clash(all[i], all[j])
    {
      if j == |rs| {
        assert all[i] == rs[i] && all[j] == row;
        if Clash(rs[i], row) {
          NoDoubleBooking(beds, rs, id, userId, input, i);
        }
      } else {
        assert all[i] == rs[i] && all[j] == rs[j];
      }
    }
  }

  /**
   * A stored booking that does not overlap a requested period (for instance one that
   * ends where the period starts) leaves the answer for that period as it was.
   */
  lemma DisjointBookingKeepsAdmission(beds: seq<SalonBed>, rs: seq<Reservation>, id: Id, userId: Id,
                                      first: CreateReservationInput, second: CreateReservationInput)
    requires first.timeFrom < first.timeTo && second.timeFrom < second.timeTo
    requires first.timeTo <= second.timeFrom || second.timeTo <= first.timeFrom
    ensures Admitted(AvailableSalonBeds(beds, rs + [NewReservation(id, userId, first)]), second)
            == Admitted(AvailableSalonBeds(beds, rs), second)
  {
    var row := NewReservation(id, userId, first);
    var from, to := second.timeFrom, second.timeTo;
    BlocksIff(row, from, to);
    forall b | b in beds
      ensures Free(b.id, rs + [row], from, to) == Free(b.id, rs, from, to)
    {
      AddNonBlocking(b.id, rs, row, from, to);
    }
    assert AvailableSalonBeds(beds, rs + [row])(from, to) == AvailableSalonBeds(beds, rs)(from, to) by {
      SameFilter(beds, (b: SalonBed) => Free(b.id, rs + [row], from, to), (b: SalonBed) => Free(b.id, rs, from, to));
    }
  }

  lemma {:induction false} SameFilter(beds: seq<SalonBed>, p: SalonBed -> bool, q: SalonBed -> bool)
    requires forall b :: b in beds ==> p(b) == q(b)
    ensures Table.Where(beds, p) == Table.Where(beds, q)
  {
    if beds != [] {
      SameFilter(beds[1..], p, q);
    }
  }
}
