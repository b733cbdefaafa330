// Cancelling one's own reservation (src/service/reservation/all_user/cancel_reservation.rs).

module CancelReservation {
  import opened Common
  import opened Database
  import opened Claim
  import opened Store
  import Table
  import opened Availability
  import opened ReservationView
  import CreateReservation

  const CANCEL_ERROR: string := "This reservation of this user already canceled or not found."

  /** `.eq("id", reservation_id).eq("user_id", claims.id)`. */
  function CancelTarget(reservationId: Id, userId: Id): Reservation -> bool
  {
    (r: Reservation) => IdIs(r.id, reservationId) && IdIs(r.userId, userId)
  }

  /** `.update({"status": "CANCEL"})`: only the status changes. */
  function MarkCancelled(r: Reservation): Reservation
  {
    r.(status := Some(CANCEL))
  }

  /** The table after the update has run on every row the filters match. */
  function Cancelled(rows: seq<Reservation>, reservationId: Id, userId: Id): seq<Reservation>
  {
    Table.UpdateWhere(rows, CancelTarget(reservationId, userId), MarkCancelled)
  }

  /**
   * With `.single()` the update stands only when it touched exactly one row; otherwise
   * PostgREST answers with an error and the transaction is rolled back. There is no
   * filter on the status: a reservation that is already cancelled, or done, is
   * cancelled (again) all the same.
   */
  method CancelReservation(db: Db, reservationId: Id, claims: Claims) returns (out: Outcome<ReservationOutput>)
    modifies db`reservations
    ensures var target := CancelTarget(reservationId, claims.id);
            if Table.CountWhere(old(db.reservations), target) == 1 then
              db.reservations == Cancelled(old(db.reservations), reservationId, claims.id)
              && out == Ok(Present(MarkCancelled(Table.Where(old(db.reservations), target)[0]), db.salonBeds))
            else
              db.reservations == old(db.reservations) && out == General(BadRequest, Some(CANCEL_ERROR))
    ensures NoOverlappingWaiting(old(db.reservations)) ==> NoOverlappingWaiting(db.reservations)
  {
    var target := CancelTarget(reservationId, claims.id);
    var matched := Table.Where(db.reservations, target);
    if |matched| != 1 {
      return General(BadRequest, Some(CANCEL_ERROR));
    }
    if NoOverlappingWaiting(db.reservations) {
      CancelKeepsNoOverlap(db.reservations, reservationId, claims.id);
    }
    db.reservations := Table.UpdateWhere(db.reservations, target, MarkCancelled);
    var reservation := Embed(MarkCancelled(matched[0]), db.salonBeds);
    if reservation.salonBed.Some? {
      reservation := reservation.(salonId := reservation.salonBed.value.salonId);
    }
    out := Ok(reservation);
  }

  /**
   * Only the caller's own reservation with that id changes, and only in its status;
   * every other row is left as it was.
   */
  lemma CancelTouchesOnlyTarget(rows: seq<Reservation>, reservationId: Id, userId: Id, i: nat)
    requires i < |rows|
    ensures |Cancelled(rows, reservationId, userId)| == |rows|
    ensures rows[i].userId != Some(userId) || rows[i].id != Some(reservationId) ==>
              Cancelled(rows, reservationId, userId)[i] == rows[i]
    ensures rows[i].userId == Some(userId) && rows[i].id == Some(reservationId) ==>
              Cancelled(rows, reservationId, userId)[i] == rows[i].(status := Some(CANCEL))
  {
    var target := CancelTarget(reservationId, userId);
    assert target(rows[i]) <==> rows[i].userId == Some(userId) && rows[i].id == Some(reservationId);
  }

  /** Cancelling twice leaves the table as cancelling once. */
  lemma CancelIdempotent(rows: seq<Reservation>, reservationId: Id, userId: Id)
    ensures Cancelled(Cancelled(rows, reservationId, userId), reservationId, userId) == Cancelled(rows, reservationId, userId)
  {
    Table.UpdateIdempotent(rows, CancelTarget(reservationId, userId), MarkCancelled);
  }

  /** A cancelled reservation blocks no period. */
  lemma CancelledNeverBlocks(r: Reservation, from: Time, to: Time)
    ensures !Blocks(from, to)(MarkCancelled(r))
  {
    StatusIsWaitingIff(MarkCancelled(r));
  }

  /** Cancelling never makes a free bed busy. */
  lemma CancelKeepsFree(bed: Id, rows: seq<Reservation>, reservationId: Id, userId: Id, from: Time, to: Time)
    requires Free(Some(bed), rows, from, to)
    ensures Free(Some(bed), Cancelled(rows, reservationId, userId), from, to)
  {
    var after := Cancelled(rows, reservationId, userId);
    FreeIff(bed, rows, from, to);
    FreeIff(bed, after, from, to);
    forall i | 0 <= i < |after| && Blocks(from, to)(after[i])
      ensures after[i].salonBedId.Some? && after[i].salonBedId != Some(bed)
    {
      if CancelTarget(reservationId, userId)(rows[i]) {
        CancelledNeverBlocks(rows[i], from, to);
      }
    }
  }

  /** Cancelling keeps the table free of double bookings: it only takes rows out of waiting. */
  lemma CancelKeepsNoOverlap(rows: seq<Reservation>, reservationId: Id, userId: Id)
    requires NoOverlappingWaiting(rows)
    ensures NoOverlappingWaiting(Cancelled(rows, reservationId, userId))
  {
    var after := Cancelled(rows, reservationId, userId);
    forall i, j | 0 <= i < j < |after|
      ensures !Clash(after[i], after[j])
    {
      assert after[i].status == Some(WAITING) ==> after[i] == rows[i];
      assert after[j].status == Some(WAITING) ==> after[j] == rows[j];
    }
  }

  /**
   * Cancelling frees the slot: when the cancelled booking is the only waiting
   * reservation that held the bed over a period, the bed is free for that period again.
   */
  lemma CancelFreesTheSlot(bed: Id, rows: seq<Reservation>, reservationId: Id, userId: Id, from: Time, to: Time)
    requires forall i :: 0 <= i < |rows| && Blocks(from, to)(rows[i]) && !CancelTarget(reservationId, userId)(rows[i]) ==>
               rows[i].salonBedId.Some? && rows[i].salonBedId != Some(bed)
    ensures Free(Some(bed), Cancelled(rows, reservationId, userId), from, to)
  {
    var after := Cancelled(rows, reservationId, userId);
    forall i | 0 <= i < |after| && Blocks(from, to)(after[i])
      ensures after[i].salonBedId.Some? && after[i].salonBedId != Some(bed)
    {
      CancelTouchesOnlyTarget(rows, reservationId, userId, i);
      if CancelTarget(reservationId, userId)(rows[i]) {
        CancelledNeverBlocks(rows[i], from, to);
      }
    }
    FreeIff(bed, after, from, to);
  }

  /**
   * After the cancel, a new booking of the same bed for the same period is admitted
   * again by the availability answer, when no other waiting reservation holds the bed
   * over that period and the bed table lists the bed once.
   */
  lemma CancelReadmits(beds: seq<SalonBed>, rows: seq<Reservation>, reservationId: Id, userId: Id,
                       input: CreateReservation.CreateReservationInput)
    requires Table.CountWhere(beds, BedWithId(input.salonBedId)) == 1
    requires forall i :: 0 <= i < |rows| && Blocks(input.timeFrom, input.timeTo)(rows[i])
                         && !CancelTarget(reservationId, userId)(rows[i]) ==>
               rows[i].salonBedId.Some? && rows[i].salonBedId != Some(input.salonBedId)
    ensures CreateReservation.Admitted(
              CreateReservation.AvailableSalonBeds(beds, Cancelled(rows, reservationId, userId)), input)
  {
    var after := Cancelled(rows, reservationId, userId);
    CancelFreesTheSlot(input.salonBedId, rows, reservationId, userId, input.timeFrom, input.timeTo);
    FreeBedKeepsCount(beds, (b: SalonBed) => Free(b.id, after, input.timeFrom, input.timeTo), BedWithId(input.salonBedId));
  }

  /** Filtering by a test every `q`-row passes keeps the number of `q`-rows. */
  lemma {:induction false} FreeBedKeepsCount(beds: seq<SalonBed>, p: SalonBed -> bool, q: SalonBed -> bool)
    requires forall b :: b in beds && q(b) ==> p(b)
    ensures Table.CountWhere(Table.Where(beds, p), q) == Table.CountWhere(beds, q)
  {
    if beds != [] {
      FreeBedKeepsCount(beds[1..], p, q);
      Table.WhereAppend((if p(beds[0]) then [beds[0]] else []), Table.Where(beds[1..], p), q);
    }
  }
}
