// When a reservation keeps a bed busy, in the store's own terms: the SQL
// predicate `status = 'WAITING' AND (time_from, time_to) OVERLAPS (from, to)`
// and the `NOT IN` test against the beds it selects, both in SQL's three-valued
// logic, where a NULL column makes a comparison unknown (ISO/IEC 9075:1992,
// section 8.11 for OVERLAPS and section 8.4 for IN).

module Availability {
  import opened Common
  import opened Database
  import Table

  /** SQL's three truth values. A WHERE clause keeps a row only when its condition is True. */
  datatype Truth = True | False | Unknown

  function And(a: Truth, b: Truth): Truth
  {
    if a == False || b == False then False else if a == True && b == True then True else Unknown
  }

  function Or(a: Truth, b: Truth): Truth
  {
    if a == True || b == True then True else if a == False && b == False then False else Unknown
  }

  function Not(a: Truth): Truth
  {
    match a
    case True => False
    case False => True
    case Unknown => Unknown
  }

  function Lt(a: Option<int>, b: Option<int>): Truth
  {
    if a.None? || b.None? then Unknown else if a.value < b.value then True else False
  }

  function Eq(a: Option<int>, b: Option<int>): Truth
  {
    if a.None? || b.None? then Unknown else if a.value == b.value then True else False
  }

  function Gt(a: Option<int>, b: Option<int>): Truth { Lt(b, a) }

  function Ge(a: Option<int>, b: Option<int>): Truth { Not(Lt(a, b)) }

  function Ne(a: Option<int>, b: Option<int>): Truth { Not(Eq(a, b)) }

  /**
   * `(d1, e1) OVERLAPS (d2, e2)`. Each period is first put in order (a period with a
   * NULL start, or whose end is before its start, is read end first), then
   *   (S1 > S2 AND NOT (S1 >= T2 AND T1 >= T2))
   *   OR (S2 > S1 AND NOT (S2 >= T1 AND T2 >= T1))
   *   OR (S1 = S2 AND (T1 <> T2 OR T1 = T2)).
   */
  function Overlaps(d1: Option<Time>, e1: Option<Time>, d2: Option<Time>, e2: Option<Time>): Truth
  {
    var swap1 := d1.None? || Lt(e1, d1) == True;
    var swap2 := d2.None? || Lt(e2, d2) == True;
    var s1, t1 := if swap1 then e1 else d1, if swap1 then d1 else e1;
    var s2, t2 := if swap2 then e2 else d2, if swap2 then d2 else e2;
    Or(Or(And(Gt(s1, s2), Not(And(Ge(s1, t2), Ge(t1, t2)))),
          And(Gt(s2, s1), Not(And(Ge(s2, t1), Ge(t2, t1))))),
       And(Eq(s1, s2), Or(Ne(t1, t2), Eq(t1, t2))))
  }

  /** OVERLAPS does not depend on which period is written first. */
  lemma OverlapsSymmetric(d1: Option<Time>, e1: Option<Time>, d2: Option<Time>, e2: Option<Time>)
    ensures Overlaps(d1, e1, d2, e2) == Overlaps(d2, e2, d1, e1)
  {
  }

  /**
   * On periods with both ends present and start before end, OVERLAPS is the
   * intersection of half-open intervals [a1, a2) and [b1, b2); it is never unknown.
   */
  lemma OverlapsHalfOpen(a1: Time, a2: Time, b1: Time, b2: Time)
    requires a1 < a2 && b1 < b2
    ensures Overlaps(Some(a1), Some(a2), Some(b1), Some(b2)) == if a1 < b2 && b1 < a2 then True else False
  {
  }

  /** A period that ends where another starts does not overlap it. */
  lemma TouchingPeriodsDoNotOverlap(a1: Time, a2: Time, b2: Time)
    requires a1 < a2 < b2
    ensures Overlaps(Some(a1), Some(a2), Some(a2), Some(b2)) == False
    ensures Overlaps(Some(a2), Some(b2), Some(a1), Some(a2)) == False
  {
    OverlapsHalfOpen(a1, a2, a2, b2);
    OverlapsHalfOpen(a2, b2, a1, a2);
  }

  /** A period with a start and no end overlaps a proper period only if it starts strictly inside it. */
  lemma OpenEndedPeriod(x: Time, b1: Time, b2: Time)
    requires b1 < b2
    ensures Overlaps(Some(x), None, Some(b1), Some(b2)) == True <==> b1 < x < b2
  {
  }

  /** `reservations.status = 'WAITING'`: the stored text of the status against the literal. */
  function StatusIsWaiting(r: Reservation): Truth
  {
    match r.status
    case None => Unknown
    case Some(s) => if ReservationStatusText(s) == "WAITING" then True else False
  }

  lemma StatusIsWaitingIff(r: Reservation)
    ensures StatusIsWaiting(r) == True <==> r.status == Some(WAITING)
    ensures StatusIsWaiting(r) != Unknown <==> r.status.Some?
  {
    if r.status.Some? {
      TextsInjective(MALE, MALE, ACTIVATE, ACTIVATE, IMAGE, IMAGE, r.status.value, WAITING);
    }
  }

  /** The WHERE clause of the subquery: the reservation is waiting and overlaps [from, to). */
  function Blocks(from: Time, to: Time): Reservation -> bool
  {
    (r: Reservation) => And(StatusIsWaiting(r), Overlaps(r.timeFrom, r.timeTo, Some(from), Some(to))) == True
  }

  /** `SELECT reservations.salon_bed_id FROM reservations WHERE ...`: the beds the subquery names, NULLs included. */
  function BlockingBedIds(rs: seq<Reservation>, from: Time, to: Time): (ids: seq<Option<Id>>)
    ensures |ids| == |Table.Where(rs, Blocks(from, to))|
  {
    var rows := Table.Where(rs, Blocks(from, to));
    seq(|rows|, i requires 0 <= i < |rows| => rows[i].salonBedId)
  }

  function EqId(a: Option<Id>, b: Option<Id>): Truth
  {
    if a.None? || b.None? then Unknown else if a.value == b.value then True else False
  }

  /** `x IN (v1, ..., vn)`: x = v1 OR ... OR x = vn, False for an empty list. */
  function InList(x: Option<Id>, vs: seq<Option<Id>>): Truth
  {
    if vs == [] then False else Or(EqId(x, vs[0]), InList(x, vs[1..]))
  }

  /** A bed is free for [from, to) when `bed.id NOT IN (subquery)` is True. */
  predicate Free(bed: Option<Id>, rs: seq<Reservation>, from: Time, to: Time)
  {
    Not(InList(bed, BlockingBedIds(rs, from, to))) == True
  }

  /** NOT IN is True exactly when the value is present and every listed value is present and different. */
  lemma {:induction false} NotInTrueIff(x: Option<Id>, vs: seq<Option<Id>>)
    ensures Not(InList(x, vs)) == True <==> (vs == [] || x.Some?) && forall k :: 0 <= k < |vs| ==> vs[k].Some? && vs[k] != x
  {
    if vs != [] {
      NotInTrueIff(x, vs[1..]);
      assert forall k :: 1 <= k < |vs| ==> vs[k] == vs[1..][k - 1];
    }
  }

  /**
   * A bed (with an id) is free exactly when every reservation that blocks the period
   * names a bed, and not this one. One blocking reservation without a bed makes
   * every bed busy.
   */
  lemma FreeIff(bed: Id, rs: seq<Reservation>, from: Time, to: Time)
    ensures Free(Some(bed), rs, from, to) <==>
            forall i :: 0 <= i < |rs| && Blocks(from, to)(rs[i]) ==> rs[i].salonBedId.Some? && rs[i].salonBedId != Some(bed)
  {
    var rows := Table.Where(rs, Blocks(from, to));
    var ids := BlockingBedIds(rs, from, to);
    NotInTrueIff(Some(bed), ids);
    if Free(Some(bed), rs, from, to) {
      forall i | 0 <= i < |rs| && Blocks(from, to)(rs[i])
        ensures rs[i].salonBedId.Some? && rs[i].salonBedId != Some(bed)
      {
        var k :| 0 <= k < |rows| && rows[k] == rs[i];
        assert ids[k] == rs[i].salonBedId;
      }
    }
  }

  /** A blocking reservation whose bed is NULL leaves no bed free for the period. */
  lemma NullBedBlocksAll(bed: Option<Id>, rs: seq<Reservation>, from: Time, to: Time, i: nat)
    requires i < |rs| && Blocks(from, to)(rs[i]) && rs[i].salonBedId.None?
    ensures !Free(bed, rs, from, to)
  {
    var rows := Table.Where(rs, Blocks(from, to));
    var k :| 0 <= k < |rows| && rows[k] == rs[i];
    NotInTrueIff(bed, BlockingBedIds(rs, from, to));
    assert BlockingBedIds(rs, from, to)[k].None?;
  }

  /**
   * For a reservation with both times present and in order, and a proper requested
   * period, blocking means: waiting, and the two half-open periods intersect.
   */
  lemma BlocksIff(r: Reservation, from: Time, to: Time)
    requires from < to
    requires r.timeFrom.Some? && r.timeTo.Some? && r.timeFrom.value < r.timeTo.value
    ensures Blocks(from, to)(r) <==>
            r.status == Some(WAITING) && r.timeFrom.value < to && from < r.timeTo.value
  {
    StatusIsWaitingIff(r);
    OverlapsHalfOpen(r.timeFrom.value, r.timeTo.value, from, to);
  }

  /** Both times are present and the start is before the end. */
  predicate ProperPeriod(r: Reservation)
  {
    r.timeFrom.Some? && r.timeTo.Some? && r.timeFrom.value < r.timeTo.value
  }

  /**
   * Two reservations hold one bed at a common moment: both are waiting, name the same
   * bed, have proper periods, and their half-open periods intersect.
   */
  predicate Clash(a: Reservation, b: Reservation)
  {
    a.status == Some(WAITING) && b.status == Some(WAITING) &&
    a.salonBedId.Some? && a.salonBedId == b.salonBedId &&
    ProperPeriod(a) && ProperPeriod(b) &&
    a.timeFrom.value < b.timeTo.value && b.timeFrom.value < a.timeTo.value
  }

  /** The booking invariant of the reservations table: no bed is double-booked. */
  predicate NoOverlappingWaiting(rs: seq<Reservation>)
  {
    forall i, j :: 0 <= i < j < |rs| ==> !Clash(rs[i], rs[j])
  }

  /** A reservation that does not block the period changes no bed's availability when it is added. */
  lemma AddNonBlocking(bed: Option<Id>, rs: seq<Reservation>, r: Reservation, from: Time, to: Time)
    requires !Blocks(from, to)(r)
    ensures BlockingBedIds(rs + [r], from, to) == BlockingBedIds(rs, from, to)
    ensures Free(bed, rs + [r], from, to) == Free(bed, rs, from, to)
  {
    Table.WhereAppend(rs, [r], Blocks(from, to));
    assert Table.Where([r], Blocks(from, to)) == [];
  }
}
