// Public bed listings of a branch (src/router/public/salon_bed.rs), over the
// revision in which beds belong to a branch and reservations name a bed.

module PublicSalonBed {
  import opened Common
  import opened Database
  import Table
  import opened Availability

  function OnBranch(branchId: int): BranchBed -> bool
  {
    (b: BranchBed) => IdIs(b.branchId, branchId)
  }

  /** `list_bed`: the beds of the branch, in table order. */
  function ListBed(beds: seq<BranchBed>, branchId: int): (r: seq<BranchBed>)
    ensures forall i :: 0 <= i < |r| ==> r[i] in beds && IdIs(r[i].branchId, branchId)
    ensures forall i :: 0 <= i < |beds| && IdIs(beds[i].branchId, branchId) ==> beds[i] in r
  {
    Table.Where(beds, OnBranch(branchId))
  }

  const TIME_RANGE_ERROR: string := "timeTo must be greater than timeFrom!"

  function AvailableOn(rs: seq<Reservation>, branchId: int, from: Time, to: Time): BranchBed -> bool
  {
    (b: BranchBed) => IdIs(b.branchId, branchId) && Free(b.id, rs, from, to)
  }

  /**
   * `available_bed`: an empty or reversed period is refused; otherwise the beds of the
   * branch that `NOT IN` keeps, given the waiting reservations overlapping the period.
   */
  function AvailableBed(beds: seq<BranchBed>, rs: seq<Reservation>, branchId: int, from: Time, to: Time)
    : (r: Outcome<seq<BranchBed>>)
    ensures r.General? <==> from >= to
    ensures r.General? ==> r == General(BadRequest, Some(TIME_RANGE_ERROR))
    ensures r.Ok? ==> forall i :: 0 <= i < |r.data| ==> r.data[i] in ListBed(beds, branchId)
  {
    if from >= to then General(BadRequest, Some(TIME_RANGE_ERROR))
    else Ok(Table.Where(beds, AvailableOn(rs, branchId, from, to)))
  }

  /**
   * When every blocking reservation names a bed, a stored bed (it has an id) is offered
   * exactly when it is on the branch and no waiting reservation on it overlaps
   * the period (as half-open intervals, for reservations whose times are in order).
   */
  lemma AvailableBedIff(beds: seq<BranchBed>, rs: seq<Reservation>, branchId: int, from: Time, to: Time, k: nat)
    requires from < to && k < |beds| && beds[k].id.Some?
    requires forall i :: 0 <= i < |rs| ==> rs[i].timeFrom.Some? && rs[i].timeTo.Some? && rs[i].timeFrom.value < rs[i].timeTo.value
    requires forall i :: 0 <= i < |rs| && Blocks(from, to)(rs[i]) ==> rs[i].salonBedId.Some?
    ensures beds[k] in AvailableBed(beds, rs, branchId, from, to).data <==>
            IdIs(beds[k].branchId, branchId) &&
            forall i :: 0 <= i < |rs| && rs[i].salonBedId == beds[k].id ==>
              !(rs[i].status == Some(WAITING) && rs[i].timeFrom.value < to && from < rs[i].timeTo.value)
  {
    var b := beds[k];
    var conflictFree := forall i :: 0 <= i < |rs| && rs[i].salonBedId == b.id ==>
              !(rs[i].status == Some(WAITING) && rs[i].timeFrom.value < to && from < rs[i].timeTo.value);
    FreeIff(b.id.value, rs, from, to);
    forall i | 0 <= i < |rs|
      ensures Blocks(from, to)(rs[i]) <==>
              rs[i].status == Some(WAITING) && rs[i].timeFrom.value < to && from < rs[i].timeTo.value
    {
      BlocksIff(rs[i], from, to);
    }
    assert Free(b.id, rs, from, to) <==> conflictFree;
    assert AvailableOn(rs, branchId, from, to)(b) <==> IdIs(b.branchId, branchId) && conflictFree;
  }

  /** A waiting reservation with no bed that overlaps the period empties the answer for every branch. */
  lemma NullBedEmptiesAnswer(beds: seq<BranchBed>, rs: seq<Reservation>, branchId: int, from: Time, to: Time, i: nat)
    requires from < to && i < |rs| && Blocks(from, to)(rs[i]) && rs[i].salonBedId.None?
    ensures AvailableBed(beds, rs, branchId, from, to) == Ok([])
  {
    forall k | 0 <= k < |beds|
      ensures !AvailableOn(rs, branchId, from, to)(beds[k])
    {
      NullBedBlocksAll(beds[k].id, rs, from, to, i);
    }
    Table.WhereNone(beds, AvailableOn(rs, branchId, from, to));
  }
}
