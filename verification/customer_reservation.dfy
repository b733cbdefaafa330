// A customer's reservations of a therapy at a branch (src/router/customer/reservation.rs).

module CustomerReservation {
  import opened Common
  import opened Database
  import opened Claim
  import opened Store
  import Table
  import opened Query

  datatype AddReservationInput = AddReservationInput(therapyId: int, salonBranchId: int, timeFrom: Time, comment: Option<string>)

  const NOT_SAME_SALON: string := "therapy and salon branch are not in same salon!"

  /**
   * The validating join: some therapy with the given id and some branch with the given
   * id have equal, non-NULL `salon_id`s.
   */
  predicate SameSalon(therapies: seq<Therapy>, branches: seq<SalonBranch>, therapyId: int, branchId: int)
  {
    exists i, j :: 0 <= i < |therapies| && 0 <= j < |branches| &&
      IdIs(therapies[i].id, therapyId) && IdIs(branches[j].id, branchId) &&
      SameNonNull(therapies[i].salonId, branches[j].salonId)
  }

  /** The row `ADD_RESERVATION_QUERY` stores: the caller, the therapy, the branch, the start and the comment. */
  function NewBranchReservation(id: Id, userId: Id, therapyId: Id, branchId: Id, input: AddReservationInput): BranchReservation
  {
    BranchReservation(Some(id), Some(userId), Some(therapyId), Some(branchId), Some(input.timeFrom), input.comment)
  }

  /**
   * `add_reservation`. `insertFault` is the text of a failed insert. A validated pair of
   * ids names stored rows, so both are natural numbers.
   */
  method AddReservation(db: Db, claims: Claims, input: AddReservationInput, insertFault: Option<string>)
    returns (out: Outcome<()>)
    modifies db`branchReservations, db`branchReservationSerial
    ensures !SameSalon(db.therapies, db.branches, input.therapyId, input.salonBranchId) ==>
              out == General(BadRequest, Some(NOT_SAME_SALON))
    ensures SameSalon(db.therapies, db.branches, input.therapyId, input.salonBranchId) && insertFault.Some? ==>
              out == General(BadRequest, Some(insertFault.value))
    ensures out == General(OK, None) <==>
              SameSalon(db.therapies, db.branches, input.therapyId, input.salonBranchId) && insertFault.None?
    ensures out == General(OK, None) ==>
              input.therapyId >= 0 && input.salonBranchId >= 0 &&
              db.branchReservations == old(db.branchReservations) +
                [NewBranchReservation(old(db.branchReservationSerial), claims.id, input.therapyId, input.salonBranchId, input)]
              && db.branchReservationSerial == old(db.branchReservationSerial) + 1
    ensures out != General(OK, None) ==>
              db.branchReservations == old(db.branchReservations) && db.branchReservationSerial == old(db.branchReservationSerial)
  {
    if !SameSalon(db.therapies, db.branches, input.therapyId, input.salonBranchId) {
      return General(BadRequest, Some(NOT_SAME_SALON));
    }
    if insertFault.Some? {
      return General(BadRequest, Some(insertFault.value));
    }
    var i, j :| 0 <= i < |db.therapies| && 0 <= j < |db.branches| &&
      IdIs(db.therapies[i].id, input.therapyId) && IdIs(db.branches[j].id, input.salonBranchId) &&
      SameNonNull(db.therapies[i].salonId, db.branches[j].salonId);
    var row := NewBranchReservation(db.branchReservationSerial, claims.id, input.therapyId, input.salonBranchId, input);
    db.branchReservations := db.branchReservations + [row];
    db.branchReservationSerial := db.branchReservationSerial + 1;
    out := General(OK, None);
  }

  /**
   * A stored reservation always names the caller, and a therapy and a branch of one
   * salon: the salon check is what admits it.
   */
  lemma AddedReservationIsConsistent(therapies: seq<Therapy>, branches: seq<SalonBranch>, id: Id, userId: Id,
                                     therapyId: Id, branchId: Id, input: AddReservationInput)
    requires SameSalon(therapies, branches, therapyId, branchId)
    ensures var r := NewBranchReservation(id, userId, therapyId, branchId, input);
            r.userId == Some(userId) &&
            exists i, j :: 0 <= i < |therapies| && 0 <= j < |branches| &&
              therapies[i].id == r.therapyId && branches[j].id == r.salonBranchId &&
              therapies[i].salonId.Some? && therapies[i].salonId == branches[j].salonId
  {
    var i, j :| 0 <= i < |therapies| && 0 <= j < |branches| &&
      IdIs(therapies[i].id, therapyId) && IdIs(branches[j].id, branchId) &&
      SameNonNull(therapies[i].salonId, branches[j].salonId);
    assert therapies[i].salonId.Some? && therapies[i].salonId == branches[j].salonId;
  }

  // `list_reservation`.

  /** A row of `LIST_RESERVATION_QUERY`: the reservation with its branch, salon and therapy (NULL when missing). */
  datatype CustomerReservationOutput = CustomerReservationOutput(
    reservation: BranchReservation,
    salonBranch: Option<SalonBranch>,
    salon: Option<Salon>,
    therapy: Option<Therapy>)

  datatype CustomerReservationPage = CustomerReservationPage(reservations: seq<CustomerReservationOutput>, total: int)

  function OwnedBy(userId: Id): BranchReservation -> bool
  {
    (r: BranchReservation) => IdIs(r.userId, userId)
  }

  function TimeFromKey(r: BranchReservation): SortKey
  {
    if r.timeFrom.Some? then Key(r.timeFrom.value) else Null
  }

  /** `WHERE reservations.user_id = $1 ORDER BY reservations.time_from DESC`. */
  function CustomerHistory(rows: seq<BranchReservation>, userId: Id): seq<BranchReservation>
  {
    OrderBy(Table.Where(rows, OwnedBy(userId)), TimeFromKey, Desc)
  }

  /** The three LEFT JOINs, read with ids as keys: the first row with the matching id, if any. */
  function Join(r: BranchReservation, therapies: seq<Therapy>, branches: seq<SalonBranch>, salons: seq<Salon>): CustomerReservationOutput
  {
    var therapy := if r.therapyId.None? then None
                   else Table.FindFirst(therapies, (t: Therapy) => IdIs(t.id, r.therapyId.value));
    var branch := if r.salonBranchId.None? then None
                  else Table.FindFirst(branches, (b: SalonBranch) => IdIs(b.id, r.salonBranchId.value));
    var salon := if branch.None? || branch.value.salonId.None? then None
                 else Table.FindFirst(salons, (s: Salon) => IdIs(s.id, branch.value.salonId.value));
    CustomerReservationOutput(r, branch, salon, therapy)
  }

  lemma {:induction false} CustomerHistoryIsOwnedAndOrdered(rows: seq<BranchReservation>, userId: Id)
    ensures multiset(CustomerHistory(rows, userId)) == multiset(Table.Where(rows, OwnedBy(userId)))
    ensures forall i :: 0 <= i < |CustomerHistory(rows, userId)| ==>
              CustomerHistory(rows, userId)[i] in rows && CustomerHistory(rows, userId)[i].userId == Some(userId)
    ensures forall i, j :: 0 <= i < j < |CustomerHistory(rows, userId)| ==>
              Precedes(Desc, TimeFromKey(CustomerHistory(rows, userId)[i]), TimeFromKey(CustomerHistory(rows, userId)[j]))
  {
    var owned := Table.Where(rows, OwnedBy(userId));
    var h := CustomerHistory(rows, userId);
    OrderBySorted(owned, TimeFromKey, Desc);
    forall i | 0 <= i < |h|
      ensures h[i] in rows && h[i].userId == Some(userId)
    {
      assert h[i] in multiset(owned);
    }
  }

  /**
   * `list_reservation`: the page of the caller's history after OFFSET and LIMIT, each
   * row joined, and `total` read from the first row's `COUNT(*) OVER ()`; 0 when the
   * page is empty.
   */
  method ListReservation(db: Db, claims: Claims, offset: Option<int>, limit: Option<int>)
    returns (out: Outcome<CustomerReservationPage>)
    ensures var page := BoundOffsetLimit(CustomerHistory(db.branchReservations, claims.id), offset, limit);
            page.Failure? ==> out == General(BadRequest, Some(DATABASE_ERROR_PREFIX + page.error))
    ensures var page := BoundOffsetLimit(CustomerHistory(db.branchReservations, claims.id), offset, limit);
            page.Success? ==>
              out.Ok? && |out.data.reservations| == |page.value| &&
              (forall i :: 0 <= i < |page.value| ==>
                 out.data.reservations[i] == Join(page.value[i], db.therapies, db.branches, db.salons)) &&
              out.data.total == if page.value == [] then 0 else Table.CountWhere(db.branchReservations, OwnedBy(claims.id))
  {
    var page := BoundOffsetLimit(CustomerHistory(db.branchReservations, claims.id), offset, limit);
    if page.Failure? {
      return General(BadRequest, Some(DATABASE_ERROR_PREFIX + page.error));
    }
    var count := Table.CountWhere(db.branchReservations, OwnedBy(claims.id));
    var therapies, branches, salons := db.therapies, db.branches, db.salons;
    var items, total := CollectWithTotal(WithTotal(page.value, count),
                                         (r: BranchReservation) => Join(r, therapies, branches, salons));
    out := Ok(CustomerReservationPage(items, total.GetOr(0)));
  }

  /**
   * An offset at or past the caller's last reservation gives an empty page whose
   * `total` is 0, although the caller has reservations.
   */
  lemma PastTheEndReportsNothing(rows: seq<BranchReservation>, userId: Id, offset: nat, limit: Option<int>)
    requires limit.None? || limit.value >= 0
    requires offset >= Table.CountWhere(rows, OwnedBy(userId))
    ensures BoundOffsetLimit(CustomerHistory(rows, userId), Some(offset), limit) == Success([])
  {
    CustomerHistoryIsOwnedAndOrdered(rows, userId);
    assert |CustomerHistory(rows, userId)| == Table.CountWhere(rows, OwnedBy(userId)) by {
      assert |multiset(CustomerHistory(rows, userId))| == |multiset(Table.Where(rows, OwnedBy(userId)))|;
    }
  }
}
