// A salon owner adds and removes beds in the branches of their salon, SQL revision
// (src/router/salon_owner/salon_bed.rs). In this revision a bed belongs to a branch.

module SalonOwnerBed {
  import opened Common
  import opened Database
  import opened Claim
  import opened Store
  import Table
  import opened SalonOwnerBranch

  const BRANCH_NOT_YOURS: string := "Branch not found or not your branch!"
  const BED_NOT_YOURS: string := "Bed not found or not your salon bed!"

  /** `users.salon_id = salon_branches.salon_id AND users.id = $3`, for one branch. */
  function OwnerOf(userId: Id, b: SalonBranch): User -> bool
  {
    (u: User) => IdIs(u.id, userId) && SameNonNull(u.salonId, b.salonId)
  }

  /** Each owner row paired with the branch it owns. */
  function PairWith(b: SalonBranch, owners: seq<User>): (r: seq<(SalonBranch, User)>)
    ensures |r| == |owners|
    ensures forall k :: 0 <= k < |r| ==> r[k] == (b, owners[k])
  {
    seq(|owners|, k requires 0 <= k < |owners| => (b, owners[k]))
  }

  /**
   * The rows of `FROM salon_branches INNER JOIN users ON users.salon_id = salon_branches.salon_id
   * WHERE salon_branches.id = $2 AND users.id = $3`, branch by branch.
   */
  function JoinOwned(branches: seq<SalonBranch>, users: seq<User>, userId: Id, branchId: int): (r: seq<(SalonBranch, User)>)
    ensures forall k :: 0 <= k < |r| ==>
              r[k].0 in branches && IdIs(r[k].0.id, branchId) &&
              r[k].1 in users && IdIs(r[k].1.id, userId) && SameNonNull(r[k].1.salonId, r[k].0.salonId)
    decreases |branches|
  {
    if branches == [] then []
    else
      var here := if IdIs(branches[0].id, branchId) then PairWith(branches[0], Table.Where(users, OwnerOf(userId, branches[0]))) else [];
      here + JoinOwned(branches[1..], users, userId, branchId)
  }

  /** The join has a row exactly when the branch exists and is in one of the caller's salons. */
  lemma {:induction false} JoinOwnedIff(branches: seq<SalonBranch>, users: seq<User>, userId: Id, branchId: int)
    ensures JoinOwned(branches, users, userId, branchId) != [] <==>
            exists j :: 0 <= j < |branches| && IdIs(branches[j].id, branchId) && OwnsBranch(users, userId, branches[j])
    decreases |branches|
  {
    if branches != [] {
      JoinOwnedIff(branches[1..], users, userId, branchId);
      OwnerRowsIff(users, userId, branches[0]);
      Table.ExistsFirstOrRest(branches, OwnedBranch(users, userId, branchId));
    }
  }

  /** For one branch, the join finds caller rows exactly when the caller owns the branch. */
  lemma OwnerRowsIff(users: seq<User>, userId: Id, b: SalonBranch)
    ensures Table.Where(users, OwnerOf(userId, b)) != [] <==> OwnsBranch(users, userId, b)
  {
    var owners := Table.Where(users, OwnerOf(userId, b));
    if owners != [] {
      assert owners[0] in users;
      var i :| 0 <= i < |users| && users[i] == owners[0];
      assert OwnerOf(userId, b)(users[i]);
    }
    if OwnsBranch(users, userId, b) {
      var i :| 0 <= i < |users| && IdIs(users[i].id, userId) && SameNonNull(users[i].salonId, b.salonId);
      assert OwnerOf(userId, b)(users[i]);
      assert users[i] in owners;
    }
  }

  /** `INSERT INTO salon_beds (branch_id, name) SELECT salon_branches.id, $1 ...`: one bed per joined row. */
  function BedRows(joined: seq<(SalonBranch, User)>, name: string, serial: Id): (r: seq<BranchBed>)
    ensures |r| == |joined|
    ensures forall k :: 0 <= k < |r| ==> r[k] == BranchBed(Some(serial + k), joined[k].0.id, Some(name))
    decreases |joined|
  {
    if joined == [] then []
    else [BranchBed(Some(serial), joined[0].0.id, Some(name))] + BedRows(joined[1..], name, serial + 1)
  }

  /**
   * `add_bed`: a bed with the given name is added to the branch when the branch is in
   * the caller's salon; otherwise nothing is inserted and the failure is answered with
   * BRANCH_NOT_YOURS.
   */
  method AddBed(db: Db, claims: Claims, branchId: int, name: string) returns (out: Outcome<BranchBed>)
    modifies db`branchBeds, db`branchBedSerial
    ensures var joined := JoinOwned(db.branches, db.users, claims.id, branchId);
            var added := BedRows(joined, name, old(db.branchBedSerial));
            db.branchBeds == old(db.branchBeds) + added && db.branchBedSerial == old(db.branchBedSerial) + |joined| &&
            out == if joined == [] then General(BadRequest, Some(BRANCH_NOT_YOURS)) else Ok(added[0])
  {
    var joined := JoinOwned(db.branches, db.users, claims.id, branchId);
    var added := BedRows(joined, name, db.branchBedSerial);
    db.branchBeds := db.branchBeds + added;
    db.branchBedSerial := db.branchBedSerial + |joined|;
    out := if joined == [] then General(BadRequest, Some(BRANCH_NOT_YOURS)) else Ok(added[0]);
  }

  /**
   * Every bed `add_bed` stores is in the path branch and carries the given name, and one
   * is stored exactly when that branch is in one of the caller's salons.
   */
  lemma AddedBedsAreInTheBranch(branches: seq<SalonBranch>, users: seq<User>, userId: Id, branchId: int, name: string, serial: Id)
    ensures var added := BedRows(JoinOwned(branches, users, userId, branchId), name, serial);
            (forall k :: 0 <= k < |added| ==> IdIs(added[k].branchId, branchId) && added[k].name == Some(name)) &&
            (added != [] <==> exists j :: 0 <= j < |branches| && IdIs(branches[j].id, branchId) && OwnsBranch(users, userId, branches[j]))
  {
    JoinOwnedIff(branches, users, userId, branchId);
  }

  /** The WHERE clause of `DELETE_BED_QUERY`: the bed's branch is in one of the caller's salons. */
  function OwnedBed(users: seq<User>, branches: seq<SalonBranch>, userId: Id, bedId: int): BranchBed -> bool
  {
    (bed: BranchBed) => IdIs(bed.id, bedId) &&
      exists j :: 0 <= j < |branches| && SameNonNull(bed.branchId, branches[j].id) && OwnsBranch(users, userId, branches[j])
  }

  /**
   * `delete_bed`: removes the bed with that id when its branch is in the caller's salon;
   * when none is removed the failure is answered with BED_NOT_YOURS.
   */
  method DeleteBed(db: Db, claims: Claims, bedId: int) returns (out: Outcome<()>)
    modifies db`branchBeds
    ensures db.branchBeds == Table.DeleteWhere(old(db.branchBeds), OwnedBed(db.users, db.branches, claims.id, bedId))
    ensures out == if Table.CountWhere(old(db.branchBeds), OwnedBed(db.users, db.branches, claims.id, bedId)) == 0
                   then General(BadRequest, Some(BED_NOT_YOURS)) else General(OK, None)
  {
    var p := OwnedBed(db.users, db.branches, claims.id, bedId);
    var removed := Table.Where(db.branchBeds, p);
    db.branchBeds := Table.DeleteWhere(db.branchBeds, p);
    out := if removed == [] then General(BadRequest, Some(BED_NOT_YOURS)) else General(OK, None);
  }

  /**
   * `delete_bed` keeps every bed with another id or outside the caller's salons, removes
   * every matching one, and with no match changes nothing.
   */
  lemma DeleteBedRemovesOnlyOwned(users: seq<User>, branches: seq<SalonBranch>, beds: seq<BranchBed>, userId: Id, bedId: int)
    ensures var p := OwnedBed(users, branches, userId, bedId);
            var after := Table.DeleteWhere(beds, p);
            (forall k :: 0 <= k < |beds| && !p(beds[k]) ==> beds[k] in after) &&
            (forall k :: 0 <= k < |after| ==> !p(after[k])) &&
            (Table.CountWhere(beds, p) == 0 ==> after == beds)
  {
    var p := OwnedBed(users, branches, userId, bedId);
    if Table.CountWhere(beds, p) == 0 {
      forall k | 0 <= k < |beds|
        ensures !p(beds[k])
      {
      }
      Table.DeleteNoMatch(beds, p);
    }
  }
}
