// A salon owner adds and removes the branches of their salon, SQL revision
// (src/router/salon_owner/salon_branch.rs).

module SalonOwnerBranch {
  import opened Common
  import opened Database
  import opened Claim
  import opened Store
  import Table
  import opened GeneralAccount

  /**
   * The rows `INSERT INTO salon_branches (salon_id, address) SELECT users.salon_id, $1
   * FROM users WHERE users.id = $2` adds: one per selected user, numbered from `serial`.
   */
  function BranchRows(owners: seq<User>, address: string, serial: Id): (r: seq<SalonBranch>)
    ensures |r| == |owners|
    ensures forall k :: 0 <= k < |r| ==> r[k] == SalonBranch(Some(serial + k), owners[k].salonId, Some(address))
    decreases |owners|
  {
    if owners == [] then []
    else [SalonBranch(Some(serial), owners[0].salonId, Some(address))] + BranchRows(owners[1..], address, serial + 1)
  }

  /**
   * `add_branch`: the new branch is put in the caller's salon, with the given address,
   * and returned; when no user row is selected nothing is inserted and `fetch_one` fails.
   */
  method AddBranch(db: Db, claims: Claims, address: string) returns (out: Outcome<SalonBranch>)
    modifies db`branches, db`branchSerial
    ensures var owners := Table.Where(old(db.users), UserWithId(claims.id));
            var added := BranchRows(owners, address, old(db.branchSerial));
            db.branches == old(db.branches) + added && db.branchSerial == old(db.branchSerial) + |owners| &&
            out == if owners == [] then General(BadRequest, Some(ROW_NOT_FOUND)) else Ok(added[0])
  {
    var owners := Table.Where(db.users, UserWithId(claims.id));
    var added := BranchRows(owners, address, db.branchSerial);
    db.branches := db.branches + added;
    db.branchSerial := db.branchSerial + |owners|;
    out := if owners == [] then General(BadRequest, Some(ROW_NOT_FOUND)) else Ok(added[0]);
  }

  /**
   * For the signed-in user (one row with their id), `add_branch` adds exactly one branch:
   * in the caller's salon, at the given address, with a fresh id.
   */
  lemma AddBranchStampsCallerSalon(users: seq<User>, caller: User, address: string, serial: Id)
    requires caller in users && caller.id.Some?
    requires Table.CountWhere(users, UserWithId(caller.id.value)) == 1
    ensures BranchRows(Table.Where(users, UserWithId(caller.id.value)), address, serial) ==
            [SalonBranch(Some(serial), caller.salonId, Some(address))]
  {
    var owners := Table.Where(users, UserWithId(caller.id.value));
    Table.SingleMatch(users, UserWithId(caller.id.value), caller);
  }

  /** The caller has a user row whose salon is the branch's salon (`users.salon_id = salon_branches.salon_id`). */
  predicate OwnsBranch(users: seq<User>, userId: Id, b: SalonBranch)
  {
    exists i :: 0 <= i < |users| && IdIs(users[i].id, userId) && SameNonNull(users[i].salonId, b.salonId)
  }

  /** The WHERE clause of `DELETE_BRANCH_QUERY`. */
  function OwnedBranch(users: seq<User>, userId: Id, branchId: int): SalonBranch -> bool
  {
    (b: SalonBranch) => IdIs(b.id, branchId) && OwnsBranch(users, userId, b)
  }

  /**
   * `delete_branch`: removes the branch with that id when it is in the caller's salon;
   * when none is removed `fetch_one` fails.
   */
  method DeleteBranch(db: Db, claims: Claims, branchId: int) returns (out: Outcome<()>)
    modifies db`branches
    ensures db.branches == Table.DeleteWhere(old(db.branches), OwnedBranch(db.users, claims.id, branchId))
    ensures out == if Table.CountWhere(old(db.branches), OwnedBranch(db.users, claims.id, branchId)) == 0
                   then General(BadRequest, Some(ROW_NOT_FOUND)) else General(OK, None)
  {
    var removed := Table.Where(db.branches, OwnedBranch(db.users, claims.id, branchId));
    db.branches := Table.DeleteWhere(db.branches, OwnedBranch(db.users, claims.id, branchId));
    out := if removed == [] then General(BadRequest, Some(ROW_NOT_FOUND)) else General(OK, None);
  }

  /**
   * What `delete_branch` removes is exactly the branches with that id in the caller's
   * salon; every other branch stays, and with no such branch nothing changes.
   */
  lemma DeleteBranchRemovesOnlyOwned(users: seq<User>, branches: seq<SalonBranch>, userId: Id, branchId: int)
    ensures var p := OwnedBranch(users, userId, branchId);
            var after := Table.DeleteWhere(branches, p);
            (forall k :: 0 <= k < |branches| && (!IdIs(branches[k].id, branchId) || !OwnsBranch(users, userId, branches[k])) ==>
               branches[k] in after) &&
            (forall k :: 0 <= k < |after| ==> !IdIs(after[k].id, branchId) || !OwnsBranch(users, userId, after[k])) &&
            (Table.CountWhere(branches, p) == 0 ==> after == branches)
  {
    var p := OwnedBranch(users, userId, branchId);
    if Table.CountWhere(branches, p) == 0 {
      forall k | 0 <= k < |branches|
        ensures !p(branches[k])
      {
      }
      Table.DeleteNoMatch(branches, p);
    }
  }
}
