// An administrator deletes an account (src/service/user/admin/delete_user.rs).

module DeleteUser {
  import opened Common
  import opened Database
  import opened Store
  import Table

  const USER_ID_INVALID: string := "user_id is invalid!"

  /**
   * `.eq("id", user_id).or("role.eq.SALON_USER, role.eq.CUSTOMER")`: the filter compares
   * the stored role text with the display texts of the two roles.
   */
  function Deletable(userId: Id): User -> bool
  {
    (u: User) => IdIs(u.id, userId) && u.role.Some? &&
                 (RoleText(u.role.value) == RoleText(SalonUser) || RoleText(u.role.value) == RoleText(Customer))
  }

  /** Exactly salon users and customers with the id can be deleted; an administrator or a salon owner never. */
  lemma DeletableIff(userId: Id, u: User)
    ensures Deletable(userId)(u) <==> u.id == Some(userId) && (u.role == Some(SalonUser) || u.role == Some(Customer))
  {
    if u.role.Some? {
      RoleTextInjective(u.role.value, SalonUser);
      RoleTextInjective(u.role.value, Customer);
    }
  }

  /**
   * `delete_user`. With `.single()` the delete stands only when it matched exactly one
   * row, which is answered (the whole row); otherwise nothing is deleted.
   */
  method DeleteUser(db: Db, userId: Id) returns (out: Outcome<User>)
    modifies db`users
    ensures Table.CountWhere(old(db.users), Deletable(userId)) == 1 ==>
              db.users == Table.DeleteWhere(old(db.users), Deletable(userId)) &&
              out == Ok(Table.Where(old(db.users), Deletable(userId))[0])
    ensures Table.CountWhere(old(db.users), Deletable(userId)) != 1 ==>
              db.users == old(db.users) && out == General(BadRequest, Some(USER_ID_INVALID))
  {
    var matched := Table.Where(db.users, Deletable(userId));
    if |matched| != 1 {
      return General(BadRequest, Some(USER_ID_INVALID));
    }
    db.users := Table.DeleteWhere(db.users, Deletable(userId));
    out := Ok(matched[0]);
  }

  /**
   * A successful delete removes exactly the one deletable row: every other account,
   * administrators included, stays.
   */
  lemma DeleteRemovesOnlyTarget(users: seq<User>, userId: Id)
    requires Table.CountWhere(users, Deletable(userId)) == 1
    ensures var gone := Table.Where(users, Deletable(userId))[0];
            multiset(Table.DeleteWhere(users, Deletable(userId))) + multiset{gone} == multiset(users) &&
            gone.id == Some(userId) && gone.role != Some(Admin)
  {
    var matched := Table.Where(users, Deletable(userId));
    assert matched == [matched[0]];
    Table.DeleteWhereSplits(users, Deletable(userId));
    DeletableIff(userId, matched[0]);
  }

  /** No delete ever removes an administrator. */
  lemma DeleteKeepsAdmins(users: seq<User>, userId: Id)
    ensures forall i :: 0 <= i < |users| && users[i].role == Some(Admin) ==>
              users[i] in Table.DeleteWhere(users, Deletable(userId))
  {
    forall i | 0 <= i < |users| && users[i].role == Some(Admin)
      ensures users[i] in Table.DeleteWhere(users, Deletable(userId))
    {
      DeletableIff(userId, users[i]);
    }
  }
}
