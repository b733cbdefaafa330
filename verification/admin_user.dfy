// The administrator's user endpoints of the SQL revision (src/router/admin/user.rs).
// These handlers answer `Result<GeneralResponse, AppError>`: a `Failure` is the
// AppError's text, which is sent in a G0004 body.

module AdminUser {
  import opened Common
  import opened Database
  import opened Claim
  import opened Store
  import Table
  import opened Query
  import opened Response
  import Layer

  /** The reply data of `list_user`: `total` is NULL when the page is empty. */
  datatype UserPage = UserPage(users: seq<UserOutput>, total: Option<int>)

  function IdKey(u: User): SortKey
  {
    if u.id.Some? then Key(u.id.value) else Null
  }

  /** `ORDER BY id OFFSET $1 LIMIT $2`. */
  function UserListing(users: seq<User>, offset: Option<int>, limit: Option<int>): Result<seq<User>>
  {
    BoundOffsetLimit(OrderBy(users, IdKey, Asc), offset, limit)
  }

  /** A page of the listing is ordered by id and holds stored users only. */
  lemma UserListingOrdered(users: seq<User>, offset: Option<int>, limit: Option<int>)
    ensures var r := UserListing(users, offset, limit);
            r.Success? ==>
              (forall i :: 0 <= i < |r.value| ==> r.value[i] in users) &&
              forall i, j :: 0 <= i < j < |r.value| ==> KeyLe(IdKey(r.value[i]), IdKey(r.value[j]))
  {
    OrderedWindow(users, IdKey, Asc, offset, limit);
  }

  /** `list_user`: the page as `UserOutput`s, and the window count of all users from the first row. */
  method ListUser(db: Db, offset: Option<int>, limit: Option<int>) returns (out: Result<GeneralResponse<UserPage>>)
    ensures var page := UserListing(db.users, offset, limit);
            page.Failure? ==> out == Failure(DATABASE_ERROR_PREFIX + page.error)
    ensures var page := UserListing(db.users, offset, limit);
            page.Success? ==>
              out.Success? && out.value.body.messageCode == "G0001" && out.value.body.data.Some? &&
              var data := out.value.body.data.value;
              |data.users| == |page.value| &&
              (forall i :: 0 <= i < |page.value| ==> data.users[i] == ToOutput(page.value[i])) &&
              data.total == if page.value == [] then None else Some(|db.users|)
  {
    var page := UserListing(db.users, offset, limit);
    if page.Failure? {
      return Failure(DATABASE_ERROR_PREFIX + page.error);
    }
    var items, total := CollectWithTotal(WithTotal(page.value, |db.users|), ToOutput);
    out := Success(OkWithData(UserPage(items, total)));
  }

  const ROLE_MUST_BE_CUSTOMER: string := "User role must be customer!"

  function UserWithId(userId: int): User -> bool
  {
    (u: User) => IdIs(u.id, userId)
  }

  /** `INSERT INTO salons DEFAULT VALUES`: only the id is given; no owner column is set. */
  function DefaultSalon(id: Id): Salon
  {
    Salon(Some(id), None, None, None, None, None, None, None, None, None, None)
  }

  /** `SET salon_id = (SELECT id FROM salon), role = 'SALON_OWNER'`. */
  function MakeOwner(salonId: Id): User -> User
  {
    (u: User) => u.(salonId := Some(salonId), role := Some(SalonOwner))
  }

  /** Only an account without a role or a customer may become a salon owner. */
  predicate MayBecomeOwner(role: Option<UserRole>)
  {
    role.None? || role == Some(Customer)
  }

  /**
   * `customer_to_salon_owner`. The user is looked up first (an unknown id is the
   * `fetch_one` error and changes nothing); a user with another role is answered with
   * the G0004 reply; otherwise one salon is created and the user row points to it with
   * the role SALON_OWNER.
   */
  method CustomerToSalonOwner(db: Db, userId: int) returns (out: Result<GeneralResponse<UserOutput>>)
    modifies db`users, db`salons, db`salonSerial
    ensures var found := Table.FindFirst(old(db.users), UserWithId(userId));
            found.None? ==>
              out == Failure(ROW_NOT_FOUND) && db.users == old(db.users) && db.salons == old(db.salons)
              && db.salonSerial == old(db.salonSerial)
    ensures var found := Table.FindFirst(old(db.users), UserWithId(userId));
            found.Some? && !MayBecomeOwner(found.value.role) ==>
              out == Success(NewError(ROLE_MUST_BE_CUSTOMER)) && db.users == old(db.users)
              && db.salons == old(db.salons) && db.salonSerial == old(db.salonSerial)
    ensures var found := Table.FindFirst(old(db.users), UserWithId(userId));
            found.Some? && MayBecomeOwner(found.value.role) ==>
              var sid := old(db.salonSerial);
              db.salons == old(db.salons) + [DefaultSalon(sid)] && db.salonSerial == sid + 1 &&
              db.users == Table.UpdateWhere(old(db.users), UserWithId(userId), MakeOwner(sid)) &&
              out == Success(OkWithData(ToOutput(MakeOwner(sid)(found.value))))
  {
    var found := Table.FindFirst(db.users, UserWithId(userId));
    if found.None? {
      return Failure(ROW_NOT_FOUND);
    }
    if found.value.role.Some? && found.value.role.value != Customer {
      return Success(NewError(ROLE_MUST_BE_CUSTOMER));
    }
    var sid := db.salonSerial;
    db.salons := db.salons + [DefaultSalon(sid)];
    db.salonSerial := db.salonSerial + 1;
    db.users := Table.UpdateWhere(db.users, UserWithId(userId), MakeOwner(sid));
    out := Success(OkWithData(ToOutput(MakeOwner(sid)(found.value))));
  }

  /**
   * The promotion changes the rows with that id, in their salon and role only, and no
   * other row.
   */
  lemma PromotionTouchesOnlyTheUser(users: seq<User>, userId: int, sid: Id, i: nat)
    requires i < |users|
    ensures var after := Table.UpdateWhere(users, UserWithId(userId), MakeOwner(sid));
            |after| == |users| &&
            (!IdIs(users[i].id, userId) ==> after[i] == users[i]) &&
            (IdIs(users[i].id, userId) ==>
               after[i].role == Some(SalonOwner) && after[i].salonId == Some(sid) &&
               after[i].(role := users[i].role, salonId := users[i].salonId) == users[i])
  {
  }

  /**
   * Once promoted, the account opens the salon-owner gate: a request whose token names
   * it is authenticated with the stored role SALON_OWNER. A second promotion is refused.
   */
  lemma PromotedUserIsOwner(users: seq<User>, userId: Id, sid: Id, authorization: Option<string>,
                            cookieToken: Option<string>, decode: string -> Result<Claims>, c: Claims)
    requires Layer.Authenticate(Table.UpdateWhere(users, UserWithId(userId), MakeOwner(sid)),
                                authorization, cookieToken, decode) == Ok(c)
    requires c.id == userId
    ensures Layer.SalonOwnerLayer(c) == Ok(c)
    ensures var after := Table.UpdateWhere(users, UserWithId(userId), MakeOwner(sid));
            Table.FindFirst(after, UserWithId(userId)).Some? &&
            !MayBecomeOwner(Table.FindFirst(after, UserWithId(userId)).value.role)
  {
    var after := Table.UpdateWhere(users, UserWithId(userId), MakeOwner(sid));
    Layer.AuthenticateIff(after, authorization, cookieToken, decode, c);
    var token, i :| Layer.SelectToken(authorization, cookieToken) == Some(token)
      && decode(token).Success? && 0 <= i < |after| && Layer.TokenUser(decode(token).value)(after[i])
      && c == decode(token).value.(role := after[i].role);
    assert UserWithId(userId)(users[i]);
    PromotedRowIsOwner(users, userId, sid, i);
  }

  /** After the promotion of a stored user, the first row with the id is a salon owner. */
  lemma PromotedRowIsOwner(users: seq<User>, userId: Id, sid: Id, i: nat)
    requires i < |users| && UserWithId(userId)(users[i])
    ensures var found := Table.FindFirst(Table.UpdateWhere(users, UserWithId(userId), MakeOwner(sid)), UserWithId(userId));
            found.Some? && found.value.role == Some(SalonOwner)
  {
    var p := UserWithId(userId);
    var after := Table.UpdateWhere(users, p, MakeOwner(sid));
    assert p(after[i]);
    var found := Table.FindFirst(after, p);
    var k :| 0 <= k < |after| && after[k] == found.value;
    assert p(users[k]) && after[k] == MakeOwner(sid)(users[k]);
  }
}
