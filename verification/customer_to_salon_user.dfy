// A customer turns their own account into a salon user's
// (src/service/account/customer_to_salon_user.rs).

module CustomerToSalonUser {
  import opened Common
  import opened Database
  import opened Claim
  import opened Store
  import Table
  import PublicAccount
  import opened GeneralAccount

  const NOT_CUSTOMER: string := "This account is not customer role."

  /** `.update({"role": "SALON_USER"})`: only the role changes. */
  function MakeSalonUser(u: User): User
  {
    u.(role := Some(SalonUser))
  }

  /** The guard as written: the role carried by the request's claims. */
  predicate ClaimsAreCustomer(claims: Claims)
  {
    claims.role == Some(Customer)
  }

  /**
   * The update and the reply both versions share: with `.single()` the update stands
   * only when exactly one row has the caller's id; the reply carries a fresh token for
   * the updated row.
   */
  method Promote(db: Db, claims: Claims, nowNanos: int, encode: Claims -> Result<string>)
    returns (out: Outcome<PublicAccount.AccountData>)
    modifies db`users
    ensures Table.CountWhere(old(db.users), UserWithId(claims.id)) != 1 ==>
              db.users == old(db.users) && out == General(InternalServerError, None)
    ensures Table.CountWhere(old(db.users), UserWithId(claims.id)) == 1 ==>
              var row := MakeSalonUser(Table.Where(old(db.users), UserWithId(claims.id))[0]);
              db.users == Table.UpdateWhere(old(db.users), UserWithId(claims.id), MakeSalonUser) &&
              out == (match CreateToken(row, nowNanos, encode)
                      case Failure(e) => General(BadRequest, Some(e))
                      case Success(token) =>
                        Ok(PublicAccount.AccountData(row.username, row.fullName, row.email, row.role, row.avatar, token)))
  {
    var matched := Table.Where(db.users, UserWithId(claims.id));
    if |matched| != 1 {
      return General(InternalServerError, None);
    }
    db.users := Table.UpdateWhere(db.users, UserWithId(claims.id), MakeSalonUser);
    var row := MakeSalonUser(matched[0]);
    var token := CreateToken(row, nowNanos, encode);
    if token.Failure? {
      return General(BadRequest, Some(token.error));
    }
    out := Ok(PublicAccount.AccountData(row.username, row.fullName, row.email, row.role, row.avatar, token.value));
  }

  /** `customer_to_salon_user` as written: the claims' role must be CUSTOMER. */
  method CustomerToSalonUser(db: Db, claims: Claims, nowNanos: int, encode: Claims -> Result<string>)
    returns (out: Outcome<PublicAccount.AccountData>)
    modifies db`users
    ensures !ClaimsAreCustomer(claims) ==> db.users == old(db.users) && out == General(BadRequest, Some(NOT_CUSTOMER))
    ensures ClaimsAreCustomer(claims) && Table.CountWhere(old(db.users), UserWithId(claims.id)) == 1 ==>
              db.users == Table.UpdateWhere(old(db.users), UserWithId(claims.id), MakeSalonUser) && !out.Crash?
    ensures ClaimsAreCustomer(claims) && Table.CountWhere(old(db.users), UserWithId(claims.id)) != 1 ==>
              db.users == old(db.users) && out == General(InternalServerError, None)
  {
    if !ClaimsAreCustomer(claims) {
      return General(BadRequest, Some(NOT_CUSTOMER));
    }
    out := Promote(db, claims, nowNanos, encode);
  }

  /**
   * The discrepancy: the claims reach the handler straight from the token, and every
   * token this server issues carries no role, so the guard refuses every one of them.
   */
  lemma IssuedTokensAreRefused(user: User, nowNanos: int)
    requires BuildClaims(user, nowNanos).Success?
    ensures !ClaimsAreCustomer(BuildClaims(user, nowNanos).value)
  {
  }

  /** The intended guard: the role the store holds for the caller's account is CUSTOMER. */
  predicate StoredCustomer(users: seq<User>, claims: Claims)
  {
    var found := Table.FindFirst(users, UserWithId(claims.id));
    found.Some? && found.value.role == Some(Customer)
  }

  /** `customer_to_salon_user` with the role read from the store. */
  method CustomerToSalonUserChecked(db: Db, claims: Claims, nowNanos: int, encode: Claims -> Result<string>)
    returns (out: Outcome<PublicAccount.AccountData>)
    modifies db`users
    ensures !StoredCustomer(old(db.users), claims) ==> db.users == old(db.users) && out == General(BadRequest, Some(NOT_CUSTOMER))
    ensures StoredCustomer(old(db.users), claims) && Table.CountWhere(old(db.users), UserWithId(claims.id)) == 1 ==>
              db.users == Table.UpdateWhere(old(db.users), UserWithId(claims.id), MakeSalonUser) && !out.Crash?
  {
    if !StoredCustomer(db.users, claims) {
      return General(BadRequest, Some(NOT_CUSTOMER));
    }
    out := Promote(db, claims, nowNanos, encode);
  }

  /**
   * With the stored role, a customer holding a token this server issued is admitted,
   * and once promoted the same account is refused a second time.
   */
  lemma StoredCustomerIsPromotedOnce(users: seq<User>, user: User, nowNanos: int)
    requires user in users && user.role == Some(Customer)
    requires BuildClaims(user, nowNanos).Success?
    requires Table.CountWhere(users, UserWithId(BuildClaims(user, nowNanos).value.id)) == 1
    ensures var claims := BuildClaims(user, nowNanos).value;
            StoredCustomer(users, claims) &&
            !StoredCustomer(Table.UpdateWhere(users, UserWithId(claims.id), MakeSalonUser), claims)
  {
    var claims := BuildClaims(user, nowNanos).value;
    Table.SingleMatch(users, UserWithId(claims.id), user);
    PromotedRowIsSalonUser(users, claims.id);
  }

  /** After the update, the first row with the id is a salon user. */
  lemma PromotedRowIsSalonUser(users: seq<User>, id: Id)
    ensures var found := Table.FindFirst(Table.UpdateWhere(users, UserWithId(id), MakeSalonUser), UserWithId(id));
            found.Some? ==> found.value.role == Some(SalonUser)
  {
    var p := UserWithId(id);
    var after := Table.UpdateWhere(users, p, MakeSalonUser);
    var found := Table.FindFirst(after, p);
    if found.Some? {
      var k :| 0 <= k < |after| && after[k] == found.value;
      assert p(users[k]) && after[k] == MakeSalonUser(users[k]);
    }
  }
}
