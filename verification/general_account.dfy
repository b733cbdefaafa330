// The signed-in user's own profile, SQL revision (src/router/general/account.rs).
// These handlers answer `Result<GeneralResponse, AppError>`.

module GeneralAccount {
  import opened Common
  import opened Database
  import opened Claim
  import opened Store
  import Table
  import opened Response

  function UserWithId(id: Id): User -> bool
  {
    (u: User) => IdIs(u.id, id)
  }

  /** `get_profile`: the caller's row without its password; no row is the `fetch_one` error. */
  function GetProfile(users: seq<User>, claims: Claims): (r: Result<GeneralResponse<UserOutput>>)
    ensures r.Failure? <==> forall i :: 0 <= i < |users| ==> users[i].id != Some(claims.id)
    ensures r.Failure? ==> r.error == ROW_NOT_FOUND
    ensures r.Success? ==>
              r.value.body.messageCode == "G0001" &&
              exists i :: 0 <= i < |users| && users[i].id == Some(claims.id) && r.value.body.data == Some(ToOutput(users[i]))
  {
    match Table.FindFirst(users, UserWithId(claims.id))
    case None => Failure(ROW_NOT_FOUND)
    case Some(u) => Success(OkWithData(ToOutput(u)))
  }

  datatype UpdateUserProfileInput = UpdateUserProfileInput(fullName: Option<string>, dateOfBirth: Option<string>,
                                                           email: Option<string>, gender: Option<UserGender>,
                                                           avatar: Option<string>)

  /** `COALESCE($n, column)`: the given value, or the column's own when the parameter is NULL. */
  function Coalesce<T>(given: Option<T>, current: Option<T>): Option<T>
  {
    if given.Some? then given else current
  }

  /** The SET list of `UPDATE_PROFILE_QUERY`, applied to one row. */
  function ApplyProfile(input: UpdateUserProfileInput): User -> User
  {
    (u: User) => u.(fullName := Coalesce(input.fullName, u.fullName),
                    dateOfBirth := Coalesce(input.dateOfBirth, u.dateOfBirth),
                    email := Coalesce(input.email, u.email),
                    gender := Coalesce(input.gender, u.gender),
                    avatar := Coalesce(input.avatar, u.avatar))
  }

  /**
   * `update_profile`. `refusal` is the server's refusal of the statement, if any (for
   * instance `COALESCE($2, date_of_birth)` when that column is not text, since the
   * date is bound as text): then nothing changes and the reply is the database error.
   * Otherwise the UPDATE, which has no RETURNING clause, stands, and `fetch_one` finds
   * no row to return, so the handler answers with that error. This is the behaviour
   * as written: every call is answered with an error, even when its update stands (an
   * `UPDATE ... RETURNING *` would answer the updated row).
   */
  method UpdateProfile(db: Db, claims: Claims, input: UpdateUserProfileInput, refusal: Option<string>)
    returns (out: Result<GeneralResponse<UserOutput>>)
    modifies db`users
    ensures refusal.Some? ==> db.users == old(db.users) && out == Failure(DATABASE_ERROR_PREFIX + refusal.value)
    ensures refusal.None? ==>
              db.users == Table.UpdateWhere(old(db.users), UserWithId(claims.id), ApplyProfile(input)) &&
              out == Failure(ROW_NOT_FOUND)
  {
    if refusal.Some? {
      return Failure(DATABASE_ERROR_PREFIX + refusal.value);
    }
    db.users := Table.UpdateWhere(db.users, UserWithId(claims.id), ApplyProfile(input));
    out := Failure(ROW_NOT_FOUND);
  }

  /**
   * Each profile column becomes the given value when one is given and keeps its value
   * otherwise; the name, password, role, salon and timestamps are never touched.
   */
  lemma ApplyProfileFields(input: UpdateUserProfileInput, u: User)
    ensures var v := ApplyProfile(input)(u);
            (input.fullName.Some? ==> v.fullName == input.fullName) && (input.fullName.None? ==> v.fullName == u.fullName) &&
            (input.dateOfBirth.Some? ==> v.dateOfBirth == input.dateOfBirth) && (input.dateOfBirth.None? ==> v.dateOfBirth == u.dateOfBirth) &&
            (input.email.Some? ==> v.email == input.email) && (input.email.None? ==> v.email == u.email) &&
            (input.gender.Some? ==> v.gender == input.gender) && (input.gender.None? ==> v.gender == u.gender) &&
            (input.avatar.Some? ==> v.avatar == input.avatar) && (input.avatar.None? ==> v.avatar == u.avatar)
    ensures var v := ApplyProfile(input)(u);
            v.id == u.id && v.username == u.username && v.password == u.password && v.role == u.role &&
            v.salonId == u.salonId && v.createdAt == u.createdAt && v.updatedAt == u.updatedAt
  {
  }

  /** Sending the same profile twice leaves the table as sending it once. */
  lemma UpdateProfileIdempotent(users: seq<User>, id: Id, input: UpdateUserProfileInput)
    ensures var once := Table.UpdateWhere(users, UserWithId(id), ApplyProfile(input));
            Table.UpdateWhere(once, UserWithId(id), ApplyProfile(input)) == once
  {
    forall i | 0 <= i < |users| && UserWithId(id)(users[i])
      ensures ApplyProfile(input)(ApplyProfile(input)(users[i])) == ApplyProfile(input)(users[i])
    {
    }
    Table.UpdateIdempotent(users, UserWithId(id), ApplyProfile(input));
  }

  /** A profile with no field given changes nothing. */
  lemma EmptyProfileChangesNothing(users: seq<User>, id: Id, input: UpdateUserProfileInput)
    requires input == UpdateUserProfileInput(None, None, None, None, None)
    ensures Table.UpdateWhere(users, UserWithId(id), ApplyProfile(input)) == users
  {
    var after := Table.UpdateWhere(users, UserWithId(id), ApplyProfile(input));
    forall i | 0 <= i < |users|
      ensures after[i] == users[i]
    {
    }
  }
}
