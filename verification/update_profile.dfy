// The signed-in user edits their own profile, PostgREST revision
// (src/service/account/update_profile.rs).

module UpdateProfile {
  import opened Common
  import opened Database
  import opened Claim
  import opened Store
  import Table
  import opened GeneralAccount

  /**
   * The JSON body. A field left out is not sent to the store (`skip_serializing_none`),
   * so its column keeps its value; `updated_at` is always sent, set to the request's time.
   */
  datatype ProfilePatch = ProfilePatch(username: Option<string>, fullName: Option<string>,
                                       dateOfBirth: Option<string>, email: Option<string>,
                                       gender: Option<UserGender>, avatar: Option<string>)

  /** The update PostgREST applies to the matched row. */
  function Patch(patch: ProfilePatch, now: Time): User -> User
  {
    (u: User) => u.(username := Coalesce(patch.username, u.username),
                    fullName := Coalesce(patch.fullName, u.fullName),
                    dateOfBirth := Coalesce(patch.dateOfBirth, u.dateOfBirth),
                    email := Coalesce(patch.email, u.email),
                    gender := Coalesce(patch.gender, u.gender),
                    avatar := Coalesce(patch.avatar, u.avatar),
                    updatedAt := Some(now))
  }

  /** The new username is held by a row other than the caller's: the unique constraint refuses it. */
  predicate NameClash(users: seq<User>, id: Id, patch: ProfilePatch)
  {
    patch.username.Some? &&
    exists i :: 0 <= i < |users| && !UserWithId(id)(users[i]) && users[i].username == patch.username
  }

  /** When the store refuses the update: `.single()` needs exactly one row, and the name must be free. */
  predicate Refused(users: seq<User>, id: Id, patch: ProfilePatch)
  {
    Table.CountWhere(users, UserWithId(id)) != 1 || NameClash(users, id, patch)
  }

  /**
   * `update_profile`: the caller's row is patched and returned without its password;
   * any refusal of the store is answered with INTERNAL_SERVER_ERROR and changes nothing.
   * `fault` is a refusal the model does not compute from the rows: the body's text
   * values are sent as they are, so a `date_of_birth` the `date` column cannot parse
   * (SQLSTATE 22007) is refused by the store.
   */
  method UpdateProfile(db: Db, claims: Claims, patch: ProfilePatch, now: Time, fault: bool)
    returns (out: Outcome<UserOutput>)
    modifies db`users
    ensures Refused(old(db.users), claims.id, patch) || fault ==>
              db.users == old(db.users) && out == General(InternalServerError, None)
    ensures !Refused(old(db.users), claims.id, patch) && !fault ==>
              db.users == Table.UpdateWhere(old(db.users), UserWithId(claims.id), Patch(patch, now)) &&
              out == Ok(ToOutput(Patch(patch, now)(Table.Where(old(db.users), UserWithId(claims.id))[0])))
  {
    if Refused(db.users, claims.id, patch) || fault {
      return General(InternalServerError, None);
    }
    var row := Table.Where(db.users, UserWithId(claims.id))[0];
    db.users := Table.UpdateWhere(db.users, UserWithId(claims.id), Patch(patch, now));
    out := Ok(ToOutput(Patch(patch, now)(row)));
  }

  /**
   * Each given field replaces its column, each missing one keeps it, the update time
   * is stamped, and the id, password, role, salon and creation time never change.
   */
  lemma PatchFields(patch: ProfilePatch, now: Time, u: User)
    ensures var v := Patch(patch, now)(u);
            (patch.username.Some? ==> v.username == patch.username) && (patch.username.None? ==> v.username == u.username) &&
            (patch.fullName.Some? ==> v.fullName == patch.fullName) && (patch.fullName.None? ==> v.fullName == u.fullName) &&
            (patch.dateOfBirth.Some? ==> v.dateOfBirth == patch.dateOfBirth) && (patch.dateOfBirth.None? ==> v.dateOfBirth == u.dateOfBirth) &&
            (patch.email.Some? ==> v.email == patch.email) && (patch.email.None? ==> v.email == u.email) &&
            (patch.gender.Some? ==> v.gender == patch.gender) && (patch.gender.None? ==> v.gender == u.gender) &&
            (patch.avatar.Some? ==> v.avatar == patch.avatar) && (patch.avatar.None? ==> v.avatar == u.avatar)
    ensures var v := Patch(patch, now)(u);
            v.updatedAt == Some(now) &&
            v.id == u.id && v.password == u.password && v.role == u.role && v.salonId == u.salonId && v.createdAt == u.createdAt
  {
  }

  /** An empty body only stamps the update time. */
  lemma EmptyPatchOnlyStamps(patch: ProfilePatch, now: Time, u: User)
    requires patch == ProfilePatch(None, None, None, None, None, None)
    ensures Patch(patch, now)(u) == u.(updatedAt := Some(now))
  {
  }

  /** Sending the same body twice at the same time leaves the table as sending it once. */
  lemma PatchIdempotent(users: seq<User>, id: Id, patch: ProfilePatch, now: Time)
    ensures var once := Table.UpdateWhere(users, UserWithId(id), Patch(patch, now));
            Table.UpdateWhere(once, UserWithId(id), Patch(patch, now)) == once
  {
    forall i | 0 <= i < |users| && UserWithId(id)(users[i])
      ensures Patch(patch, now)(Patch(patch, now)(users[i])) == Patch(patch, now)(users[i])
    {
    }
    Table.UpdateIdempotent(users, UserWithId(id), Patch(patch, now));
  }

  /** An update the store accepts keeps usernames unique. */
  lemma UpdateKeepsUnique(users: seq<User>, id: Id, patch: ProfilePatch, now: Time)
    requires UniqueUsernames(users)
    requires !Refused(users, id, patch)
    ensures UniqueUsernames(Table.UpdateWhere(users, UserWithId(id), Patch(patch, now)))
  {
    var p := UserWithId(id);
    var after := Table.UpdateWhere(users, p, Patch(patch, now));
    forall i, j | 0 <= i < j < |after| && after[i].username.Some?
      ensures after[i].username != after[j].username
    {
      if p(users[i]) && p(users[j]) {
        Table.TwoMatches(users, p, i, j);
      } else if p(users[i]) {
        if patch.username.None? {
          assert after[i].username == users[i].username;
        }
      } else if p(users[j]) {
        if patch.username.None? {
          assert after[j].username == users[j].username;
        }
      }
    }
  }
}
