// Signing up and signing in (src/router/public/account.rs). These handlers answer
// `Result<GeneralResponse, AppError>`: a `Failure` is the AppError's text, which
// is sent in a G0004 body. bcrypt and the token library are parameters.

module PublicAccount {
  import opened Common
  import opened Database
  import opened Claim
  import opened Store
  import Table
  import opened Response

  datatype SignupInput = SignupInput(username: string, password: string, fullName: Option<string>,
                                     email: Option<string>, gender: Option<UserGender>)

  /** The reply data of both handlers. */
  datatype AccountData = AccountData(username: Option<string>, fullName: Option<string>, email: Option<string>,
                                     role: Option<UserRole>, avatar: Option<string>, token: string)

  /** The `token` cookie: Path "/", Secure, HttpOnly. */
  function TokenCookie(token: string): Header
  {
    Header("set-cookie", SetCookie(Cookie("token", token, Some("/"), true, true)))
  }

  function NamedUser(username: string): User -> bool
  {
    (u: User) => u.username == Some(username)
  }

  /** The success reply for a user and its token. */
  function Welcome(user: User, token: string): GeneralResponse<AccountData>
  {
    New([TokenCookie(token)], "G0001", AccountData(user.username, user.fullName, user.email, user.role, user.avatar, token))
  }

  /**
   * The row `SIGN_UP_QUERY` stores: the name, the hash, the optional profile fields; every
   * other column takes its default (`defaultRole` for `role`, which the schema fixes and
   * this model does not see).
   */
  function SignUpRow(id: Id, input: SignupInput, passwordHash: string, defaultRole: Option<UserRole>): User
  {
    User(Some(id), Some(input.username), Some(passwordHash), input.fullName, input.email, input.gender,
         defaultRole, None, None, None, None, None)
  }

  /**
   * `sign_up`. A taken username is answered S0001 and nothing is stored. Otherwise the
   * user is stored with the hash of the password, and then a token is made for the
   * stored row; a failure to make it leaves the user stored.
   */
  method SignUp(db: Db, input: SignupInput, hash: string -> Result<string>, defaultRole: Option<UserRole>,
                insertFault: Option<string>, nowNanos: int, encode: Claims -> Result<string>)
    returns (out: Result<GeneralResponse<AccountData>>)
    modifies db`users, db`userSerial
    ensures UsernameTaken(old(db.users), input.username) ==>
              out == Success(NewGeneral("S0001")) && db.users == old(db.users) && db.userSerial == old(db.userSerial)
    ensures !UsernameTaken(old(db.users), input.username) && hash(input.password).Failure? ==>
              out == Failure(hash(input.password).error) && db.users == old(db.users)
    ensures !UsernameTaken(old(db.users), input.username) && hash(input.password).Success? && insertFault.Some? ==>
              out == Failure(insertFault.value) && db.users == old(db.users)
    ensures !UsernameTaken(old(db.users), input.username) && hash(input.password).Success? && insertFault.None? ==>
              var row := SignUpRow(old(db.userSerial), input, hash(input.password).value, defaultRole);
              db.users == old(db.users) + [row] && db.userSerial == old(db.userSerial) + 1 &&
              out == (match CreateToken(row, nowNanos, encode)
                      case Failure(e) => Failure(e)
                      case Success(token) => Success(Welcome(row, token)))
    ensures db.users == old(db.users) ==> db.userSerial == old(db.userSerial)
    ensures UniqueUsernames(old(db.users)) ==> UniqueUsernames(db.users)
  {
    var existing := Table.Where(db.users, NamedUser(input.username));
    if existing != [] {
      assert existing[0] in db.users;
      return Success(NewGeneral("S0001"));
    }
    Table.WhereEmpty(db.users, NamedUser(input.username));
    var passwordHash := hash(input.password);
    if passwordHash.Failure? {
      return Failure(passwordHash.error);
    }
    if insertFault.Some? {
      return Failure(insertFault.value);
    }
    var user := SignUpRow(db.userSerial, input, passwordHash.value, defaultRole);
    if UniqueUsernames(db.users) {
      AppendKeepsUnique(db.users, user);
    }
    db.users := db.users + [user];
    db.userSerial := db.userSerial + 1;
    var token := CreateToken(user, nowNanos, encode);
    if token.Failure? {
      return Failure(token.error);
    }
    out := Success(Welcome(user, token.value));
  }

  /**
   * `sign_in`. An unknown username is answered S0002 and a wrong password S0003, with
   * no token; a right one is answered G0001 with the token in the body and in the
   * `token` cookie. The stored user is the first with the name, a NULL password is
   * checked as "", and a failure of bcrypt or of the token library is passed on.
   */
  function SignIn(users: seq<User>, username: string, password: string,
                  verify: (string, string) -> Result<bool>, nowNanos: int, encode: Claims -> Result<string>)
    : (r: Result<GeneralResponse<AccountData>>)
    ensures !UsernameTaken(users, username) ==> r == Success(NewGeneral("S0002"))
    ensures var found := Table.FindFirst(users, NamedUser(username));
            found.Some? ==>
              match verify(password, found.value.password.GetOr(""))
              case Failure(e) => r == Failure(e)
              case Success(false) => r == Success(NewGeneral("S0003"))
              case Success(true) =>
                match CreateToken(found.value, nowNanos, encode)
                case Failure(e) => r == Failure(e)
                case Success(token) =>
                  r.Success? && r.value.header == [TokenCookie(token)] && r.value.body.messageCode == "G0001" &&
                  r.value.body.data == Some(AccountData(found.value.username, found.value.fullName, found.value.email,
                                                        found.value.role, found.value.avatar, token))
    ensures r.Success? && r.value.body.messageCode == "G0001" ==>
              exists i :: 0 <= i < |users| && users[i].username == Some(username) &&
                verify(password, users[i].password.GetOr("")) == Success(true)
  {
    match Table.FindFirst(users, NamedUser(username))
    case None => Success(NewGeneral("S0002"))
    case Some(user) =>
      match verify(password, user.password.GetOr(""))
      case Failure(e) => Failure(e)
      case Success(valid) =>
        if !valid then Success(NewGeneral("S0003"))
        else
          match CreateToken(user, nowNanos, encode)
          case Failure(e) => Failure(e)
          case Success(token) => Success(Welcome(user, token))
  }

  /**
   * Signing in right after signing up, with the same name and password, succeeds for
   * the new user: the name was free, so the new row is the one found, and the stored
   * hash verifies against the password.
   */
  lemma SignInAfterSignUp(users: seq<User>, id: Id, input: SignupInput, passwordHash: string,
                          defaultRole: Option<UserRole>, verify: (string, string) -> Result<bool>,
                          nowNanos: int, encode: Claims -> Result<string>)
    requires !UsernameTaken(users, input.username)
    requires verify(input.password, passwordHash) == Success(true)
    ensures var row := SignUpRow(id, input, passwordHash, defaultRole);
            SignIn(users + [row], input.username, input.password, verify, nowNanos, encode) ==
              match CreateToken(row, nowNanos, encode)
              case Failure(e) => Failure(e)
              case Success(token) => Success(Welcome(row, token))
  {
    var row := SignUpRow(id, input, passwordHash, defaultRole);
    var p := NamedUser(input.username);
    Table.WhereNone(users, p);
    Table.WhereAppend(users, [row], p);
    assert Table.Where([row], p) == [row];
    assert Table.Where(users + [row], p) == [row];
    assert (users + [row])[|users|] == row;
    assert Table.FindFirst(users + [row], p) == Some(row);
  }
}
