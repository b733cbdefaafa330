// Signing up through PostgREST (src/service/account/sign_up.rs): the role is forced
// to CUSTOMER and the store's unique constraint decides whether the name is free.

module SignUp {
  import opened Common
  import opened Database
  import opened Claim
  import opened Store
  import PublicAccount

  datatype SignupInput = SignupInput(username: string, password: string, fullName: Option<string>,
                                     email: Option<string>, gender: Option<UserGender>)

  const USERNAME_EXISTED: string := "username already existed."

  /** The row the insert body describes: the client's fields, the hash, and the role CUSTOMER. */
  function CustomerRow(id: Id, input: SignupInput, passwordHash: string): User
  {
    User(Some(id), Some(input.username), Some(passwordHash), input.fullName, input.email, input.gender,
         Some(Customer), None, None, None, None, None)
  }

  /** The message of a refused insert: unique_violation is a taken name; anything else is the error's JSON. */
  function RefusalMessage(e: DbError, errorJson: DbError -> string): (m: string)
    ensures e.code == UNIQUE_VIOLATION ==> m == USERNAME_EXISTED
    ensures e.code != UNIQUE_VIOLATION ==> m == errorJson(e)
  {
    if e.code == UNIQUE_VIOLATION then USERNAME_EXISTED else errorJson(e)
  }

  /**
   * `sign_up`. `fault` is a failure of the insert other than the unique constraint;
   * `errorJson` serialises the store's error.
   */
  method SignUp(db: Db, input: SignupInput, hash: string -> Result<string>, fault: Option<DbError>,
                errorJson: DbError -> string, nowNanos: int, encode: Claims -> Result<string>)
    returns (out: Outcome<PublicAccount.AccountData>)
    modifies db`users, db`userSerial
    ensures hash(input.password).Failure? ==>
              out == General(BadRequest, Some(hash(input.password).error)) && db.users == old(db.users)
    ensures hash(input.password).Success? ==>
              var row := CustomerRow(old(db.userSerial), input, hash(input.password).value);
              match InsertUser(old(db.users), row, fault)
              case Refused(e) =>
                out == General(BadRequest, Some(RefusalMessage(e, errorJson))) && db.users == old(db.users)
              case Stored(rows) =>
                db.users == rows && db.userSerial == old(db.userSerial) + 1 &&
                out == (match CreateToken(row, nowNanos, encode)
                        case Failure(e) => General(BadRequest, Some(e))
                        case Success(token) =>
                          Ok(PublicAccount.AccountData(row.username, row.fullName, row.email, row.role, row.avatar, token)))
    ensures db.users == old(db.users) ==> db.userSerial == old(db.userSerial)
    ensures UniqueUsernames(old(db.users)) ==> UniqueUsernames(db.users)
  {
    var passwordHash := hash(input.password);
    if passwordHash.Failure? {
      return General(BadRequest, Some(passwordHash.error));
    }
    var row := CustomerRow(db.userSerial, input, passwordHash.value);
    var inserted := InsertUser(db.users, row, fault);
    if UniqueUsernames(db.users) {
      InsertKeepsUnique(db.users, row, fault);
    }
    if inserted.Refused? {
      return General(BadRequest, Some(RefusalMessage(inserted.error, errorJson)));
    }
    db.users := inserted.rows;
    db.userSerial := db.userSerial + 1;
    var token := CreateToken(row, nowNanos, encode);
    if token.Failure? {
      return General(BadRequest, Some(token.error));
    }
    out := Ok(PublicAccount.AccountData(row.username, row.fullName, row.email, row.role, row.avatar, token.value));
  }

  /**
   * Whatever the client sends, the stored account is a customer's, holds the hash and
   * not the password, and a taken name is refused with "username already existed.".
   */
  lemma SignUpDecisions(users: seq<User>, id: Id, input: SignupInput, passwordHash: string,
                        fault: Option<DbError>, errorJson: DbError -> string)
    ensures CustomerRow(id, input, passwordHash).role == Some(Customer)
    ensures CustomerRow(id, input, passwordHash).password == Some(passwordHash)
    ensures UsernameTaken(users, input.username) ==>
              var r := InsertUser(users, CustomerRow(id, input, passwordHash), fault);
              r.Refused? && RefusalMessage(r.error, errorJson) == USERNAME_EXISTED
    ensures !UsernameTaken(users, input.username) && fault.None? ==>
              InsertUser(users, CustomerRow(id, input, passwordHash), fault) == Stored(users + [CustomerRow(id, input, passwordHash)])
  {
  }
}
