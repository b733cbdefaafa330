// An administrator creates a salon user (src/service/user/admin/create_salon_user.rs).

module CreateSalonUser {
  import opened Common
  import opened Database
  import opened Store

  datatype CreateSalonUserInput = CreateSalonUserInput(username: string, password: string,
                                                       email: Option<string>, gender: Option<UserGender>)

  /** The row the insert body describes: the client's fields, the hash, and the role SALON_USER. */
  function SalonUserRow(id: Id, input: CreateSalonUserInput, passwordHash: string): User
  {
    User(Some(id), Some(input.username), Some(passwordHash), None, input.email, input.gender,
         Some(SalonUser), None, None, None, None, None)
  }

  /**
   * `create_salon_user`. A refused insert is answered with the store's reply text
   * (`errorText`); a stored one with the user as `UserOutput`, without the password.
   */
  method CreateSalonUser(db: Db, input: CreateSalonUserInput, hash: string -> Result<string>,
                         fault: Option<DbError>, errorText: DbError -> string)
    returns (out: Outcome<UserOutput>)
    modifies db`users, db`userSerial
    ensures hash(input.password).Failure? ==>
              out == General(BadRequest, Some(hash(input.password).error)) && db.users == old(db.users)
    ensures hash(input.password).Success? ==>
              var row := SalonUserRow(old(db.userSerial), input, hash(input.password).value);
              match InsertUser(old(db.users), row, fault)
              case Refused(e) => out == General(BadRequest, Some(errorText(e))) && db.users == old(db.users)
              case Stored(rows) => db.users == rows && db.userSerial == old(db.userSerial) + 1 && out == Ok(ToOutput(row))
    ensures db.users == old(db.users) ==> db.userSerial == old(db.userSerial)
    ensures UniqueUsernames(old(db.users)) ==> UniqueUsernames(db.users)
  {
    var passwordHash := hash(input.password);
    if passwordHash.Failure? {
      return General(BadRequest, Some(passwordHash.error));
    }
    var row := SalonUserRow(db.userSerial, input, passwordHash.value);
    var inserted := InsertUser(db.users, row, fault);
    if UniqueUsernames(db.users) {
      InsertKeepsUnique(db.users, row, fault);
    }
    if inserted.Refused? {
      return General(BadRequest, Some(errorText(inserted.error)));
    }
    db.users := inserted.rows;
    db.userSerial := db.userSerial + 1;
    out := Ok(ToOutput(row));
  }

  /**
   * The created account is a salon user's and stores the hash; the reply shows the same
   * account whatever password was hashed, so it gives nothing of it away.
   */
  lemma CreatedSalonUser(id: Id, input: CreateSalonUserInput, hash1: string, hash2: string)
    ensures SalonUserRow(id, input, hash1).role == Some(SalonUser)
    ensures SalonUserRow(id, input, hash1).password == Some(hash1)
    ensures ToOutput(SalonUserRow(id, input, hash1)) == ToOutput(SalonUserRow(id, input, hash2))
    ensures ToOutput(SalonUserRow(id, input, hash1)).role == Some(SalonUser)
  {
  }
}
