// The PostgreSQL database behind both the PostgREST client and the SQL pool:
// one table per field, each with the sequence that numbers its new rows.

module Store {
  import opened Common
  import opened Database

  class Db {
    var users: seq<User>
    var userSerial: Id
    var salons: seq<Salon>
    var salonSerial: Id
    var medias: seq<SalonMedia>
    var mediaSerial: Id
    var salonBeds: seq<SalonBed>
    var salonBedSerial: Id
    var reservations: seq<Reservation>
    var reservationSerial: Id
    // Tables of the revision the SQL handlers query.
    var branches: seq<SalonBranch>
    var branchSerial: Id
    var branchBeds: seq<BranchBed>
    var branchBedSerial: Id
    var therapies: seq<Therapy>
    var therapySerial: Id
    var branchReservations: seq<BranchReservation>
    var branchReservationSerial: Id

    /** An empty database; every sequence starts at 1. */
    constructor ()
      ensures users == [] && salons == [] && medias == [] && salonBeds == [] && reservations == []
      ensures branches == [] && branchBeds == [] && therapies == [] && branchReservations == []
      ensures userSerial == salonSerial == mediaSerial == salonBedSerial == reservationSerial == 1
      ensures branchSerial == branchBedSerial == therapySerial == branchReservationSerial == 1
    {
      users, salons, medias, salonBeds, reservations := [], [], [], [], [];
      branches, branchBeds, therapies, branchReservations := [], [], [], [];
      userSerial, salonSerial, mediaSerial, salonBedSerial, reservationSerial := 1, 1, 1, 1, 1;
      branchSerial, branchBedSerial, therapySerial, branchReservationSerial := 1, 1, 1, 1;
    }
  }

  /** An error reported by the store through PostgREST: a PostgreSQL error code and its texts. */
  datatype DbError = DbError(code: string, details: Option<string>, hint: Option<string>, message: Option<string>)

  /** PostgreSQL's unique_violation. */
  const UNIQUE_VIOLATION: string := "23505"

  /** The error the unique constraint on `users.username` raises (the texts PostgreSQL adds are not modelled). */
  const USERNAME_TAKEN: DbError := DbError(UNIQUE_VIOLATION, None, None, None)

  predicate UsernameTaken(users: seq<User>, name: string)
  {
    exists i :: 0 <= i < |users| && users[i].username == Some(name)
  }

  /** No two stored users share a username (what the unique constraint keeps). */
  ghost predicate UniqueUsernames(users: seq<User>)
  {
    forall i, j :: 0 <= i < j < |users| && users[i].username.Some? ==> users[i].username != users[j].username
  }

  /** Appending a user whose name is not taken keeps usernames unique. */
  lemma AppendKeepsUnique(users: seq<User>, u: User)
    requires UniqueUsernames(users)
    requires u.username.Some? ==> !UsernameTaken(users, u.username.value)
    ensures UniqueUsernames(users + [u])
  {
  }

  /** What an insert through PostgREST gives: the table with the new row, or the store's error. */
  datatype Inserted<T> = Stored(rows: seq<T>) | Refused(error: DbError)

  /**
   * Inserting a user: the unique constraint on `username` refuses a taken name;
   * `fault` is any other failure of the store.
   */
  function InsertUser(users: seq<User>, row: User, fault: Option<DbError>): (r: Inserted<User>)
    ensures row.username.Some? && UsernameTaken(users, row.username.value) ==> r == Refused(USERNAME_TAKEN)
    ensures r.Refused? <==> (row.username.Some? && UsernameTaken(users, row.username.value)) || fault.Some?
    ensures r.Stored? ==> r.rows == users + [row]
  {
    if row.username.Some? && UsernameTaken(users, row.username.value) then Refused(USERNAME_TAKEN)
    else if fault.Some? then Refused(fault.value)
    else Stored(users + [row])
  }

  /** The unique constraint keeps usernames unique, whatever is inserted. */
  lemma InsertKeepsUnique(users: seq<User>, row: User, fault: Option<DbError>)
    requires UniqueUsernames(users)
    ensures InsertUser(users, row, fault).Stored? ==> UniqueUsernames(InsertUser(users, row, fault).rows)
  {
    if InsertUser(users, row, fault).Stored? {
      AppendKeepsUnique(users, row);
    }
  }
}
