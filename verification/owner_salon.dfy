// A salon owner edits their salon, SQL revision (src/router/salon_owner/salon.rs).

module SalonOwnerSalon {
  import opened Common
  import opened Database
  import opened Claim
  import opened Store
  import Table

  /** The body of `update_salon`. */
  datatype UpdateSalonInput = UpdateSalonInput(logo: Option<string>, coverPhoto: Option<string>, name: Option<string>,
                                               phone: Option<string>, email: Option<string>, description: Option<string>)

  /** `SET logo = $1, ..., description = $6`: the six columns are written, a missing value as NULL. */
  function Overwrite(input: UpdateSalonInput): Salon -> Salon
  {
    (s: Salon) => s.(logo := input.logo, coverPhoto := input.coverPhoto, name := input.name,
                     phone := input.phone, email := input.email, description := input.description)
  }

  /** `FROM users WHERE users.id = $7 AND salons.id = users.salon_id`: the caller's salon. */
  function CallersSalon(users: seq<User>, userId: Id): Salon -> bool
  {
    (s: Salon) => exists i :: 0 <= i < |users| && IdIs(users[i].id, userId) && SameNonNull(s.id, users[i].salonId)
  }

  /**
   * `update_salon`. The UPDATE has no RETURNING clause, so `fetch_one` finds no row to
   * decode and the handler answers with that error, after the update has been made.
   * This is the behaviour as written: every call is answered with an error although
   * its update stands (an `UPDATE ... RETURNING *` would answer the updated row).
   */
  method UpdateSalon(db: Db, claims: Claims, input: UpdateSalonInput) returns (out: Outcome<Salon>)
    modifies db`salons
    ensures db.salons == Table.UpdateWhere(old(db.salons), CallersSalon(db.users, claims.id), Overwrite(input))
    ensures out == General(BadRequest, Some(ROW_NOT_FOUND))
  {
    db.salons := Table.UpdateWhere(db.salons, CallersSalon(db.users, claims.id), Overwrite(input));
    out := General(BadRequest, Some(ROW_NOT_FOUND));
  }

  /**
   * Only the caller's salon changes: it gets exactly the six input columns (a missing
   * one becomes NULL) and keeps its id, address, status, creation time and owner; every
   * other salon stays as it was.
   */
  lemma UpdateSalonScope(users: seq<User>, salons: seq<Salon>, userId: Id, input: UpdateSalonInput)
    ensures var after := Table.UpdateWhere(salons, CallersSalon(users, userId), Overwrite(input));
            forall k :: 0 <= k < |salons| ==>
              (!CallersSalon(users, userId)(salons[k]) ==> after[k] == salons[k]) &&
              (CallersSalon(users, userId)(salons[k]) ==>
                 after[k].logo == input.logo && after[k].coverPhoto == input.coverPhoto && after[k].name == input.name &&
                 after[k].phone == input.phone && after[k].email == input.email && after[k].description == input.description) &&
              after[k].id == salons[k].id && after[k].address == salons[k].address && after[k].status == salons[k].status &&
              after[k].createdAt == salons[k].createdAt && after[k].userId == salons[k].userId
  {
  }

  /** Sending the same body twice leaves the table as sending it once. */
  lemma UpdateSalonIdempotent(users: seq<User>, salons: seq<Salon>, userId: Id, input: UpdateSalonInput)
    ensures var once := Table.UpdateWhere(salons, CallersSalon(users, userId), Overwrite(input));
            Table.UpdateWhere(once, CallersSalon(users, userId), Overwrite(input)) == once
  {
    var p := CallersSalon(users, userId);
    forall i | 0 <= i < |salons| && p(salons[i])
      ensures Overwrite(input)(Overwrite(input)(salons[i])) == Overwrite(input)(salons[i])
    {
    }
    Table.UpdateIdempotent(salons, p, Overwrite(input));
  }
}
