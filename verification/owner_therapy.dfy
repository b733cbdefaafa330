// A salon owner manages the therapies of their salon, SQL revision
// (src/router/salon_owner/therapy.rs).

module SalonOwnerTherapy {
  import opened Common
  import opened Database
  import opened Claim
  import opened Store
  import Table
  import opened GeneralAccount

  /** The body of both `add_therapy` and `update_therapy`. */
  datatype TherapyInput = TherapyInput(name: Option<string>, description: Option<string>,
                                       price: Option<int>, duration: Option<string>)

  /**
   * The rows `INSERT INTO therapies (salon_id, ...) SELECT salon_id, $1, $2, $3, $4 FROM
   * users WHERE users.id = $5` adds: one per selected user, numbered from `serial`.
   */
  function TherapyRows(owners: seq<User>, input: TherapyInput, serial: Id): (r: seq<Therapy>)
    ensures |r| == |owners|
    ensures forall k :: 0 <= k < |r| ==>
              r[k] == Therapy(Some(serial + k), owners[k].salonId, input.name, input.description, input.price, input.duration)
    decreases |owners|
  {
    if owners == [] then []
    else [Therapy(Some(serial), owners[0].salonId, input.name, input.description, input.price, input.duration)]
         + TherapyRows(owners[1..], input, serial + 1)
  }

  /** `add_therapy`: the new therapy is put in the caller's salon and returned. */
  method AddTherapy(db: Db, claims: Claims, input: TherapyInput) returns (out: Outcome<Therapy>)
    modifies db`therapies, db`therapySerial
    ensures var owners := Table.Where(old(db.users), UserWithId(claims.id));
            var added := TherapyRows(owners, input, old(db.therapySerial));
            db.therapies == old(db.therapies) + added && db.therapySerial == old(db.therapySerial) + |owners| &&
            out == if owners == [] then General(BadRequest, Some(ROW_NOT_FOUND)) else Ok(added[0])
  {
    var owners := Table.Where(db.users, UserWithId(claims.id));
    var added := TherapyRows(owners, input, db.therapySerial);
    db.therapies := db.therapies + added;
    db.therapySerial := db.therapySerial + |owners|;
    out := if owners == [] then General(BadRequest, Some(ROW_NOT_FOUND)) else Ok(added[0]);
  }

  /** For the signed-in user (one row with their id), the one new therapy is in the caller's salon. */
  lemma AddTherapyStampsCallerSalon(users: seq<User>, caller: User, input: TherapyInput, serial: Id)
    requires caller in users && caller.id.Some?
    requires Table.CountWhere(users, UserWithId(caller.id.value)) == 1
    ensures TherapyRows(Table.Where(users, UserWithId(caller.id.value)), input, serial) ==
            [Therapy(Some(serial), caller.salonId, input.name, input.description, input.price, input.duration)]
  {
    Table.SingleMatch(users, UserWithId(caller.id.value), caller);
  }

  /** `SET name = $1, description = $2, price = $3, duration = $4`: every column is written, a missing value as NULL. */
  function Overwrite(input: TherapyInput): Therapy -> Therapy
  {
    (t: Therapy) => t.(name := input.name, description := input.description, price := input.price, duration := input.duration)
  }

  /** The caller has a user row whose salon is the given salon column. */
  predicate CallerSalonIs(users: seq<User>, userId: Id, salonId: Option<Id>)
  {
    exists i :: 0 <= i < |users| && IdIs(users[i].id, userId) && SameNonNull(salonId, users[i].salonId)
  }

  /** The WHERE clause of `UPDATE_THERAPY_QUERY` as written: `therapies.id = users.salon_id`. */
  function UpdatableAsWritten(users: seq<User>, userId: Id, therapyId: int): Therapy -> bool
  {
    (t: Therapy) => IdIs(t.id, therapyId) && CallerSalonIs(users, userId, t.id)
  }

  /** The therapy with that id in the caller's salon (`therapies.salon_id = users.salon_id`). */
  function OwnedTherapy(users: seq<User>, userId: Id, therapyId: int): Therapy -> bool
  {
    (t: Therapy) => IdIs(t.id, therapyId) && CallerSalonIs(users, userId, t.salonId)
  }

  /** An UPDATE ... RETURNING answered through `fetch_one`: the first changed row, or the no-row error. */
  method UpdateReturning(db: Db, p: Therapy -> bool, input: TherapyInput) returns (out: Outcome<Therapy>)
    modifies db`therapies
    ensures db.therapies == Table.UpdateWhere(old(db.therapies), p, Overwrite(input))
    ensures var hit := Table.Where(old(db.therapies), p);
            out == if hit == [] then General(BadRequest, Some(ROW_NOT_FOUND)) else Ok(Overwrite(input)(hit[0]))
  {
    var hit := Table.Where(db.therapies, p);
    db.therapies := Table.UpdateWhere(db.therapies, p, Overwrite(input));
    out := if hit == [] then General(BadRequest, Some(ROW_NOT_FOUND)) else Ok(Overwrite(input)(hit[0]));
  }

  /** `update_therapy` as written. */
  method UpdateTherapy(db: Db, claims: Claims, therapyId: int, input: TherapyInput) returns (out: Outcome<Therapy>)
    modifies db`therapies
    ensures db.therapies == Table.UpdateWhere(old(db.therapies), UpdatableAsWritten(db.users, claims.id, therapyId), Overwrite(input))
    ensures var hit := Table.Where(old(db.therapies), UpdatableAsWritten(db.users, claims.id, therapyId));
            out == if hit == [] then General(BadRequest, Some(ROW_NOT_FOUND)) else Ok(Overwrite(input)(hit[0]))
  {
    out := UpdateReturning(db, UpdatableAsWritten(db.users, claims.id, therapyId), input);
  }

  /**
   * The discrepancy, both ways: the owner of salon `s` cannot update their own therapy
   * `t` (its id is not `s`), and can overwrite another salon's therapy whose id is `s`.
   */
  lemma TherapyIdComparedWithSalonId(owner: User, own: Therapy, other: Therapy, input: TherapyInput)
    requires owner.id.Some? && owner.salonId.Some?
    requires own.id.Some? && own.salonId == owner.salonId && own.id != owner.salonId
    requires other.id == owner.salonId && other.salonId != owner.salonId
    ensures !UpdatableAsWritten([owner], owner.id.value, own.id.value)(own)
    ensures OwnedTherapy([owner], owner.id.value, own.id.value)(own)
    ensures UpdatableAsWritten([owner], owner.id.value, other.id.value)(other)
    ensures !OwnedTherapy([owner], owner.id.value, other.id.value)(other)
  {
    assert IdIs([owner][0].id, owner.id.value);
  }

  /** `update_therapy` with the salon compared: the therapy with that id in the caller's salon is overwritten. */
  method UpdateOwnTherapy(db: Db, claims: Claims, therapyId: int, input: TherapyInput) returns (out: Outcome<Therapy>)
    modifies db`therapies
    ensures db.therapies == Table.UpdateWhere(old(db.therapies), OwnedTherapy(db.users, claims.id, therapyId), Overwrite(input))
    ensures var hit := Table.Where(old(db.therapies), OwnedTherapy(db.users, claims.id, therapyId));
            out == if hit == [] then General(BadRequest, Some(ROW_NOT_FOUND)) else Ok(Overwrite(input)(hit[0]))
  {
    out := UpdateReturning(db, OwnedTherapy(db.users, claims.id, therapyId), input);
  }

  /**
   * The corrected update leaves every therapy outside the caller's salons, and every
   * therapy with another id, as it was; the one it changes gets exactly the input's four
   * columns and keeps its id and salon.
   */
  lemma OwnUpdateStaysInSalon(users: seq<User>, therapies: seq<Therapy>, userId: Id, therapyId: int, input: TherapyInput)
    ensures var after := Table.UpdateWhere(therapies, OwnedTherapy(users, userId, therapyId), Overwrite(input));
            forall k :: 0 <= k < |therapies| ==>
              (after[k] != therapies[k] ==>
                 IdIs(therapies[k].id, therapyId) && CallerSalonIs(users, userId, therapies[k].salonId)) &&
              after[k].id == therapies[k].id && after[k].salonId == therapies[k].salonId &&
              (IdIs(therapies[k].id, therapyId) && CallerSalonIs(users, userId, therapies[k].salonId) ==>
                 after[k].name == input.name && after[k].description == input.description &&
                 after[k].price == input.price && after[k].duration == input.duration)
  {
  }

  /**
   * The row `DELETE ... USING users ... RETURNING *` decodes to. `*` lists the columns of
   * `therapies` and then those of `users`, so `id` and `salon_id` appear twice, and a
   * column read by name is taken from its last occurrence: `id` is the caller's user id
   * (`users.id = $1`), and `salon_id` is the caller's salon, equal to the therapy's by the join.
   */
  function JoinedRow(t: Therapy, userId: Id): Therapy
  {
    t.(id := Some(userId))
  }

  /**
   * `delete_therapy` as written: removes the therapy with that id in the caller's salon
   * and answers the removed row with the caller's id in its `id` field.
   */
  method DeleteTherapy(db: Db, claims: Claims, therapyId: int) returns (out: Outcome<Therapy>)
    modifies db`therapies
    ensures db.therapies == Table.DeleteWhere(old(db.therapies), OwnedTherapy(db.users, claims.id, therapyId))
    ensures var hit := Table.Where(old(db.therapies), OwnedTherapy(db.users, claims.id, therapyId));
            out == if hit == [] then General(BadRequest, Some(ROW_NOT_FOUND)) else Ok(JoinedRow(hit[0], claims.id))
  {
    out := DeleteOwnTherapy(db, claims, therapyId);
    if out.Ok? {
      out := Ok(JoinedRow(out.data, claims.id));
    }
  }

  /**
   * As written, the answer names the caller, not the therapy: whenever a therapy is
   * removed, the answered id is the caller's, so it differs from the removed therapy's
   * id unless the two numbers happen to agree.
   */
  lemma DeleteAnswersCallerId(therapies: seq<Therapy>, users: seq<User>, userId: Id, therapyId: int)
    requires Table.CountWhere(therapies, OwnedTherapy(users, userId, therapyId)) > 0
    ensures var hit := Table.Where(therapies, OwnedTherapy(users, userId, therapyId));
            JoinedRow(hit[0], userId).id == Some(userId) &&
            IdIs(hit[0].id, therapyId) &&
            (JoinedRow(hit[0], userId) == hit[0] <==> therapyId == userId)
  {
  }

  /**
   * `delete_therapy` with `RETURNING therapies.*`, as `update_therapy` writes
   * it (and `delete_bed` writes `RETURNING salon_beds.*`): the therapy with that id in the
   * caller's salon is removed and answered as stored.
   */
  method DeleteOwnTherapy(db: Db, claims: Claims, therapyId: int) returns (out: Outcome<Therapy>)
    modifies db`therapies
    ensures db.therapies == Table.DeleteWhere(old(db.therapies), OwnedTherapy(db.users, claims.id, therapyId))
    ensures var hit := Table.Where(old(db.therapies), OwnedTherapy(db.users, claims.id, therapyId));
            out == if hit == [] then General(BadRequest, Some(ROW_NOT_FOUND)) else Ok(hit[0])
  {
    var p := OwnedTherapy(db.users, claims.id, therapyId);
    var hit := Table.Where(db.therapies, p);
    db.therapies := Table.DeleteWhere(db.therapies, p);
    out := if hit == [] then General(BadRequest, Some(ROW_NOT_FOUND)) else Ok(hit[0]);
  }

  /**
   * The corrected answer is the therapy that was removed: a stored row with the
   * requested id, in the caller's salon, that is no longer in the table.
   */
  lemma DeleteOwnAnswersRemoved(therapies: seq<Therapy>, users: seq<User>, userId: Id, therapyId: int)
    requires Table.CountWhere(therapies, OwnedTherapy(users, userId, therapyId)) > 0
    ensures var p := OwnedTherapy(users, userId, therapyId);
            var answer := Table.Where(therapies, p)[0];
            answer in therapies && IdIs(answer.id, therapyId) && CallerSalonIs(users, userId, answer.salonId) &&
            answer !in Table.DeleteWhere(therapies, p)
  {
  }

  /**
   * `delete_therapy` keeps every therapy with another id or of another salon, removes
   * every matching one, and with no match changes nothing.
   */
  lemma DeleteTherapyRemovesOnlyOwned(users: seq<User>, therapies: seq<Therapy>, userId: Id, therapyId: int)
    ensures var p := OwnedTherapy(users, userId, therapyId);
            var after := Table.DeleteWhere(therapies, p);
            (forall k :: 0 <= k < |therapies| && !p(therapies[k]) ==> therapies[k] in after) &&
            (forall k :: 0 <= k < |after| ==> !IdIs(after[k].id, therapyId) || !CallerSalonIs(users, userId, after[k].salonId)) &&
            (Table.CountWhere(therapies, p) == 0 ==> after == therapies)
  {
    var p := OwnedTherapy(users, userId, therapyId);
    if Table.CountWhere(therapies, p) == 0 {
      forall k | 0 <= k < |therapies|
        ensures !p(therapies[k])
      {
      }
      Table.DeleteNoMatch(therapies, p);
    }
  }
}
