// A salon user deletes their salon, PostgREST revision
// (src/service/salon/salon_user/delete_salon.rs).

module DeleteSalon {
  import opened Common
  import opened Database
  import opened Claim
  import opened Store
  import Table
  import opened CreateSalonMedia

  const SALON_NOT_FOUND: string := "salon_id for this user not found!"

  /**
   * `delete_salon`: with `.single()` the delete stands only when exactly one salon has
   * that id and the caller as owner, and the deleted row is answered.
   */
  method DeleteSalon(db: Db, salonId: Id, claims: Claims) returns (out: Outcome<Salon>)
    modifies db`salons
    ensures !OwnsSalon(old(db.salons), salonId, claims.id) ==>
              db.salons == old(db.salons) && out == General(BadRequest, Some(SALON_NOT_FOUND))
    ensures OwnsSalon(old(db.salons), salonId, claims.id) ==>
              db.salons == Table.DeleteWhere(old(db.salons), OwnedSalon(salonId, claims.id)) &&
              out == Ok(Table.Where(old(db.salons), OwnedSalon(salonId, claims.id))[0])
  {
    var matched := Table.Where(db.salons, OwnedSalon(salonId, claims.id));
    if |matched| != 1 {
      return General(BadRequest, Some(SALON_NOT_FOUND));
    }
    db.salons := Table.DeleteWhere(db.salons, OwnedSalon(salonId, claims.id));
    out := Ok(matched[0]);
  }

  /**
   * A delete that stands removes exactly the one salon, which has that id and is the
   * caller's; every other salon stays.
   */
  lemma DeleteRemovesOnlyOwnSalon(salons: seq<Salon>, salonId: Id, userId: Id)
    requires OwnsSalon(salons, salonId, userId)
    ensures var gone := Table.Where(salons, OwnedSalon(salonId, userId))[0];
            var after := Table.DeleteWhere(salons, OwnedSalon(salonId, userId));
            multiset(after) + multiset{gone} == multiset(salons) &&
            gone.id == Some(salonId) && gone.userId == Some(userId) &&
            forall k :: 0 <= k < |salons| && (!IdIs(salons[k].id, salonId) || !IdIs(salons[k].userId, userId)) ==>
              salons[k] in after
  {
    var matched := Table.Where(salons, OwnedSalon(salonId, userId));
    assert matched == [matched[0]];
    Table.DeleteWhereSplits(salons, OwnedSalon(salonId, userId));
  }
}
