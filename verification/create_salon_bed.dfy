// A salon user adds a bed to their salon, PostgREST revision
// (src/service/salon_bed/salon_user/create_salon_bed.rs). Here a bed belongs to a salon.

module CreateSalonBed {
  import opened Common
  import opened Database
  import opened Claim
  import opened Store
  import Table
  import opened CreateSalonMedia

  /** The message is spelled as in the handler. */
  const NOT_YOUR_SALON_BED: string := "salon not found of not your salon."

  /** The stored bed: the client's name and the path's salon; status and creation time are left to the store. */
  function BedRow(id: Id, salonId: Id, name: string): SalonBed
  {
    SalonBed(Some(id), Some(salonId), Some(name), None, None)
  }

  /** `create_salon_bed`. `insertFault` is the text of a refused insert. */
  method CreateSalonBed(db: Db, salonId: Id, claims: Claims, name: string, insertFault: Option<string>)
    returns (out: Outcome<SalonBed>)
    modifies db`salonBeds, db`salonBedSerial
    ensures !OwnsSalon(db.salons, salonId, claims.id) ==>
              out == General(BadRequest, Some(NOT_YOUR_SALON_BED)) &&
              db.salonBeds == old(db.salonBeds) && db.salonBedSerial == old(db.salonBedSerial)
    ensures OwnsSalon(db.salons, salonId, claims.id) && insertFault.Some? ==>
              out == General(BadRequest, insertFault) &&
              db.salonBeds == old(db.salonBeds) && db.salonBedSerial == old(db.salonBedSerial)
    ensures OwnsSalon(db.salons, salonId, claims.id) && insertFault.None? ==>
              var row := BedRow(old(db.salonBedSerial), salonId, name);
              db.salonBeds == old(db.salonBeds) + [row] && db.salonBedSerial == old(db.salonBedSerial) + 1 && out == Ok(row)
  {
    if Table.CountWhere(db.salons, OwnedSalon(salonId, claims.id)) != 1 {
      return General(BadRequest, Some(NOT_YOUR_SALON_BED));
    }
    if insertFault.Some? {
      return General(BadRequest, insertFault);
    }
    var row := BedRow(db.salonBedSerial, salonId, name);
    db.salonBeds := db.salonBeds + [row];
    db.salonBedSerial := db.salonBedSerial + 1;
    out := Ok(row);
  }

  /**
   * A bed is stored only in a salon the caller owns: the salon the new bed names has
   * the caller as its owner.
   */
  lemma StoredBedIsInCallersSalon(salons: seq<Salon>, salonId: Id, userId: Id, id: Id, name: string)
    requires OwnsSalon(salons, salonId, userId)
    ensures exists i :: 0 <= i < |salons| && salons[i].id == BedRow(id, salonId, name).salonId && salons[i].userId == Some(userId)
  {
    var w := Table.Where(salons, OwnedSalon(salonId, userId));
    assert w[0] in salons && OwnedSalon(salonId, userId)(w[0]);
  }
}
