// A salon user edits their salon, PostgREST revision
// (src/service/salon/salon_user/update_salon.rs).

module UpdateSalon {
  import opened Common
  import opened Database
  import opened Claim
  import opened Store
  import Table
  import opened GeneralAccount
  import opened CreateSalonMedia

  const NOTHING_CHANGED: string := "Nothing changed."

  /** The body: the address is always sent; any other field left out is not (`skip_serializing_none`). */
  datatype SalonPatch = SalonPatch(logo: Option<string>, coverPhoto: Option<string>, name: Option<string>,
                                   address: string, phone: Option<string>, email: Option<string>,
                                   description: Option<string>)

  function Patch(patch: SalonPatch): Salon -> Salon
  {
    (s: Salon) => s.(logo := Coalesce(patch.logo, s.logo), coverPhoto := Coalesce(patch.coverPhoto, s.coverPhoto),
                     name := Coalesce(patch.name, s.name), address := Some(patch.address),
                     phone := Coalesce(patch.phone, s.phone), email := Coalesce(patch.email, s.email),
                     description := Coalesce(patch.description, s.description))
  }

  /**
   * `update_salon`: with `.single()` the patch stands only when exactly one salon has
   * that id and the caller as owner, and the patched row is answered; otherwise
   * NOT_MODIFIED and nothing changes.
   */
  method UpdateSalon(db: Db, salonId: Id, claims: Claims, patch: SalonPatch) returns (out: Outcome<Salon>)
    modifies db`salons
    ensures !OwnsSalon(old(db.salons), salonId, claims.id) ==>
              db.salons == old(db.salons) && out == General(NotModified, Some(NOTHING_CHANGED))
    ensures OwnsSalon(old(db.salons), salonId, claims.id) ==>
              db.salons == Table.UpdateWhere(old(db.salons), OwnedSalon(salonId, claims.id), Patch(patch)) &&
              out == Ok(Patch(patch)(Table.Where(old(db.salons), OwnedSalon(salonId, claims.id))[0]))
  {
    var matched := Table.Where(db.salons, OwnedSalon(salonId, claims.id));
    if |matched| != 1 {
      return General(NotModified, Some(NOTHING_CHANGED));
    }
    db.salons := Table.UpdateWhere(db.salons, OwnedSalon(salonId, claims.id), Patch(patch));
    out := Ok(Patch(patch)(matched[0]));
  }

  /**
   * Each given field replaces its column and each missing one keeps it; the address is
   * always replaced; the id, owner, status and creation time never change.
   */
  lemma PatchFields(patch: SalonPatch, s: Salon)
    ensures var t := Patch(patch)(s);
            (patch.logo.Some? ==> t.logo == patch.logo) && (patch.logo.None? ==> t.logo == s.logo) &&
            (patch.coverPhoto.Some? ==> t.coverPhoto == patch.coverPhoto) && (patch.coverPhoto.None? ==> t.coverPhoto == s.coverPhoto) &&
            (patch.name.Some? ==> t.name == patch.name) && (patch.name.None? ==> t.name == s.name) &&
            (patch.phone.Some? ==> t.phone == patch.phone) && (patch.phone.None? ==> t.phone == s.phone) &&
            (patch.email.Some? ==> t.email == patch.email) && (patch.email.None? ==> t.email == s.email) &&
            (patch.description.Some? ==> t.description == patch.description) && (patch.description.None? ==> t.description == s.description) &&
            t.address == Some(patch.address)
    ensures var t := Patch(patch)(s);
            t.id == s.id && t.userId == s.userId && t.status == s.status && t.createdAt == s.createdAt
  {
  }

  /** Salons with another id or another owner are never touched. */
  lemma OtherSalonsUnchanged(salons: seq<Salon>, salonId: Id, userId: Id, patch: SalonPatch)
    ensures var after := Table.UpdateWhere(salons, OwnedSalon(salonId, userId), Patch(patch));
            forall k :: 0 <= k < |salons| && (!IdIs(salons[k].id, salonId) || !IdIs(salons[k].userId, userId)) ==>
              after[k] == salons[k]
  {
  }

  /** Sending the same body twice leaves the table as sending it once. */
  lemma PatchIdempotent(salons: seq<Salon>, salonId: Id, userId: Id, patch: SalonPatch)
    ensures var once := Table.UpdateWhere(salons, OwnedSalon(salonId, userId), Patch(patch));
            Table.UpdateWhere(once, OwnedSalon(salonId, userId), Patch(patch)) == once
  {
    forall i | 0 <= i < |salons| && OwnedSalon(salonId, userId)(salons[i])
      ensures Patch(patch)(Patch(patch)(salons[i])) == Patch(patch)(salons[i])
    {
    }
    Table.UpdateIdempotent(salons, OwnedSalon(salonId, userId), Patch(patch));
  }
}
