// The public salon catalogue of the SQL revision (src/router/public/salon.rs).

module PublicSalon {
  import opened Common
  import opened Database
  import opened Store
  import Table
  import opened Query
  import opened Utils

  /** The reply data of `list_salon`. */
  datatype SalonPage = SalonPage(salons: seq<Salon>, pages: int, total: int)

  /** Rust's panic message for `%` by zero, which `total_pages` reaches when the limit is 0. */
  const REMAINDER_BY_ZERO: string := "attempt to calculate the remainder with a divisor of zero"

  function IdKey(s: Salon): SortKey
  {
    if s.id.Some? then Key(s.id.value) else Null
  }

  /** `SELECT * FROM salons ORDER BY id OFFSET $1 LIMIT $2`. */
  function SalonListing(salons: seq<Salon>, offset: int, limit: int): Result<seq<Salon>>
  {
    BoundOffsetLimit(OrderBy(salons, IdKey, Asc), Some(offset), Some(limit))
  }

  /**
   * `list_salon`: the page is normalised and turned into `offset = (page - 1) * limit`;
   * `total` is the window count read from the first row (0 for an empty page) and
   * `pages` is `total_pages(total, limit)`, which panics for a zero limit.
   */
  method ListSalon(db: Db, page: Option<int>, limit: Option<int>) returns (out: Outcome<SalonPage>)
    ensures var (p, l) := ExtractPageAndLimit(page, limit);
            var listing := SalonListing(db.salons, (p - 1) * l, l);
            listing.Failure? ==> out == General(BadRequest, Some(DATABASE_ERROR_PREFIX + listing.error))
    ensures var (p, l) := ExtractPageAndLimit(page, limit);
            var listing := SalonListing(db.salons, (p - 1) * l, l);
            listing.Success? && l == 0 ==> out == Crash(REMAINDER_BY_ZERO)
    ensures var (p, l) := ExtractPageAndLimit(page, limit);
            var listing := SalonListing(db.salons, (p - 1) * l, l);
            listing.Success? && l != 0 ==>
              out.Ok? && out.data.salons == listing.value &&
              out.data.total == (if listing.value == [] then 0 else |db.salons|) &&
              out.data.pages == TotalPages(out.data.total, l)
  {
    var (p, l) := ExtractPageAndLimit(page, limit);
    var listing := SalonListing(db.salons, (p - 1) * l, l);
    if listing.Failure? {
      return General(BadRequest, Some(DATABASE_ERROR_PREFIX + listing.error));
    }
    var rows := WithTotal(listing.value, |db.salons|);
    var salons, total := CollectWithTotal(rows, (s: Salon) => s);
    assert salons == listing.value;
    var count := total.GetOr(0);
    assert count == if listing.value == [] then 0 else |db.salons|;
    if l == 0 {
      return Crash(REMAINDER_BY_ZERO);
    }
    out := Ok(SalonPage(salons, TotalPages(count, l), count));
  }

  /** Past the normalisation the query fails exactly for a negative limit (the offset is then negative too, or 0). */
  lemma ListingFailsIffNegativeLimit(salons: seq<Salon>, page: Option<int>, limit: Option<int>)
    ensures var (p, l) := ExtractPageAndLimit(page, limit);
            SalonListing(salons, (p - 1) * l, l).Failure? <==> l < 0
  {
    var (p, l) := ExtractPageAndLimit(page, limit);
    if l >= 0 {
      assert (p - 1) * l >= 0;
    }
  }

  /** A page of the listing holds stored salons only, ordered by id, and at most `limit` of them. */
  lemma ListingIsOrderedWindow(salons: seq<Salon>, offset: int, limit: int)
    ensures var r := SalonListing(salons, offset, limit);
            r.Success? ==>
              |r.value| <= limit &&
              (forall i :: 0 <= i < |r.value| ==> r.value[i] in salons) &&
              forall i, j :: 0 <= i < j < |r.value| ==> KeyLe(IdKey(r.value[i]), IdKey(r.value[j]))
  {
    OrderedWindow(salons, IdKey, Asc, Some(offset), Some(limit));
  }

  /** A page that shows salons is within the page count the same reply reports. */
  lemma NonEmptyPageIsCounted(salons: seq<Salon>, p: int, l: int)
    requires p >= 1 && l > 0
    requires SalonListing(salons, (p - 1) * l, l) != Success([])
    ensures p <= TotalPages(|salons|, l)
  {
    MulMonotone(0, p - 1, l);
    OffsetBelowCount(salons, (p - 1) * l, l);
    PageWithinCount(p, l, |salons|);
  }

  /** A page starting before the last row is within the page count. */
  lemma PageWithinCount(p: int, l: int, count: nat)
    requires p >= 1 && l > 0 && (p - 1) * l < count
    ensures p <= TotalPages(count, l)
  {
    TotalPagesIsCeiling(count, l);
    var pages := TotalPages(count, l);
    if pages < p {
      MulMonotone(pages, p - 1, l);
    }
  }

  /** A page that is not empty starts before the last salon. */
  lemma OffsetBelowCount(salons: seq<Salon>, offset: int, l: int)
    requires offset >= 0 && l >= 0
    requires SalonListing(salons, offset, l) != Success([])
    ensures offset < |salons|
  {
    OrderedWindow(salons, IdKey, Asc, Some(offset), Some(l));
  }

  lemma MulMonotone(a: int, b: int, l: int)
    requires a <= b && l >= 0
    ensures a * l <= b * l
  {
    assert b * l - a * l == (b - a) * l;
  }

  /** The reply data of `salon_detail` (the address and the owner are not selected into it). */
  datatype SalonDetailOutput = SalonDetailOutput(id: Option<Id>, logo: Option<string>, coverPhoto: Option<string>,
                                                 name: Option<string>, phone: Option<string>, email: Option<string>,
                                                 description: Option<string>, status: Option<GeneralStatus>,
                                                 salonBranches: seq<SalonBranch>, createdAt: Option<Time>)

  function Detail(s: Salon, branches: seq<SalonBranch>): SalonDetailOutput
  {
    SalonDetailOutput(s.id, s.logo, s.coverPhoto, s.name, s.phone, s.email, s.description, s.status, branches, s.createdAt)
  }

  function SalonWithId(salonId: int): Salon -> bool
  {
    (s: Salon) => IdIs(s.id, salonId)
  }

  /** `LEFT JOIN salon_branches br ON sl.id = br.salon_id` with `FILTER (WHERE br.id IS NOT NULL)`. */
  function BranchOf(salonId: int): SalonBranch -> bool
  {
    (b: SalonBranch) => IdIs(b.salonId, salonId) && b.id.Some?
  }

  /**
   * `salon_detail` as written: the aggregate is aliased `salon_branchs` while the field
   * is `salon_branches`, so the field is left at its default and always comes back empty.
   */
  function SalonDetail(salons: seq<Salon>, branches: seq<SalonBranch>, salonId: int): (r: Outcome<SalonDetailOutput>)
    ensures r.General? <==> forall i :: 0 <= i < |salons| ==> !IdIs(salons[i].id, salonId)
    ensures r.General? ==> r == General(BadRequest, Some(ROW_NOT_FOUND))
    ensures r.Ok? ==> r.data.salonBranches == [] &&
                      exists i :: 0 <= i < |salons| && IdIs(salons[i].id, salonId) && r.data == Detail(salons[i], [])
  {
    match Table.FindFirst(salons, SalonWithId(salonId))
    case None => General(BadRequest, Some(ROW_NOT_FOUND))
    case Some(s) => Ok(Detail(s, []))
  }

  /** `salon_detail` with the aggregate read into `salon_branches`. */
  function SalonDetailWithBranches(salons: seq<Salon>, branches: seq<SalonBranch>, salonId: int): (r: Outcome<SalonDetailOutput>)
    ensures r.General? <==> forall i :: 0 <= i < |salons| ==> !IdIs(salons[i].id, salonId)
    ensures r.General? ==> r == General(BadRequest, Some(ROW_NOT_FOUND))
    ensures r.Ok? ==> exists i :: 0 <= i < |salons| && IdIs(salons[i].id, salonId) &&
                                  r.data == Detail(salons[i], Table.Where(branches, BranchOf(salonId)))
  {
    match Table.FindFirst(salons, SalonWithId(salonId))
    case None => General(BadRequest, Some(ROW_NOT_FOUND))
    case Some(s) => Ok(Detail(s, Table.Where(branches, BranchOf(salonId))))
  }

  /** With the aggregate read, the detail lists exactly the salon's branches. */
  lemma DetailListsExactlyTheBranches(salons: seq<Salon>, branches: seq<SalonBranch>, salonId: int)
    ensures var r := SalonDetailWithBranches(salons, branches, salonId);
            r.Ok? ==>
              (forall k :: 0 <= k < |r.data.salonBranches| ==>
                 r.data.salonBranches[k] in branches && IdIs(r.data.salonBranches[k].salonId, salonId)) &&
              forall k :: 0 <= k < |branches| && IdIs(branches[k].salonId, salonId) && branches[k].id.Some? ==>
                branches[k] in r.data.salonBranches
  {
  }

  /**
   * The discrepancy: a salon with a branch is shown with no branch as written, and with
   * that branch once the aggregate is read.
   */
  lemma BranchesAreLost(s: Salon, b: SalonBranch)
    requires s.id.Some? && b.id.Some? && b.salonId == s.id
    ensures SalonDetail([s], [b], s.id.value) == Ok(Detail(s, []))
    ensures SalonDetailWithBranches([s], [b], s.id.value) == Ok(Detail(s, [b]))
  {
    assert Table.Where([b], BranchOf(s.id.value)) == [b] by {
      assert [b][1..] == [];
    }
  }
}
