// A user's own reservations, newest first, one page at a time
// (src/service/reservation/all_user/list_reservation_history.rs).

module ListReservationHistory {
  import opened Common
  import opened Database
  import opened Claim
  import opened Store
  import Table
  import opened Query
  import opened Utils
  import opened ReservationView

  /** The JSON object of a successful reply: `{reservations, pages, total}`. */
  datatype HistoryPage = HistoryPage(reservations: seq<ReservationOutput>, pages: int, total: nat)

  function OwnedBy(userId: Id): Reservation -> bool
  {
    (r: Reservation) => IdIs(r.userId, userId)
  }

  function TimeFromKey(r: Reservation): SortKey
  {
    if r.timeFrom.Some? then Key(r.timeFrom.value) else Null
  }

  /** The caller's reservations in the order `order("time_from.desc")` returns them. */
  function History(rows: seq<Reservation>, userId: Id): seq<Reservation>
  {
    OrderBy(Table.Where(rows, OwnedBy(userId)), TimeFromKey, Desc)
  }

  /** `range(from, to)` of the history. */
  function HistoryPageRows(rows: seq<Reservation>, userId: Id, from: nat, to: nat): seq<Reservation>
  {
    RangeRows(History(rows, userId), from, to)
  }

  /**
   * The history holds exactly the caller's reservations (with their multiplicity) and
   * is ordered by `time_from`, newest first, with NULL times first.
   */
  lemma {:induction false} HistoryIsOwnedAndOrdered(rows: seq<Reservation>, userId: Id)
    ensures multiset(History(rows, userId)) == multiset(Table.Where(rows, OwnedBy(userId)))
    ensures forall i :: 0 <= i < |History(rows, userId)| ==>
              History(rows, userId)[i] in rows && History(rows, userId)[i].userId == Some(userId)
    ensures forall i, j :: 0 <= i < j < |History(rows, userId)| ==>
              Precedes(Desc, TimeFromKey(History(rows, userId)[i]), TimeFromKey(History(rows, userId)[j]))
  {
    var owned := Table.Where(rows, OwnedBy(userId));
    var h := History(rows, userId);
    OrderBySorted(owned, TimeFromKey, Desc);
    forall i | 0 <= i < |h|
      ensures h[i] in rows && h[i].userId == Some(userId)
    {
      assert h[i] in multiset(owned);
    }
  }

  /** Every page shows only the caller's reservations, newest first. */
  lemma HistoryPageIsOwnedAndOrdered(rows: seq<Reservation>, userId: Id, from: nat, to: nat)
    ensures forall i :: 0 <= i < |HistoryPageRows(rows, userId, from, to)| ==>
              HistoryPageRows(rows, userId, from, to)[i].userId == Some(userId)
    ensures forall i, j :: 0 <= i < j < |HistoryPageRows(rows, userId, from, to)| ==>
              Precedes(Desc, TimeFromKey(HistoryPageRows(rows, userId, from, to)[i]),
                             TimeFromKey(HistoryPageRows(rows, userId, from, to)[j]))
  {
    var h := History(rows, userId);
    assert Ordered(h, TimeFromKey, Desc) && forall i :: 0 <= i < |h| ==> OwnedBy(userId)(h[i]) by {
      HistoryIsOwnedAndOrdered(rows, userId);
    }
    if from <= to {
      WindowOrdered(h, TimeFromKey, Desc, Some(from), Some(to - from + 1));
      WindowKeeps(h, OwnedBy(userId), Some(from), Some(to - from + 1));
    }
  }

  /**
   * The HTTP outcome of the store's answer. A success always carries the Content-Range
   * header of the exact count. An error status may carry it (PostgREST sends it with a
   * range past the last row) or not (other failures).
   */
  datatype AnswerStatus = Answered | RefusedWithCount | RefusedWithoutCount

  /**
   * The store's answer to the query: the page rows with their bed embedded, and the
   * Content-Range header PostgREST writes for an exact count.
   */
  function StoreAnswer(rows: seq<Reservation>, beds: seq<SalonBed>, userId: Id, from: nat, to: nat): (seq<ReservationOutput>, string)
  {
    var page := HistoryPageRows(rows, userId, from, to);
    (seq(|page|, i requires 0 <= i < |page| => Embed(page[i], beds)),
     ContentRange(from, |page|, Table.CountWhere(rows, OwnedBy(userId))))
  }

  /** The Content-Range of the answer carries the number of the caller's reservations. */
  lemma HeaderCarriesCount(rows: seq<Reservation>, beds: seq<SalonBed>, userId: Id, from: nat, to: nat)
    requires Table.CountWhere(rows, OwnedBy(userId)) <= U64_MAX
    ensures TotalFromHeader(Some(StoreAnswer(rows, beds, userId, from, to).1)) == Success(Table.CountWhere(rows, OwnedBy(userId)))
  {
    TotalFromContentRange(from, |HistoryPageRows(rows, userId, from, to)|, Table.CountWhere(rows, OwnedBy(userId)));
  }

  /**
   * Runs the query and reads `total_from_header` off the answer: the embedded page
   * rows, and the count the Content-Range header carries, when the answer has one.
   */
  method QueryHistory(rows: seq<Reservation>, beds: seq<SalonBed>, userId: Id, from: nat, to: nat, status: AnswerStatus)
    returns (embedded: seq<ReservationOutput>, total: Result<nat>)
    ensures var page := HistoryPageRows(rows, userId, from, to);
            |embedded| == |page| && forall i :: 0 <= i < |page| ==> embedded[i] == Embed(page[i], beds)
    ensures status.RefusedWithoutCount? ==> total == Failure(NO_CONTENT_RANGE)
    ensures !status.RefusedWithoutCount? && Table.CountWhere(rows, OwnedBy(userId)) <= U64_MAX ==>
              total == Success(Table.CountWhere(rows, OwnedBy(userId)))
  {
    var answer := StoreAnswer(rows, beds, userId, from, to);
    embedded := answer.0;
    total := TotalFromHeader(if status.RefusedWithoutCount? then None else Some(answer.1));
    if !status.RefusedWithoutCount? && Table.CountWhere(rows, OwnedBy(userId)) <= U64_MAX {
      HeaderCarriesCount(rows, beds, userId, from, to);
    }
  }

  /** The embedded rows after the `salon_id` copying loop: each one presented. */
  method PresentAll(rows: seq<Reservation>, beds: seq<SalonBed>, embedded: seq<ReservationOutput>)
    returns (out: seq<ReservationOutput>)
    requires |embedded| == |rows| && forall i :: 0 <= i < |rows| ==> embedded[i] == Embed(rows[i], beds)
    ensures |out| == |rows| && forall i :: 0 <= i < |rows| ==> out[i] == Present(rows[i], beds)
  {
    out := CopySalonIds(embedded);
  }

  /** The reply for the row window `from..to` of a page of `limit` rows. */
  method ListWindow(rows: seq<Reservation>, beds: seq<SalonBed>, userId: Id, from: nat, to: nat, limit: int, status: AnswerStatus)
    returns (out: Outcome<HistoryPage>)
    requires limit > 0
    ensures status.RefusedWithoutCount? ==> out == General(BadRequest, Some(NO_CONTENT_RANGE))
    ensures var count := Table.CountWhere(rows, OwnedBy(userId));
            !status.RefusedWithoutCount? && count <= U64_MAX ==>
              out.Ok? && out.data.total == count && out.data.pages == TotalPages(count, limit)
    ensures out.Ok? ==>
              var shown := if status.Answered? then HistoryPageRows(rows, userId, from, to) else [];
              |out.data.reservations| == |shown| &&
              forall i :: 0 <= i < |shown| ==> out.data.reservations[i] == Present(shown[i], beds)
  {
    var embedded, total := QueryHistory(rows, beds, userId, from, to, status);
    if total.Failure? {
      return General(BadRequest, Some(total.error));
    }
    var pages := TotalPages(total.value, limit);
    if status.Answered? {
      var reservations := PresentAll(HistoryPageRows(rows, userId, from, to), beds, embedded);
      out := Ok(HistoryPage(reservations, pages, total.value));
    } else {
      out := Ok(HistoryPage([], pages, total.value));
    }
  }

  /**
   * `get_query_from_to(extract_page_and_limit(page, limit))`. The query parameters are
   * `Option<usize>`, so a page or limit the extractor lets through is never negative.
   */
  function PageWindow(page: Option<Usize>, limit: Option<Usize>): Result<(Usize, Usize)>
  {
    var extracted := ExtractPageAndLimit(page, limit);
    GetQueryFromTo(extracted.0, extracted.1)
  }

  /**
   * `list_reservation_history`. `status` is the HTTP outcome of the store's answer;
   * an answer without a Content-Range header fails `total_from_header`.
   */
  method ListReservationHistory(db: Db, claims: Claims, page: Option<Usize>, limit: Option<Usize>, status: AnswerStatus)
    returns (out: Outcome<HistoryPage>)
    ensures PageWindow(page, limit).Failure? ==> out == General(BadRequest, Some(PAGE_AND_LIMIT_ERROR))
    ensures PageWindow(page, limit).Success? && status.RefusedWithoutCount? ==>
              out == General(BadRequest, Some(NO_CONTENT_RANGE))
    ensures var count := Table.CountWhere(db.reservations, OwnedBy(claims.id));
            PageWindow(page, limit).Success? && !status.RefusedWithoutCount? && count <= U64_MAX ==>
              out.Ok? && out.data.total == count && out.data.pages == TotalPages(count, ExtractPageAndLimit(page, limit).1)
    ensures out.Ok? ==>
              PageWindow(page, limit).Success? &&
              var w := PageWindow(page, limit).value;
              var shown := if status.Answered? then HistoryPageRows(db.reservations, claims.id, w.0, w.1) else [];
              |out.data.reservations| == |shown| &&
              forall i :: 0 <= i < |shown| ==> out.data.reservations[i] == Present(shown[i], db.salonBeds)
  {
    var window := PageWindow(page, limit);
    if window.Failure? {
      return General(BadRequest, Some(window.error));
    }
    out := ListWindow(db.reservations, db.salonBeds, claims.id, window.value.0, window.value.1,
                      ExtractPageAndLimit(page, limit).1, status);
  }

  /**
   * The window is refused exactly when the limit given is 0; otherwise, while the rows
   * of the page stay below 2^64, it is page `page` (1 when absent or 0) of `limit` rows
   * (9999 when absent).
   */
  lemma PageWindowIff(page: Option<Usize>, limit: Option<Usize>)
    ensures PageWindow(page, limit).Failure? <==> limit == Some(0)
    ensures var e := ExtractPageAndLimit(page, limit);
            PageWindow(page, limit).Success? && e.0 * e.1 <= U64_MAX + 1 ==>
              PageWindow(page, limit).value.0 == (e.0 - 1) * e.1 && PageWindow(page, limit).value.1 == e.0 * e.1 - 1
  {
  }
}
