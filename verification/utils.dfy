// Paging helpers (src/utils.rs): the page/limit defaults, the row range of a
// page, the page count, and the row count read back from a Content-Range header.

module Utils {
  import opened Common
  import Query

  function Abs(x: int): nat
  {
    if x < 0 then -x else x
  }

  /** Rust's `/` on integers: the quotient truncated toward zero. */
  function TruncDiv(a: int, b: int): int
    requires b != 0
  {
    if (a >= 0) == (b > 0) then Abs(a) / Abs(b) else -(Abs(a) / Abs(b))
  }

  /** Rust's `%` on integers: the remainder takes the sign of the dividend. */
  function TruncRem(a: int, b: int): int
    requires b != 0
  {
    a - b * TruncDiv(a, b)
  }

  /** `total_pages`: how many pages of `limit` rows hold `total` rows. A zero limit panics in Rust. */
  function TotalPages(total: int, limit: int): int
    requires limit != 0
  {
    if TruncRem(total, limit) != 0 then TruncDiv(total, limit) + 1 else TruncDiv(total, limit)
  }

  /** For a row count and a positive limit, the page count is the least number of pages holding every row. */
  lemma TotalPagesIsCeiling(total: nat, limit: nat)
    requires limit > 0
    ensures var p := TotalPages(total, limit);
            p >= 0 && (p - 1) * limit < total <= p * limit
  {
    var q, r := total / limit, total % limit;
    assert total == q * limit + r && 0 <= r < limit;
    assert TruncDiv(total, limit) == q;
    assert TruncRem(total, limit) == r;
    assert (q + 1) * limit == q * limit + limit;
    assert (q - 1) * limit == q * limit - limit;
  }

  /** `k` full pages of `limit` rows make exactly `k` pages. */
  lemma TotalPagesOfFullPages(k: nat, limit: nat)
    requires limit > 0
    ensures TotalPages(k * limit, limit) == k
  {
    var q, r := (k * limit) / limit, (k * limit) % limit;
    assert (k - q) * limit == r by {
      assert k * limit == q * limit + r;
    }
    if k - q >= 1 {
      MulAtLeast(k - q, limit);
    } else if k - q <= -1 {
      MulAtLeast(q - k, limit);
    }
    assert TruncDiv(k * limit, limit) == k;
  }

  lemma {:induction false} MulAtLeast(a: int, b: nat)
    requires a >= 1
    ensures a * b >= b
  {
    if a > 1 {
      MulAtLeast(a - 1, b);
      assert a * b == (a - 1) * b + b;
    }
  }

  /**
   * `extract_page_and_limit`: a missing or non-positive page becomes 1; a missing
   * limit becomes 9999, and a given limit is passed on unchecked.
   */
  function ExtractPageAndLimit(page: Option<int>, limit: Option<int>): (r: (int, int))
    ensures r.0 >= 1
    ensures page.Some? && page.value >= 1 ==> r.0 == page.value
    ensures page.None? || page.value <= 0 ==> r.0 == 1
    ensures limit.Some? ==> r.1 == limit.value
    ensures limit.None? ==> r.1 == 9999
  {
    var p := page.GetOr(1);
    (if p <= 0 then 1 else p, limit.GetOr(9999))
  }

  /** Values already extracted are kept as they are. */
  lemma ExtractIsIdempotent(page: Option<int>, limit: Option<int>)
    ensures var r := ExtractPageAndLimit(page, limit);
            ExtractPageAndLimit(Some(r.0), Some(r.1)) == r
  {
  }

  const PAGE_AND_LIMIT_ERROR: string := "page and limit must greater than 0."

  /** `usize` arithmetic of a release build: the result is taken modulo 2^64. */
  function WrapUsize(n: nat): Usize
  {
    n % (U64_MAX + 1)
  }

  /**
   * `get_query_from_to`: the first and last row index (both included) of page `page`.
   * `(page - 1) * limit` and `from + limit - 1` are `usize` operations and wrap past 2^64.
   */
  function GetQueryFromTo(page: Usize, limit: Usize): (r: Result<(Usize, Usize)>)
    ensures r.Failure? <==> page == 0 || limit == 0
    ensures r.Failure? ==> r.error == PAGE_AND_LIMIT_ERROR
    ensures r.Success? && page * limit <= U64_MAX + 1 ==>
              r.value.0 == (page - 1) * limit && r.value.1 == page * limit - 1 &&
              r.value.1 - r.value.0 + 1 == limit
  {
    if page == 0 || limit == 0 then Failure(PAGE_AND_LIMIT_ERROR)
    else
      var from := WrapUsize((page - 1) * limit);
      assert page * limit <= U64_MAX + 1 ==> from == (page - 1) * limit by {
        assert (page - 1) * limit == page * limit - limit;
      }
      Success((from, WrapUsize(from + limit - 1)))
  }

  /** Consecutive pages tile the rows: page p ends on row p*limit - 1 and page p+1 starts on row p*limit. */
  lemma PagesTile(page: Usize, limit: Usize)
    requires page >= 1 && limit >= 1 && page + 1 <= U64_MAX && (page + 1) * limit <= U64_MAX + 1
    ensures GetQueryFromTo(page, limit).Success? && GetQueryFromTo(page + 1, limit).Success?
    ensures GetQueryFromTo(page, limit).value.1 + 1 == GetQueryFromTo(page + 1, limit).value.0 == page * limit
    ensures GetQueryFromTo(1, limit).value.0 == 0
  {
    assert (page + 1) * limit == page * limit + limit;
    assert (page + 1 - 1) * limit == page * limit;
  }

  /**
   * An example of the wrap past 2^64 rows: page 2^32 + 1 of 2^32 rows asks for the
   * same rows as page 1.
   */
  lemma WindowWrapsAround()
    ensures GetQueryFromTo(0x1_0000_0001, 0x1_0000_0000) == GetQueryFromTo(1, 0x1_0000_0000) == Success((0, 0xffff_ffff))
  {
    assert 0x1_0000_0000 * 0x1_0000_0000 == U64_MAX + 1;
  }

  // `total_from_header`.

  const NO_CONTENT_RANGE: string := "No content-range header found."
  const NO_TOTAL: string := "No total found."
  const TO_STR_ERROR: string := "failed to convert header to a str"
  const EMPTY_INTEGER: string := "cannot parse integer from empty string"
  const INVALID_DIGIT: string := "invalid digit found in string"
  const POS_OVERFLOW: string := "number too large to fit in target type"

  /** Position of the first `c` in `s`. */
  function IndexOf(s: string, c: char): (r: Option<nat>)
    ensures r.Some? ==> r.value < |s| && s[r.value] == c && forall k :: 0 <= k < r.value ==> s[k] != c
    ensures r.None? ==> forall k :: 0 <= k < |s| ==> s[k] != c
  {
    if s == [] then None
    else if s[0] == c then Some(0)
    else match IndexOf(s[1..], c)
      case None => None
      case Some(i) => Some(i + 1)
  }

  /** `s.split("/").nth(1)`: the text between the first slash and the next one (or the end). */
  function SecondSegment(s: string): Option<string>
  {
    match IndexOf(s, '/')
    case None => None
    case Some(i) =>
      var rest := s[i + 1..];
      match IndexOf(rest, '/')
      case None => Some(rest)
      case Some(j) => Some(rest[..j])
  }

  predicate IsDigit(c: char)
  {
    '0' <= c <= '9'
  }

  /** The digit loop of Rust's unsigned integer parsing: a bad character or an overflow past u64 stops it. */
  function Accumulate(s: string, acc: nat): Result<nat>
    requires acc <= U64_MAX
  {
    if s == [] then Success(acc)
    else if !IsDigit(s[0]) then Failure(INVALID_DIGIT)
    else
      var next := acc * 10 + (s[0] as int - '0' as int);
      if next > U64_MAX then Failure(POS_OVERFLOW) else Accumulate(s[1..], next)
  }

  /** `str::parse::<usize>` on a 64-bit target: an optional leading '+', then decimal digits. */
  function ParseUsize(s: string): Result<nat>
  {
    if s == [] then Failure(EMPTY_INTEGER)
    else if s == "+" then Failure(INVALID_DIGIT)
    else Accumulate(if s[0] == '+' then s[1..] else s, 0)
  }

  function TotalFromHeader(contentRange: Option<string>): Result<nat>
  {
    match contentRange
    case None => Failure(NO_CONTENT_RANGE)
    case Some(raw) =>
      match HeaderToStr(raw)
      case None => Failure(TO_STR_ERROR)
      case Some(text) =>
        match SecondSegment(text)
        case None => Failure(NO_TOTAL)
        case Some(t) => ParseUsize(t)
  }

  /** Accumulating digits is the value of the number they spell, shifted past the accumulator. */
  lemma {:induction false} AccumulateAppend(s: string, c: char, acc: nat, v: nat)
    requires acc <= U64_MAX
    requires forall i :: 0 <= i < |s| ==> IsDigit(s[i])
    requires IsDigit(c)
    requires Accumulate(s, acc) == Success(v)
    ensures v <= U64_MAX
    ensures var next := v * 10 + (c as int - '0' as int);
            Accumulate(s + [c], acc) == if next > U64_MAX then Failure(POS_OVERFLOW) else Success(next)
  {
    if s == [] {
      assert s + [c] == [c];
    } else {
      var next := acc * 10 + (s[0] as int - '0' as int);
      assert (s + [c])[1..] == s[1..] + [c];
      AccumulateAppend(s[1..], c, next, v);
    }
  }

  lemma {:induction false} ParseNatToString(n: nat)
    requires n <= U64_MAX
    ensures Accumulate(Query.NatToString(n), 0) == Success(n)
  {
    if n < 10 {
      assert Query.NatToString(n) == [Query.DigitChar(n)];
    } else {
      ParseNatToString(n / 10);
      var d := Query.DigitChar(n % 10);
      AccumulateAppend(Query.NatToString(n / 10), d, 0, n / 10);
    }
  }

  /**
   * The row count written after the slash of a Content-Range header comes back out:
   * for every span PostgREST writes and every count that fits a usize.
   */
  lemma TotalFromContentRange(first: nat, pageLength: nat, count: nat)
    requires count <= U64_MAX
    ensures TotalFromHeader(Some(Query.ContentRange(first, pageLength, count))) == Success(count)
  {
    var span := Query.ContentRangeSpan(first, pageLength);
    var digits := Query.NatToString(count);
    var text := span + "/" + digits;
    assert text[|span|] == '/';
    assert forall k :: 0 <= k < |span| ==> text[k] == span[k];
    assert IndexOf(text, '/') == Some(|span|);
    assert text[|span| + 1..] == digits;
    assert IndexOf(digits, '/') == None;
    assert HeaderToStr(text) == Some(text);
    ParseNatToString(count);
  }

  /** A header without a slash has no total, whatever else it says. */
  lemma NoSlashNoTotal(text: string)
    requires forall k :: 0 <= k < |text| ==> text[k] != '/' && ' ' <= text[k] <= '~'
    ensures TotalFromHeader(Some(text)) == Failure(NO_TOTAL)
  {
    assert HeaderToStr(text) == Some(text);
  }
}
