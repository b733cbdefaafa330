// What the store does with a query before the handler sees the rows: ORDER BY
// (PostgreSQL's placement of NULLs), OFFSET/LIMIT, PostgREST's row range and
// the Content-Range header it answers with, and the `COUNT(*) OVER()` column.

module Query {
  import opened Common

  /** The value a row is ordered by; NULL is a value of its own. */
  datatype SortKey = Null | Key(v: int)

  datatype Direction = Asc | Desc

  /** PostgreSQL orders NULL above every non-null value: last ascending, first descending. */
  predicate KeyLe(a: SortKey, b: SortKey)
  {
    b.Null? || (a.Key? && a.v <= b.v)
  }

  /** `a` may come before `b` in ORDER BY ... `dir`. */
  predicate Precedes(dir: Direction, a: SortKey, b: SortKey)
  {
    if dir == Asc then KeyLe(a, b) else KeyLe(b, a)
  }

  ghost predicate Ordered<T>(s: seq<T>, key: T -> SortKey, dir: Direction)
  {
    forall i, j :: 0 <= i < j < |s| ==> Precedes(dir, key(s[i]), key(s[j]))
  }

  function Insert<T>(x: T, s: seq<T>, key: T -> SortKey, dir: Direction): (r: seq<T>)
    ensures multiset(r) == multiset(s) + multiset{x}
  {
    if s == [] then [x]
    else if Precedes(dir, key(x), key(s[0])) then [x] + s
    else
      assert s == [s[0]] + s[1..];
      [s[0]] + Insert(x, s[1..], key, dir)
  }

  /**
   * The rows of a result in ORDER BY order. Rows with equal keys keep the order they
   * had in the table; PostgreSQL leaves that order open, and this is one of its choices.
   */
  function OrderBy<T>(s: seq<T>, key: T -> SortKey, dir: Direction): (r: seq<T>)
    ensures multiset(r) == multiset(s)
  {
    if s == [] then []
    else
      assert s == [s[0]] + s[1..];
      Insert(s[0], OrderBy(s[1..], key, dir), key, dir)
  }

  lemma {:induction false} InsertOrdered<T>(x: T, s: seq<T>, key: T -> SortKey, dir: Direction)
    requires Ordered(s, key, dir)
    ensures Ordered(Insert(x, s, key, dir), key, dir)
  {
    if s == [] {
    } else if Precedes(dir, key(x), key(s[0])) {
      forall k | 0 <= k < |s|
        ensures Precedes(dir, key(x), key(s[k]))
      {
        if k > 0 {
          assert Precedes(dir, key(s[0]), key(s[k]));
        }
      }
      ConsOrdered(x, s, key, dir);
    } else {
      var t := Insert(x, s[1..], key, dir);
      InsertOrdered(x, s[1..], key, dir);
      forall k | 0 <= k < |t|
        ensures Precedes(dir, key(s[0]), key(t[k]))
      {
        assert t[k] in multiset(t);
        if t[k] != x {
          assert t[k] in multiset(s[1..]);
          var j :| 0 <= j < |s[1..]| && s[1..][j] == t[k];
          assert s[j + 1] == t[k];
        }
      }
      ConsOrdered(s[0], t, key, dir);
    }
  }

  /** A row that precedes every row of an ordered sequence can be put in front of it. */
  lemma ConsOrdered<T>(h: T, t: seq<T>, key: T -> SortKey, dir: Direction)
    requires Ordered(t, key, dir)
    requires forall k :: 0 <= k < |t| ==> Precedes(dir, key(h), key(t[k]))
    ensures Ordered([h] + t, key, dir)
  {
    var r := [h] + t;
    forall i, j | 0 <= i < j < |r|
      ensures Precedes(dir, key(r[i]), key(r[j]))
    {
      assert r[j] == t[j - 1];
      if i > 0 {
        assert r[i] == t[i - 1];
      }
    }
  }

  /** ORDER BY yields its rows sorted, and exactly the rows it was given. */
  lemma {:induction false} OrderBySorted<T>(s: seq<T>, key: T -> SortKey, dir: Direction)
    ensures Ordered(OrderBy(s, key, dir), key, dir)
    ensures multiset(OrderBy(s, key, dir)) == multiset(s)
  {
    if s != [] {
      OrderBySorted(s[1..], key, dir);
      InsertOrdered(s[0], OrderBy(s[1..], key, dir), key, dir);
    }
  }

  /** A contiguous part of a sorted result is sorted. */
  lemma SliceOrdered<T>(s: seq<T>, key: T -> SortKey, dir: Direction, lo: nat, hi: nat)
    requires Ordered(s, key, dir) && lo <= hi <= |s|
    ensures Ordered(s[lo..hi], key, dir)
  {
    forall i, j | 0 <= i < j < hi - lo
      ensures Precedes(dir, key(s[lo..hi][i]), key(s[lo..hi][j]))
    {
      assert s[lo..hi][i] == s[lo + i] && s[lo..hi][j] == s[lo + j];
    }
  }

  /**
   * OFFSET `offset` LIMIT `limit`. A NULL offset skips nothing and a NULL limit
   * keeps every remaining row, as PostgreSQL reads them.
   */
  function OffsetLimit<T>(rows: seq<T>, offset: Option<nat>, limit: Option<nat>): (r: seq<T>)
    ensures var skip := offset.GetOr(0);
            var rest := if skip < |rows| then |rows| - skip else 0;
            |r| == (if limit.Some? && limit.value < rest then limit.value else rest)
    ensures forall i :: 0 <= i < |r| ==> r[i] == rows[offset.GetOr(0) + i]
  {
    var skip := offset.GetOr(0);
    var rest := if skip < |rows| then rows[skip..] else [];
    if limit.Some? && limit.value < |rest| then rest[..limit.value] else rest
  }

  const NEGATIVE_OFFSET: string := "OFFSET must not be negative"
  const NEGATIVE_LIMIT: string := "LIMIT must not be negative"

  function AsNat(x: Option<int>): Option<nat>
    requires x.None? || x.value >= 0
  {
    if x.None? then None else Some(x.value)
  }

  /**
   * `OFFSET $2 LIMIT $3` with bound parameters: PostgreSQL refuses a negative offset,
   * then a negative limit, and otherwise applies them.
   */
  function BoundOffsetLimit<T>(rows: seq<T>, offset: Option<int>, limit: Option<int>): (r: Result<seq<T>>)
    ensures r.Failure? <==> (offset.Some? && offset.value < 0) || (limit.Some? && limit.value < 0)
    ensures offset.Some? && offset.value < 0 ==> r == Failure(NEGATIVE_OFFSET)
    ensures (offset.None? || offset.value >= 0) && limit.Some? && limit.value < 0 ==> r == Failure(NEGATIVE_LIMIT)
  {
    if offset.Some? && offset.value < 0 then Failure(NEGATIVE_OFFSET)
    else if limit.Some? && limit.value < 0 then Failure(NEGATIVE_LIMIT)
    else Success(OffsetLimit(rows, AsNat(offset), AsNat(limit)))
  }

  /** A window of an ordered result is ordered. */
  lemma WindowOrdered<T>(s: seq<T>, key: T -> SortKey, dir: Direction, offset: Option<nat>, limit: Option<nat>)
    requires Ordered(s, key, dir)
    ensures Ordered(OffsetLimit(s, offset, limit), key, dir)
  {
    var w := OffsetLimit(s, offset, limit);
    var skip := offset.GetOr(0);
    forall i, j | 0 <= i < j < |w|
      ensures Precedes(dir, key(w[i]), key(w[j]))
    {
      assert w[i] == s[skip + i] && w[j] == s[skip + j];
      assert Precedes(dir, key(s[skip + i]), key(s[skip + j]));
    }
  }

  /** A window keeps every property all rows of the result have. */
  lemma WindowKeeps<T>(s: seq<T>, q: T -> bool, offset: Option<nat>, limit: Option<nat>)
    requires forall i :: 0 <= i < |s| ==> q(s[i])
    ensures forall i :: 0 <= i < |OffsetLimit(s, offset, limit)| ==> q(OffsetLimit(s, offset, limit)[i])
  {
    var w := OffsetLimit(s, offset, limit);
    forall i | 0 <= i < |w|
      ensures q(w[i])
    {
      assert w[i] == s[offset.GetOr(0) + i];
    }
  }

  /** ORDER BY returns the rows it was given, so it has as many. */
  lemma OrderByMembers<T>(rows: seq<T>, key: T -> SortKey, dir: Direction)
    ensures |OrderBy(rows, key, dir)| == |rows|
    ensures forall x :: x in OrderBy(rows, key, dir) ==> x in rows
  {
    var s := OrderBy(rows, key, dir);
    assert |multiset(s)| == |multiset(rows)|;
    forall x | x in s
      ensures x in rows
    {
      assert x in multiset(s);
    }
  }

  /**
   * ORDER BY then OFFSET/LIMIT: the window holds given rows only, keeps the order, has
   * at most `limit` rows, and is empty when the offset is past the last row.
   */
  lemma OrderedWindow<T>(rows: seq<T>, key: T -> SortKey, dir: Direction, offset: Option<int>, limit: Option<int>)
    ensures var r := BoundOffsetLimit(OrderBy(rows, key, dir), offset, limit);
            r.Success? ==>
              (forall i :: 0 <= i < |r.value| ==> r.value[i] in rows) && Ordered(r.value, key, dir) &&
              (limit.Some? ==> |r.value| <= limit.value) &&
              (r.value != [] ==> offset.GetOr(0) < |rows|)
  {
    var s := OrderBy(rows, key, dir);
    OrderByMembers(rows, key, dir);
    var r := BoundOffsetLimit(s, offset, limit);
    if r.Success? {
      OrderBySorted(rows, key, dir);
      WindowOrdered(s, key, dir, AsNat(offset), AsNat(limit));
      forall i | 0 <= i < |r.value|
        ensures r.value[i] in rows
      {
        assert r.value[i] in s;
      }
    }
  }

  /**
   * PostgREST `range(from, to)`: the rows at positions `from` to `to`, both included; a
   * range ending before it starts selects no row.
   */
  function RangeRows<T>(rows: seq<T>, from: nat, to: nat): seq<T>
  {
    if from <= to then OffsetLimit(rows, Some(from), Some(to - from + 1)) else []
  }

  function DigitChar(d: nat): char
    requires d < 10
  {
    "0123456789"[d]
  }

  /** Decimal text of a natural number, without sign or leading zeros. */
  function NatToString(n: nat): (s: string)
    ensures |s| > 0 && (s[0] != '0' || n == 0)
    ensures forall i :: 0 <= i < |s| ==> '0' <= s[i] <= '9'
  {
    if n < 10 then [DigitChar(n)] else NatToString(n / 10) + [DigitChar(n % 10)]
  }

  /** The part of PostgREST's Content-Range before the slash: "first-last", or "*" for no rows. */
  function ContentRangeSpan(first: nat, pageLength: nat): (s: string)
    ensures forall i :: 0 <= i < |s| ==> s[i] != '/' && ' ' <= s[i] <= '~'
  {
    if pageLength == 0 then "*"
    else NatToString(first) + "-" + NatToString(first + pageLength - 1)
  }

  /** Content-Range of a response that asked for an exact count: "first-last/count". */
  function ContentRange(first: nat, pageLength: nat, count: nat): string
  {
    ContentRangeSpan(first, pageLength) + "/" + NatToString(count)
  }

  /** A result row carrying `COUNT(*) OVER() AS total`, the number of rows before OFFSET/LIMIT. */
  datatype Counted<T> = Counted(row: T, total: int)

  function WithTotal<T>(rows: seq<T>, total: int): (r: seq<Counted<T>>)
    ensures |r| == |rows|
    ensures forall i :: 0 <= i < |r| ==> r[i] == Counted(rows[i], total)
  {
    if rows == [] then [] else [Counted(rows[0], total)] + WithTotal(rows[1..], total)
  }

  /**
   * The loop the list handlers run over a result: decode every row, and keep the
   * `total` column of the first row (there is none when the result is empty).
   */
  method CollectWithTotal<T, U>(rows: seq<Counted<T>>, decode: T -> U) returns (items: seq<U>, total: Option<int>)
    ensures |items| == |rows|
    ensures forall i :: 0 <= i < |rows| ==> items[i] == decode(rows[i].row)
    ensures total == if rows == [] then None else Some(rows[0].total)
  {
    items, total := [], None;
    var i := 0;
    while i < |rows|
      invariant 0 <= i <= |rows|
      invariant |items| == i
      invariant forall k :: 0 <= k < i ==> items[k] == decode(rows[k].row)
      invariant total == if i == 0 then None else Some(rows[0].total)
    {
      if total.None? {
        total := Some(rows[i].total);
      }
      items := items + [decode(rows[i].row)];
      i := i + 1;
    }
  }
}
