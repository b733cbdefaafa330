// Row-level meaning of the SQL statements the handlers issue, on a table held
// as a sequence of rows: WHERE filters, UPDATE ... WHERE, DELETE ... WHERE,
// and the first row of a result (`fetch_one`).

module Table {
  import opened Common

  /** SELECT * WHERE p, in table order. */
  function Where<T>(rows: seq<T>, p: T -> bool): (r: seq<T>)
    ensures |r| <= |rows|
    ensures forall i :: 0 <= i < |r| ==> r[i] in rows && p(r[i])
    ensures forall x :: x in rows && p(x) ==> x in r
  {
    if rows == [] then []
    else (if p(rows[0]) then [rows[0]] else []) + Where(rows[1..], p)
  }

  /** Number of rows a WHERE clause matches. */
  function CountWhere<T>(rows: seq<T>, p: T -> bool): nat
  {
    |Where(rows, p)|
  }

  /** UPDATE ... SET f WHERE p: each matching row is replaced by its update, in place. */
  function UpdateWhere<T>(rows: seq<T>, p: T -> bool, f: T -> T): (r: seq<T>)
    ensures |r| == |rows|
    ensures forall i :: 0 <= i < |rows| ==> r[i] == if p(rows[i]) then f(rows[i]) else rows[i]
  {
    if rows == [] then []
    else [if p(rows[0]) then f(rows[0]) else rows[0]] + UpdateWhere(rows[1..], p, f)
  }

  /** DELETE ... WHERE p: the table keeps the rows that do not match, in order. */
  function DeleteWhere<T>(rows: seq<T>, p: T -> bool): (r: seq<T>)
    ensures forall i :: 0 <= i < |r| ==> r[i] in rows && !p(r[i])
    ensures forall x :: x in rows && !p(x) ==> x in r
  {
    if rows == [] then []
    else
      assert rows == [rows[0]] + rows[1..];
      (if p(rows[0]) then [] else [rows[0]]) + DeleteWhere(rows[1..], p)
  }

  /** DELETE ... WHERE p removes exactly the rows SELECT ... WHERE p returns. */
  lemma {:induction false} DeleteWhereSplits<T>(rows: seq<T>, p: T -> bool)
    ensures multiset(DeleteWhere(rows, p)) + multiset(Where(rows, p)) == multiset(rows)
  {
    if rows != [] {
      var t := rows[1..];
      DeleteWhereSplits(t, p);
      SplitFirst(rows, p);
      assert rows == [rows[0]] + t;
      assert multiset(rows) == multiset{rows[0]} + multiset(t);
    }
  }

  /** Some row matches exactly when the first row does or some later row does. */
  lemma ExistsFirstOrRest<T>(rows: seq<T>, p: T -> bool)
    requires rows != []
    ensures (exists j :: 0 <= j < |rows| && p(rows[j])) <==>
            p(rows[0]) || exists j :: 0 <= j < |rows[1..]| && p(rows[1..][j])
  {
    if exists j :: 0 <= j < |rows| && p(rows[j]) {
      var j :| 0 <= j < |rows| && p(rows[j]);
      if j > 0 {
        assert rows[1..][j - 1] == rows[j];
      }
    }
    if exists j :: 0 <= j < |rows[1..]| && p(rows[1..][j]) {
      var j :| 0 <= j < |rows[1..]| && p(rows[1..][j]);
      assert rows[j + 1] == rows[1..][j];
    }
  }

  /** The first row goes to exactly one of the two sides of a WHERE clause. */
  lemma SplitFirst<T>(rows: seq<T>, p: T -> bool)
    requires rows != []
    ensures multiset(DeleteWhere(rows, p)) + multiset(Where(rows, p))
            == multiset{rows[0]} + multiset(DeleteWhere(rows[1..], p)) + multiset(Where(rows[1..], p))
  {
    var t := rows[1..];
    if p(rows[0]) {
      assert DeleteWhere(rows, p) == DeleteWhere(t, p);
      assert Where(rows, p) == [rows[0]] + Where(t, p);
    } else {
      assert DeleteWhere(rows, p) == [rows[0]] + DeleteWhere(t, p);
      assert Where(rows, p) == Where(t, p);
    }
  }

  /** `fetch_one` / `fetch_optional`: the first row of the result, if any. */
  function FindFirst<T>(rows: seq<T>, p: T -> bool): (r: Option<T>)
    ensures r.Some? ==> r.value in rows && p(r.value)
    ensures r.None? <==> forall i :: 0 <= i < |rows| ==> !p(rows[i])
    ensures r.Some? ==> r.value == Where(rows, p)[0]
  {
    if rows == [] then None
    else if p(rows[0]) then Some(rows[0])
    else FindFirst(rows[1..], p)
  }

  lemma {:induction false} WhereAppend<T>(a: seq<T>, b: seq<T>, p: T -> bool)
    ensures Where(a + b, p) == Where(a, p) + Where(b, p)
  {
    if a == [] {
      assert a + b == b;
    } else {
      assert (a + b)[1..] == a[1..] + b;
      WhereAppend(a[1..], b, p);
    }
  }

  /** A statement whose WHERE clause matches nothing leaves the table as it was. */
  lemma NoMatchUnchanged<T>(rows: seq<T>, p: T -> bool, f: T -> T)
    requires forall i :: 0 <= i < |rows| ==> !p(rows[i])
    ensures UpdateWhere(rows, p, f) == rows
    ensures DeleteWhere(rows, p) == rows
    ensures CountWhere(rows, p) == 0
  {
    WhereNone(rows, p);
    DeleteNoMatch(rows, p);
  }

  /** A WHERE clause that returns nothing matches no row. */
  lemma WhereEmpty<T>(rows: seq<T>, p: T -> bool)
    requires Where(rows, p) == []
    ensures forall i :: 0 <= i < |rows| ==> !p(rows[i])
  {
  }

  lemma {:induction false} WhereNone<T>(rows: seq<T>, p: T -> bool)
    requires forall i :: 0 <= i < |rows| ==> !p(rows[i])
    ensures Where(rows, p) == []
  {
    if rows != [] {
      WhereNone(rows[1..], p);
    }
  }

  lemma {:induction false} DeleteNoMatch<T>(rows: seq<T>, p: T -> bool)
    requires forall i :: 0 <= i < |rows| ==> !p(rows[i])
    ensures DeleteWhere(rows, p) == rows
  {
    if rows != [] {
      DeleteNoMatch(rows[1..], p);
    }
  }

  /**
   * An update that settles its rows (applying it twice is applying it once) is
   * idempotent as a statement.
   */
  lemma UpdateIdempotent<T>(rows: seq<T>, p: T -> bool, f: T -> T)
    requires forall i :: 0 <= i < |rows| && p(rows[i]) ==> f(f(rows[i])) == f(rows[i])
    ensures UpdateWhere(UpdateWhere(rows, p, f), p, f) == UpdateWhere(rows, p, f)
  {
    var once := UpdateWhere(rows, p, f);
    var twice := UpdateWhere(once, p, f);
    forall i | 0 <= i < |rows|
      ensures twice[i] == once[i]
    {
      if p(rows[i]) {
        assert once[i] == f(rows[i]);
      }
    }
  }

  /** A WHERE clause matching exactly one row finds that row first and no other. */
  lemma SingleMatch<T>(rows: seq<T>, p: T -> bool, x: T)
    requires CountWhere(rows, p) == 1
    requires x in rows && p(x)
    ensures FindFirst(rows, p) == Some(x)
  {
    assert x in Where(rows, p);
  }

  /** Two matching positions make at least two matches. */
  lemma {:induction false} TwoMatches<T>(rows: seq<T>, p: T -> bool, i: int, j: int)
    requires 0 <= i < j < |rows| && p(rows[i]) && p(rows[j])
    ensures CountWhere(rows, p) >= 2
    decreases i
  {
    if i == 0 {
      assert rows[1..][j-1] == rows[j];
      assert rows[j] in Where(rows[1..], p);
    } else {
      assert rows[1..][i-1] == rows[i] && rows[1..][j-1] == rows[j];
      TwoMatches(rows[1..], p, i - 1, j - 1);
    }
  }
}
