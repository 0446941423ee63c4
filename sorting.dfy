/** The order `np.sort(data, order=name)` puts a record array in: by the named field, ties
    broken by the fields in schema order. Ascending is specified by an insertion sort,
    descending as its exact reverse. */
module Sorting {
  import opened Schemas
  import opened Rows

  /** Lexicographic order on integer sequences (a proper prefix comes first). */
  predicate LexLeq(a: seq<int>, b: seq<int>)
  {
    a == [] || (b != [] && (a[0] < b[0] || (a[0] == b[0] && LexLeq(a[1..], b[1..]))))
  }

  lemma {:induction false} LexReflexive(a: seq<int>)
    ensures LexLeq(a, a)
  {
    if a != [] {
      LexReflexive(a[1..]);
    }
  }

  lemma {:induction false} LexTotal(a: seq<int>, b: seq<int>)
    ensures LexLeq(a, b) || LexLeq(b, a)
  {
    if a != [] && b != [] && a[0] == b[0] {
      LexTotal(a[1..], b[1..]);
    }
  }

  lemma {:induction false} LexAntisymmetric(a: seq<int>, b: seq<int>)
    requires LexLeq(a, b) && LexLeq(b, a)
    ensures a == b
  {
    if a != [] {
      LexAntisymmetric(a[1..], b[1..]);
      assert a == [a[0]] + a[1..] && b == [b[0]] + b[1..];
    }
  }

  lemma {:induction false} LexTransitive(a: seq<int>, b: seq<int>, c: seq<int>)
    requires LexLeq(a, b) && LexLeq(b, c)
    ensures LexLeq(a, c)
  {
    if a != [] && a[0] == b[0] && b[0] == c[0] {
      LexTransitive(a[1..], b[1..], c[1..]);
    }
  }

  /** The sort key of a row when sorting on field `k`: that field first, then every field
      in schema order (the field itself compares equal again, so it never decides). */
  function Key(r: Row, k: nat): seq<int>
    requires k < |r|
  {
    [r[k]] + r
  }

  predicate RowLeq(a: Row, b: Row, k: nat)
    requires k < |a| && k < |b|
  {
    LexLeq(Key(a, k), Key(b, k))
  }

  /** Rows ordered by `RowLeq` are ordered by the field itself. */
  lemma RowLeqField(a: Row, b: Row, k: nat)
    requires k < |a| && k < |b| && RowLeq(a, b, k)
    ensures a[k] <= b[k]
  {
  }

  /** `RowLeq` is a total order on rows that have field `k`. */
  lemma RowLeqTotalOrder(a: Row, b: Row, c: Row, k: nat)
    requires k < |a| && k < |b| && k < |c|
    ensures RowLeq(a, a, k)
    ensures RowLeq(a, b, k) || RowLeq(b, a, k)
    ensures RowLeq(a, b, k) && RowLeq(b, a, k) ==> a == b
    ensures RowLeq(a, b, k) && RowLeq(b, c, k) ==> RowLeq(a, c, k)
  {
    LexReflexive(Key(a, k));
    LexTotal(Key(a, k), Key(b, k));
    if RowLeq(a, b, k) && RowLeq(b, a, k) {
      LexAntisymmetric(Key(a, k), Key(b, k));
      assert a == Key(a, k)[1..] && b == Key(b, k)[1..];
    }
    if RowLeq(a, b, k) && RowLeq(b, c, k) {
      LexTransitive(Key(a, k), Key(b, k), Key(c, k));
    }
  }

  /** Every row has field `k`. */
  predicate HasField(rows: seq<Row>, k: nat)
  {
    forall r :: r in rows ==> k < |r|
  }

  /** Non-decreasing in the sort order. */
  predicate Ascending(rows: seq<Row>, k: nat)
    requires HasField(rows, k)
  {
    forall i, j :: 0 <= i < j < |rows| ==> RowLeq(rows[i], rows[j], k)
  }

  /** Insert `x` before the first row it does not follow. */
  function Insert(x: Row, rows: seq<Row>, k: nat): (r: seq<Row>)
    requires k < |x| && HasField(rows, k)
    ensures multiset(r) == multiset(rows) + multiset{x}
  {
    if rows == [] then [x]
    else if RowLeq(x, rows[0], k) then [x] + rows
    else
      assert rows == [rows[0]] + rows[1..];
      [rows[0]] + Insert(x, rows[1..], k)
  }

  /** Reference definition of the ascending sort. */
  function SortAscending(rows: seq<Row>, k: nat): (r: seq<Row>)
    requires HasField(rows, k)
    ensures multiset(r) == multiset(rows)
  {
    if rows == [] then []
    else
      var sorted := SortAscending(rows[1..], k);
      SameRowsHaveField(rows[1..], sorted, k);
      assert rows == [rows[0]] + rows[1..];
      Insert(rows[0], sorted, k)
  }

  /** Descending: the ascending result read back to front, ties included. */
  function SortDescending(rows: seq<Row>, k: nat): seq<Row>
    requires HasField(rows, k)
  {
    Reverse(SortAscending(rows, k))
  }

  function Reverse(s: seq<Row>): seq<Row>
  {
    if s == [] then [] else Reverse(s[1..]) + [s[0]]
  }

  lemma {:induction false} ReverseAt(s: seq<Row>)
    ensures |Reverse(s)| == |s|
    ensures forall i :: 0 <= i < |s| ==> Reverse(s)[i] == s[|s| - 1 - i]
    ensures multiset(Reverse(s)) == multiset(s)
  {
    if s != [] {
      ReverseAt(s[1..]);
      assert s == [s[0]] + s[1..];
    }
  }

  /** A row of the result is a row of the input, so the result keeps field `k`. */
  lemma SameRowsHaveField(rows: seq<Row>, r: seq<Row>, k: nat)
    requires HasField(rows, k) && multiset(r) == multiset(rows)
    ensures HasField(r, k)
  {
    forall x | x in r ensures k < |x| {
      assert x in multiset(r);
    }
  }

  /** A row that precedes every row of an ordered sequence can be put in front of it. */
  lemma ConsAscending(h: Row, t: seq<Row>, k: nat)
    requires k < |h| && HasField(t, k) && Ascending(t, k)
    requires forall j :: 0 <= j < |t| ==> RowLeq(h, t[j], k)
    ensures HasField([h] + t, k) && Ascending([h] + t, k)
  {
    var r := [h] + t;
    forall i, j | 0 <= i < j < |r| ensures RowLeq(r[i], r[j], k) {
      assert r[j] == t[j - 1];
      if i > 0 {
        assert r[i] == t[i - 1];
      }
    }
  }

  lemma {:induction false} InsertAscending(x: Row, rows: seq<Row>, k: nat)
    requires k < |x| && HasField(rows, k) && Ascending(rows, k)
    ensures HasField(Insert(x, rows, k), k)
    ensures Ascending(Insert(x, rows, k), k)
  {
    SameRowsHaveField([x] + rows, Insert(x, rows, k), k);
    if rows == [] {
    } else if RowLeq(x, rows[0], k) {
      forall j | 0 <= j < |rows| ensures RowLeq(x, rows[j], k) {
        if j > 0 {
          RowLeqTotalOrder(x, rows[0], rows[j], k);
        }
      }
      ConsAscending(x, rows, k);
    } else {
      var tail := Insert(x, rows[1..], k);
      InsertAscending(x, rows[1..], k);
      RowLeqTotalOrder(rows[0], x, x, k);
      InsertKeepsLowerBound(rows[0], x, rows[1..], k);
      ConsAscending(rows[0], tail, k);
    }
  }

  /** A row that precedes `x` and every row of `rows` precedes every row after the insertion. */
  lemma InsertKeepsLowerBound(y: Row, x: Row, rows: seq<Row>, k: nat)
    requires k < |y| && k < |x| && HasField(rows, k)
    requires RowLeq(y, x, k)
    requires forall j :: 0 <= j < |rows| ==> RowLeq(y, rows[j], k)
    ensures HasField(Insert(x, rows, k), k)
    ensures forall j :: 0 <= j < |Insert(x, rows, k)| ==> RowLeq(y, Insert(x, rows, k)[j], k)
  {
    var r := Insert(x, rows, k);
    SameRowsHaveField([x] + rows, r, k);
    forall j | 0 <= j < |r| ensures RowLeq(y, r[j], k) {
      assert r[j] in multiset(r);
      if r[j] != x {
        assert r[j] in multiset(rows);
        var m :| 0 <= m < |rows| && rows[m] == r[j];
      }
    }
  }

  /** The ascending sort orders the rows. */
  lemma {:induction false} SortAscendingOrdered(rows: seq<Row>, k: nat)
    requires HasField(rows, k)
    ensures HasField(SortAscending(rows, k), k)
    ensures Ascending(SortAscending(rows, k), k)
  {
    SameRowsHaveField(rows, SortAscending(rows, k), k);
    if rows != [] {
      SortAscendingOrdered(rows[1..], k);
      InsertAscending(rows[0], SortAscending(rows[1..], k), k);
    }
  }

  /** The first row of an ordered sequence precedes each of its rows. */
  lemma HeadLeast(a: seq<Row>, x: Row, k: nat)
    requires HasField(a, k) && Ascending(a, k) && x in a
    ensures RowLeq(a[0], x, k)
  {
    var j :| 0 <= j < |a| && a[j] == x;
    if j == 0 {
      RowLeqTotalOrder(x, x, x, k);
    }
  }

  lemma AscendingTail(a: seq<Row>, k: nat)
    requires a != [] && HasField(a, k) && Ascending(a, k)
    ensures HasField(a[1..], k) && Ascending(a[1..], k)
  {
    forall i, j | 0 <= i < j < |a[1..]| ensures RowLeq(a[1..][i], a[1..][j], k) {
      assert a[1..][i] == a[i + 1] && a[1..][j] == a[j + 1];
    }
  }

  /** Equal multisets with equal first elements have equal rests. */
  lemma SameTails(a: seq<Row>, b: seq<Row>)
    requires a != [] && b != [] && a[0] == b[0] && multiset(a) == multiset(b)
    ensures multiset(a[1..]) == multiset(b[1..])
  {
    assert a == [a[0]] + a[1..] && b == [b[0]] + b[1..];
    assert multiset(a) == multiset{a[0]} + multiset(a[1..]);
    assert multiset(b) == multiset{b[0]} + multiset(b[1..]);
    assert multiset(a[1..]) == multiset(a) - multiset{a[0]};
    assert multiset(b[1..]) == multiset(b) - multiset{b[0]};
  }

  /** Two ordered sequences of the same rows are equal: the sort order is total, so the
      ascending result is fixed by the multiset of rows alone. */
  lemma {:induction false} AscendingUnique(a: seq<Row>, b: seq<Row>, k: nat)
    requires HasField(a, k) && HasField(b, k)
    requires Ascending(a, k) && Ascending(b, k) && multiset(a) == multiset(b)
    ensures a == b
  {
    if a == [] {
      assert |b| == |multiset(b)| == 0;
    } else {
      assert |b| == |multiset(b)| == |multiset(a)| == |a|;
      assert a[0] in multiset(b) && b[0] in multiset(a);
      HeadLeast(a, b[0], k);
      HeadLeast(b, a[0], k);
      RowLeqTotalOrder(a[0], b[0], b[0], k);
      SameTails(a, b);
      AscendingTail(a, k);
      AscendingTail(b, k);
      AscendingUnique(a[1..], b[1..], k);
      assert a == [a[0]] + a[1..] && b == [b[0]] + b[1..];
    }
  }

  /** Ascending order: a permutation of the rows that is non-decreasing in field `k`. */
  lemma SortAscendingSpec(rows: seq<Row>, k: nat)
    requires HasField(rows, k)
    ensures multiset(SortAscending(rows, k)) == multiset(rows)
    ensures |SortAscending(rows, k)| == |rows|
    ensures HasField(SortAscending(rows, k), k)
    ensures forall i, j :: 0 <= i < j < |rows| ==> SortAscending(rows, k)[i][k] <= SortAscending(rows, k)[j][k]
  {
    var r := SortAscending(rows, k);
    assert |r| == |multiset(r)| == |multiset(rows)| == |rows|;
    SortAscendingOrdered(rows, k);
  }

  /** Descending order: a permutation of the rows that is non-increasing in field `k`, and
      element for element the reverse of the ascending result. */
  lemma SortDescendingSpec(rows: seq<Row>, k: nat)
    requires HasField(rows, k)
    ensures multiset(SortDescending(rows, k)) == multiset(rows)
    ensures |SortDescending(rows, k)| == |rows|
    ensures HasField(SortDescending(rows, k), k)
    ensures forall i, j :: 0 <= i < j < |rows| ==> SortDescending(rows, k)[i][k] >= SortDescending(rows, k)[j][k]
    ensures forall i :: 0 <= i < |rows| ==> SortDescending(rows, k)[i] == SortAscending(rows, k)[|rows| - 1 - i]
  {
    var a := SortAscending(rows, k);
    SortAscendingSpec(rows, k);
    ReverseAt(a);
    SameRowsHaveField(rows, SortDescending(rows, k), k);
  }

  /** Sorting depends only on which rows there are, not on their current order. */
  lemma SortDependsOnRowsOnly(p: seq<Row>, q: seq<Row>, k: nat)
    requires HasField(p, k) && HasField(q, k) && multiset(p) == multiset(q)
    ensures SortAscending(p, k) == SortAscending(q, k)
  {
    SortAscendingOrdered(p, k);
    SortAscendingOrdered(q, k);
    AscendingUnique(SortAscending(p, k), SortAscending(q, k), k);
  }

  /** Sorting ascending and then descending gives the exact reverse of the ascending result. */
  lemma AscendingThenDescending(rows: seq<Row>, k: nat)
    requires HasField(rows, k)
    ensures HasField(SortAscending(rows, k), k)
    ensures SortDescending(SortAscending(rows, k), k) == Reverse(SortAscending(rows, k))
  {
    var a := SortAscending(rows, k);
    SortAscendingOrdered(rows, k);
    SortAscendingOrdered(a, k);
    AscendingUnique(SortAscending(a, k), a, k);
  }

  /** Rows already in order are left where they are by the ascending sort. */
  lemma SortAscendingOfAscending(rows: seq<Row>, k: nat)
    requires HasField(rows, k) && Ascending(rows, k)
    ensures SortAscending(rows, k) == rows
  {
    SortAscendingOrdered(rows, k);
    AscendingUnique(SortAscending(rows, k), rows, k);
  }

  /** Sorting a sorted table again, in the same order, changes nothing. */
  lemma SortIdempotent(rows: seq<Row>, k: nat)
    requires HasField(rows, k)
    ensures HasField(SortAscending(rows, k), k) && HasField(SortDescending(rows, k), k)
    ensures SortAscending(SortAscending(rows, k), k) == SortAscending(rows, k)
    ensures SortDescending(SortDescending(rows, k), k) == SortDescending(rows, k)
  {
    SortAscendingOrdered(rows, k);
    SortAscendingOfAscending(SortAscending(rows, k), k);
    SortDescendingSpec(rows, k);
    SortDependsOnRowsOnly(SortDescending(rows, k), rows, k);
  }
}
