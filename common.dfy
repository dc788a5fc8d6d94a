/** Shared value types and the list operations the pages use (JavaScript's
    `filter`, sums of numeric columns, order-preserving sub-lists). */
module Common {

  /** A value that may be absent: `null`/`undefined`, or a number that is NaN. */
  datatype Option<+T> = None | Some(value: T)

  /** The answer to a request: the error's message, or the response. */
  datatype Outcome<+T> = Failure(message: string) | Success(value: T)

  /** `a` is obtained from `b` by deleting elements, keeping the relative order. */
  predicate IsSubsequence<T(==)>(a: seq<T>, b: seq<T>)
  {
    if b == [] then a == []
    else (a != [] && a[0] == b[0] && IsSubsequence(a[1..], b[1..])) || IsSubsequence(a, b[1..])
  }

  /** `Array.prototype.filter`: the elements satisfying `p`, in their original order. */
  function Filter<T>(s: seq<T>, p: T -> bool): (r: seq<T>)
    ensures |r| <= |s|
    ensures forall i :: 0 <= i < |r| ==> r[i] in s && p(r[i])
    ensures forall i :: 0 <= i < |s| && p(s[i]) ==> s[i] in r
    ensures IsSubsequence(r, s)
  {
    if s == [] then []
    else if p(s[0]) then
      var tail := Filter(s[1..], p);
      assert ([s[0]] + tail)[1..] == tail;
      [s[0]] + tail
    else Filter(s[1..], p)
  }

  /** When every element satisfies `p`, the filter keeps the whole list. */
  lemma {:induction false} FilterAll<T>(s: seq<T>, p: T -> bool)
    requires forall i :: 0 <= i < |s| ==> p(s[i])
    ensures Filter(s, p) == s
  {
    if s != [] {
      FilterAll(s[1..], p);
    }
  }

  /** Filtering by two predicates that agree on every element of the list
      gives the same result. */
  lemma {:induction false} FilterCongruent<T>(s: seq<T>, p: T -> bool, q: T -> bool)
    requires forall i :: 0 <= i < |s| ==> p(s[i]) == q(s[i])
    ensures Filter(s, p) == Filter(s, q)
  {
    if s != [] {
      FilterCongruent(s[1..], p, q);
    }
  }

  /** Number of elements satisfying `p`. */
  function Count<T>(s: seq<T>, p: T -> bool): (n: nat)
    ensures n <= |s|
  {
    if s == [] then 0 else (if p(s[0]) then 1 else 0) + Count(s[1..], p)
  }

  /** Counting by two predicates that agree on every element of the list
      gives the same number. */
  lemma {:induction false} CountCongruent<T>(s: seq<T>, p: T -> bool, q: T -> bool)
    requires forall i :: 0 <= i < |s| ==> p(s[i]) == q(s[i])
    ensures Count(s, p) == Count(s, q)
  {
    if s != [] {
      CountCongruent(s[1..], p, q);
    }
  }

  /** The filter keeps exactly as many elements as satisfy the predicate. */
  lemma {:induction false} FilterLength<T>(s: seq<T>, p: T -> bool)
    ensures |Filter(s, p)| == Count(s, p)
  {
    if s != [] {
      FilterLength(s[1..], p);
    }
  }

  /** No element occurs twice. */
  predicate Distinct<T(==)>(s: seq<T>)
  {
    forall i, j :: 0 <= i < j < |s| ==> s[i] != s[j]
  }

  /** A list is free of repeats exactly when no element has multiplicity
      above one, so every permutation of such a list is free of them too. */
  lemma {:induction false} DistinctMultiplicity<T>(s: seq<T>)
    ensures Distinct(s) <==> forall x :: multiset(s)[x] <= 1
  {
    if s != [] {
      var n := |s| - 1;
      var front, last := s[..n], s[n];
      assert s == front + [last];
      DistinctMultiplicity(front);
      if Distinct(s) {
        assert Distinct(front) by {
          forall i, j | 0 <= i < j < n ensures front[i] != front[j] {
            assert front[i] == s[i] && front[j] == s[j];
          }
        }
      } else {
        var i, j :| 0 <= i < j < |s| && s[i] == s[j];
        if j < n {
          assert front[i] == front[j];
          var x :| multiset(front)[x] > 1;
          assert multiset(s)[x] > 1;
        } else {
          assert front[i] == last;
          assert multiset(s)[last] > 1;
        }
      }
    }
  }

  /** Filtering a list whose elements have pairwise different keys leaves
      elements with pairwise different keys. */
  lemma {:induction false} FilterKeysDistinct<T, K>(s: seq<T>, p: T -> bool, key: T -> K)
    requires forall i, j :: 0 <= i < j < |s| ==> key(s[i]) != key(s[j])
    ensures forall i, j :: 0 <= i < j < |Filter(s, p)| ==> key(Filter(s, p)[i]) != key(Filter(s, p)[j])
  {
    if s != [] {
      var rest := s[1..];
      assert forall i, j :: 0 <= i < j < |rest| ==> key(rest[i]) != key(rest[j]) by {
        forall i, j | 0 <= i < j < |rest| ensures key(rest[i]) != key(rest[j]) {
          assert rest[i] == s[i + 1] && rest[j] == s[j + 1];
        }
      }
      FilterKeysDistinct(rest, p, key);
      if p(s[0]) {
        var tail := Filter(rest, p);
        var r := [s[0]] + tail;
        forall i, j | 0 <= i < j < |r| ensures key(r[i]) != key(r[j]) {
          if i == 0 {
            assert r[j] == tail[j - 1] && tail[j - 1] in rest;
            var k :| 0 <= k < |rest| && rest[k] == tail[j - 1];
            assert s[k + 1] == r[j];
          } else {
            assert r[i] == tail[i - 1] && r[j] == tail[j - 1];
          }
        }
      }
    }
  }

  /** Filtering a list free of repeats leaves a list free of repeats. */
  lemma {:induction false} FilterDistinct<T>(s: seq<T>, p: T -> bool)
    ensures Distinct(s) ==> Distinct(Filter(s, p))
  {
    if s != [] && Distinct(s) {
      FilterDistinct(s[1..], p);
      if p(s[0]) {
        var tail := Filter(s[1..], p);
        var r := [s[0]] + tail;
        forall i, j | 0 <= i < j < |r| ensures r[i] != r[j] {
          if i == 0 {
            assert r[j] == tail[j - 1] && r[j] in s[1..];
          } else {
            assert r[i] == tail[i - 1] && r[j] == tail[j - 1];
          }
        }
      }
    }
  }

  /** `[...new Set(s)]`: the first occurrence of each element, in order of
      first occurrence. */
  function Dedup<T(==)>(s: seq<T>): (r: seq<T>)
    ensures Distinct(r)
    ensures forall i :: 0 <= i < |s| ==> s[i] in r
    ensures forall i :: 0 <= i < |r| ==> r[i] in s
  {
    if s == [] then []
    else
      var n := |s| - 1;
      var d := Dedup(s[..n]);
      assert s == s[..n] + [s[n]];
      if s[n] in d then d else d + [s[n]]
  }

  /** Sum of a list of amounts. */
  function Sum(s: seq<real>): real
  {
    if s == [] then 0.0 else Sum(s[..|s| - 1]) + s[|s| - 1]
  }

  lemma {:induction false} SumAppend(a: seq<real>, b: seq<real>)
    ensures Sum(a + b) == Sum(a) + Sum(b)
  {
    if b == [] {
      assert a + b == a;
    } else {
      assert (a + b)[..|a + b| - 1] == a + b[..|b| - 1];
      SumAppend(a, b[..|b| - 1]);
    }
  }

  /** A list of zeros sums to zero. */
  lemma {:induction false} SumZeros(s: seq<real>)
    requires forall i :: 0 <= i < |s| ==> s[i] == 0.0
    ensures Sum(s) == 0.0
  {
    if s != [] {
      SumZeros(s[..|s| - 1]);
    }
  }

  /** A list of non-negative amounts has a non-negative sum. */
  lemma {:induction false} SumNonNegative(s: seq<real>)
    requires forall i :: 0 <= i < |s| ==> s[i] >= 0.0
    ensures Sum(s) >= 0.0
  {
    if s != [] {
      SumNonNegative(s[..|s| - 1]);
    }
  }

  /** Pointwise sum of two lists of equal length. */
  function AddPointwise(a: seq<real>, b: seq<real>): (r: seq<real>)
    requires |a| == |b|
    ensures |r| == |a| && forall i :: 0 <= i < |a| ==> r[i] == a[i] + b[i]
  {
    seq(|a|, i requires 0 <= i < |a| => a[i] + b[i])
  }

  lemma {:induction false} SumAddPointwise(a: seq<real>, b: seq<real>)
    requires |a| == |b|
    ensures Sum(AddPointwise(a, b)) == Sum(a) + Sum(b)
  {
    if a != [] {
      var n := |a| - 1;
      assert AddPointwise(a, b)[..n] == AddPointwise(a[..n], b[..n]);
      SumAddPointwise(a[..n], b[..n]);
    }
  }

  /** A grid whose rows all have `width` cells. */
  predicate IsGrid(g: seq<seq<real>>, width: nat)
  {
    forall r :: 0 <= r < |g| ==> |g[r]| == width
  }

  /** Column `c` of a grid, top to bottom. */
  function Column(g: seq<seq<real>>, width: nat, c: nat): (col: seq<real>)
    requires IsGrid(g, width) && c < width
    ensures |col| == |g|
  {
    seq(|g|, r requires 0 <= r < |g| => g[r][c])
  }

  /** The total of every row. */
  function RowTotals(g: seq<seq<real>>): (t: seq<real>)
    ensures |t| == |g| && forall r :: 0 <= r < |g| ==> t[r] == Sum(g[r])
  {
    seq(|g|, r requires 0 <= r < |g| => Sum(g[r]))
  }

  /** The total of every column. */
  function ColumnTotals(g: seq<seq<real>>, width: nat): (t: seq<real>)
    requires IsGrid(g, width)
    ensures |t| == width && forall c :: 0 <= c < width ==> t[c] == Sum(Column(g, width, c))
  {
    seq(width, c requires 0 <= c < width => Sum(Column(g, width, c)))
  }

  /** Adding a row to a grid adds it to the column totals. */
  lemma ColumnTotalsSnoc(g: seq<seq<real>>, width: nat)
    requires IsGrid(g, width) && g != []
    ensures ColumnTotals(g, width) == AddPointwise(ColumnTotals(g[..|g| - 1], width), g[|g| - 1])
  {
    var n := |g| - 1;
    forall c | 0 <= c < width
      ensures ColumnTotals(g, width)[c] == AddPointwise(ColumnTotals(g[..n], width), g[n])[c]
    {
      assert Column(g, width, c)[..n] == Column(g[..n], width, c);
    }
  }

  /** The grand total of a grid is the same whether it is taken over the row
      totals or over the column totals. */
  lemma {:induction false} RowsAndColumnsAgree(g: seq<seq<real>>, width: nat)
    requires IsGrid(g, width)
    ensures Sum(RowTotals(g)) == Sum(ColumnTotals(g, width))
  {
    if g == [] {
      SumZeros(ColumnTotals(g, width));
    } else {
      var n := |g| - 1;
      var top, last := g[..n], g[n];
      assert RowTotals(g)[..n] == RowTotals(top);
      RowsAndColumnsAgree(top, width);
      ColumnTotalsSnoc(g, width);
      SumAddPointwise(ColumnTotals(top, width), last);
    }
  }

  /** One pass over a row: its total, and the running column totals with the
      row added in. */
  method AccumulateRow(row: seq<real>, columnTotals: seq<real>) returns (rowTotal: real, newTotals: seq<real>)
    requires |row| == |columnTotals|
    ensures rowTotal == Sum(row)
    ensures newTotals == AddPointwise(columnTotals, row)
  {
    rowTotal := 0.0;
    newTotals := columnTotals;
    var c := 0;
    while c < |row|
      invariant 0 <= c <= |row| && |newTotals| == |row|
      invariant rowTotal == Sum(row[..c])
      invariant forall c' :: 0 <= c' < |row| ==> newTotals[c'] == columnTotals[c'] + (if c' < c then row[c'] else 0.0)
    {
      assert row[..c + 1][..c] == row[..c];
      rowTotal := rowTotal + row[c];
      newTotals := newTotals[c := newTotals[c] + row[c]];
      c := c + 1;
    }
    assert row[..c] == row;
  }

  /** The totals of a grid, accumulated row by row and, within a row, cell
      by cell: each row's total is the sum of the row, each column's total
      the sum of the column, and the grand total the sum of the row totals,
      which is also the sum of the column totals. */
  method GridTotals(cells: seq<seq<real>>, width: nat) returns (rowTotals: seq<real>, columnTotals: seq<real>, grandTotal: real)
    requires IsGrid(cells, width)
    ensures rowTotals == RowTotals(cells)
    ensures columnTotals == ColumnTotals(cells, width)
    ensures grandTotal == Sum(rowTotals) == Sum(columnTotals)
  {
    var n := |cells|;
    rowTotals := [];
    columnTotals := seq(width, _ => 0.0);
    grandTotal := 0.0;
    var k := 0;
    while k < n
      invariant 0 <= k <= n
      invariant rowTotals == RowTotals(cells[..k])
      invariant columnTotals == ColumnTotals(cells[..k], width)
      invariant grandTotal == Sum(rowTotals)
    {
      var rowTotal;
      ColumnTotalsSnoc(cells[..k + 1], width);
      assert cells[..k + 1][..k] == cells[..k];
      rowTotal, columnTotals := AccumulateRow(cells[k], columnTotals);
      assert RowTotals(cells[..k + 1]) == rowTotals + [rowTotal];
      assert (rowTotals + [rowTotal])[..k] == rowTotals;
      rowTotals := rowTotals + [rowTotal];
      grandTotal := grandTotal + rowTotal;
      k := k + 1;
    }
    assert cells[..k] == cells;
    RowsAndColumnsAgree(cells, width);
  }
}
