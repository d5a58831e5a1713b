/** Matrices: real grids updated in place, their row and column totals, and
    the truncation of real entries to bytes.  */
module Grids {
  import opened Arithmetic
  import opened RealSums
  import opened RealArithmetic

  type Grid = seq<seq<real>>

  /** Every row has `n` entries. */
  predicate Wide(g: Grid, n: nat) {
    forall i :: 0 <= i < |g| ==> |g[i]| == n
  }

  predicate Square(g: Grid) {
    Wide(g, |g|)
  }

  function ColumnOf(g: Grid, n: nat, j: nat): (c: seq<real>)
    requires Wide(g, n) && j < n
    ensures |c| == |g| && forall i :: 0 <= i < |g| ==> c[i] == g[i][j]
  {
    seq(|g|, i requires 0 <= i < |g| => g[i][j])
  }

  function RowTotals(g: Grid): (r: seq<real>)
    ensures |r| == |g| && forall i :: 0 <= i < |g| ==> r[i] == Sum(g[i])
  {
    seq(|g|, i requires 0 <= i < |g| => Sum(g[i]))
  }

  function ColumnTotals(g: Grid, n: nat): (r: seq<real>)
    requires Wide(g, n)
    ensures |r| == n && forall j :: 0 <= j < n ==> r[j] == Sum(ColumnOf(g, n, j))
  {
    seq(n, j requires 0 <= j < n => Sum(ColumnOf(g, n, j)))
  }

  /** What all rows hold is what all columns hold. */
  lemma {:induction false} RowsAndColumnsAgree(g: Grid, n: nat)
    requires Wide(g, n)
    ensures Sum(RowTotals(g)) == Sum(ColumnTotals(g, n))
  {
    if g == [] {
      SumConstant(n, 0.0);
      assert ColumnTotals(g, n) == Constant(n, 0.0);
    } else {
      var m := |g| - 1;
      var p := g[..m];
      RowsAndColumnsAgree(p, n);
      assert RowTotals(g)[..m] == RowTotals(p);
      forall j | 0 <= j < n ensures ColumnTotals(g, n)[j] == ColumnTotals(p, n)[j] + g[m][j] {
        assert ColumnOf(g, n, j)[..m] == ColumnOf(p, n, j);
      }
      SumAdded(ColumnTotals(p, n), g[m], ColumnTotals(g, n));
    }
  }

  // ------------------------------------------------------------ arrays

  ghost function GridOf(a: array2<real>): (g: Grid)
    reads a
    ensures |g| == a.Length0 && Wide(g, a.Length1)
    ensures forall i, j :: 0 <= i < a.Length0 && 0 <= j < a.Length1 ==> g[i][j] == a[i, j]
  {
    seq(a.Length0, i requires 0 <= i < a.Length0 reads a =>
      seq(a.Length1, j requires 0 <= j < a.Length1 reads a => a[i, j]))
  }

  method SumColumn(a: array2<real>, j: nat) returns (s: real)
    requires j < a.Length1
    ensures s == Sum(ColumnOf(GridOf(a), a.Length1, j))
  {
    ghost var c := ColumnOf(GridOf(a), a.Length1, j);
    s := 0.0;
    for i := 0 to a.Length0
      invariant s == Sum(c[..i])
    {
      assert c[..i + 1][..i] == c[..i];
      s := s + a[i, j];
    }
    assert c[..a.Length0] == c;
  }

  method SumRow(a: array2<real>, i: nat) returns (s: real)
    requires i < a.Length0
    ensures s == Sum(GridOf(a)[i])
  {
    ghost var r := GridOf(a)[i];
    s := 0.0;
    for j := 0 to a.Length1
      invariant s == Sum(r[..j])
    {
      assert r[..j + 1][..j] == r[..j];
      s := s + a[i, j];
    }
    assert r[..a.Length1] == r;
  }

  // ------------------------------------------------------------ truncation

  predicate NonNegative(xs: seq<real>) {
    forall k :: 0 <= k < |xs| ==> xs[k] >= 0.0
  }

  function Truncated(xs: seq<real>): (r: seq<nat>)
    requires NonNegative(xs)
    ensures |r| == |xs| && forall k :: 0 <= k < |xs| ==> r[k] == Truncate(xs[k])
  {
    seq(|xs|, k requires 0 <= k < |xs| => Truncate(xs[k]))
  }

  function Total(s: seq<nat>): nat {
    if s == [] then 0 else Total(s[..|s| - 1]) + s[|s| - 1]
  }

  /** How many entries are not zero. */
  function Positives(xs: seq<real>): nat {
    if xs == [] then 0
    else Positives(xs[..|xs| - 1]) + if xs[|xs| - 1] > 0.0 then 1 else 0
  }

  /** Truncating loses less than one byte for each entry that is not zero. */
  lemma {:induction false} TruncationLoss(xs: seq<real>)
    requires NonNegative(xs)
    ensures Total(Truncated(xs)) as real <= Sum(xs)
    ensures Positives(xs) > 0 ==> Sum(xs) - Positives(xs) as real < Total(Truncated(xs)) as real
    ensures Positives(xs) == 0 ==> Sum(xs) == 0.0 && Total(Truncated(xs)) == 0
  {
    if xs == [] {
    } else {
      var n := |xs| - 1;
      TruncationLoss(xs[..n]);
      assert Truncated(xs)[..n] == Truncated(xs[..n]);
    }
  }

  /** With one entry known to be zero, at most the others are positive. */
  lemma {:induction false} PositivesBound(xs: seq<real>, z: nat)
    requires NonNegative(xs)
    ensures Positives(xs) <= |xs|
    ensures z < |xs| && xs[z] == 0.0 ==> Positives(xs) <= |xs| - 1
    ensures (exists k :: 0 <= k < |xs| && xs[k] > 0.0) ==> Positives(xs) > 0
  {
    if xs == [] {
    } else {
      var n := |xs| - 1;
      PositivesBound(xs[..n], z);
      if k :| 0 <= k < |xs| && xs[k] > 0.0 {
        if k < n {
          assert xs[..n][k] > 0.0;
        }
      }
    }
  }

  // ------------------------------------------------------------ row-major lists

  /** The rows one after another. */
  function Flat<T>(rows: seq<seq<T>>): seq<T> {
    if rows == [] then [] else Flat(rows[..|rows| - 1]) + rows[|rows| - 1]
  }

  /** Entry (i, j) is entry i * n + j of the list. */
  lemma {:induction false} FlatAt<T>(m: seq<seq<T>>, n: nat, i: nat, j: nat)
    requires (forall k :: 0 <= k < |m| ==> |m[k]| == n) && i < |m| && j < n
    ensures |Flat(m)| == |m| * n
    ensures i * n + j < |m| * n && Flat(m)[i * n + j] == m[i][j]
  {
    RowMajor(i, j, |m|, n);
    var p := |m| - 1;
    assert |m| * n == p * n + n;
    if i < p {
      RowMajor(i, j, p, n);
      FlatAt(m[..p], n, i, j);
    } else {
      FlatLength(m[..p], n);
    }
  }

  /** Row `i` is a stretch of the list. */
  lemma FlatRow<T>(m: seq<seq<T>>, n: nat, i: nat)
    requires (forall k :: 0 <= k < |m| ==> |m[k]| == n) && i < |m|
    ensures 0 <= i * n && i * n + n <= |Flat(m)| == |m| * n
    ensures Flat(m)[i * n..i * n + n] == m[i]
  {
    hide Flat;
    FlatLength(m, n);
    MulMonotone(i + 1, |m|, n);
    assert (i + 1) * n == i * n + n;
    forall j | 0 <= j < n ensures Flat(m)[i * n..i * n + n][j] == m[i][j] {
      FlatAt(m, n, i, j);
    }
  }

  lemma {:induction false} FlatLength<T>(m: seq<seq<T>>, n: nat)
    requires forall k :: 0 <= k < |m| ==> |m[k]| == n
    ensures |Flat(m)| == |m| * n
  {
    if m == [] {
    } else {
      FlatLength(m[..|m| - 1], n);
      assert |m| * n == (|m| - 1) * n + n;
    }
  }
}
