/** Sums of real numbers, as numpy's and Python's `sum` over exact reals. */
module RealSums {

  function Sum(s: seq<real>): real {
    if s == [] then 0.0 else Sum(s[..|s| - 1]) + s[|s| - 1]
  }

  /** Positive numbers that add up to one. */
  predicate Weights(w: seq<real>) {
    w != [] && (forall k :: 0 <= k < |w| ==> w[k] > 0.0) && Sum(w) == 1.0
  }

  lemma {:induction false} SumAppend(a: seq<real>, b: seq<real>)
    ensures Sum(a + b) == Sum(a) + Sum(b)
  {
    if b == [] {
      assert a + b == a;
    } else {
      SumAppend(a, b[..|b| - 1]);
      assert (a + b)[..|a + b| - 1] == a + b[..|b| - 1];
    }
  }

  /** A sum does not depend on the order of its terms. */
  lemma {:induction false} SumOfPermutation(a: seq<real>, b: seq<real>)
    requires multiset(a) == multiset(b)
    ensures Sum(a) == Sum(b)
    decreases |a|
  {
    if a == [] {
      assert |multiset(b)| == 0;
    } else {
      var n := |a| - 1;
      assert a == a[..n] + [a[n]];
      assert a[n] in multiset(b);
      var j :| 0 <= j < |b| && b[j] == a[n];
      var c := b[..j] + b[j + 1..];
      assert b == b[..j] + ([b[j]] + b[j + 1..]);
      assert multiset(b) == multiset(b[..j]) + multiset{b[j]} + multiset(b[j + 1..]);
      assert multiset(a) == multiset(a[..n]) + multiset{a[n]};
      assert multiset(c) == multiset(b) - multiset{b[j]};
      assert multiset(a[..n]) == multiset(a) - multiset{a[n]};
      SumOfPermutation(a[..n], c);
      SumAppend(b[..j], [b[j]] + b[j + 1..]);
      SumAppend([b[j]], b[j + 1..]);
      SumAppend(b[..j], b[j + 1..]);
      assert Sum([b[j]]) == b[j] by {
        assert [b[j]][..0] == [];
      }
    }
  }

  lemma {:induction false} SumScaled(a: seq<real>, b: seq<real>, c: real)
    requires |a| == |b| && forall i :: 0 <= i < |a| ==> b[i] == a[i] * c
    ensures Sum(b) == Sum(a) * c
  {
    if a == [] {
    } else {
      var n := |a| - 1;
      SumScaled(a[..n], b[..n], c);
      assert (Sum(a[..n]) + a[n]) * c == Sum(a[..n]) * c + a[n] * c;
    }
  }

  lemma {:induction false} SumAdded(a: seq<real>, b: seq<real>, c: seq<real>)
    requires |a| == |b| == |c| && forall i :: 0 <= i < |a| ==> c[i] == a[i] + b[i]
    ensures Sum(c) == Sum(a) + Sum(b)
  {
    if a == [] {
    } else {
      var n := |a| - 1;
      SumAdded(a[..n], b[..n], c[..n]);
    }
  }

  lemma {:induction false} SumOrdered(a: seq<real>, b: seq<real>)
    requires |a| == |b| && forall i :: 0 <= i < |a| ==> a[i] <= b[i]
    ensures Sum(a) <= Sum(b)
    ensures (exists i :: 0 <= i < |a| && a[i] < b[i]) ==> Sum(a) < Sum(b)
  {
    if a == [] {
    } else {
      var n := |a| - 1;
      SumOrdered(a[..n], b[..n]);
      if i :| 0 <= i < |a| && a[i] < b[i] {
        if i < n {
          assert a[..n][i] < b[..n][i];
        }
      }
    }
  }

  function Constant(n: nat, x: real): (r: seq<real>)
    ensures |r| == n && forall i :: 0 <= i < n ==> r[i] == x
  {
    seq(n, _ => x)
  }

  lemma {:induction false} SumConstant(n: nat, x: real)
    ensures Sum(Constant(n, x)) == n as real * x
  {
    if n == 0 {
    } else {
      SumConstant(n - 1, x);
      assert Constant(n, x)[..n - 1] == Constant(n - 1, x);
      assert n as real * x == (n - 1) as real * x + x;
    }
  }

  /** A sum of non-negative terms of which one is positive is positive. */
  lemma SumPositive(a: seq<real>, i: nat)
    requires (forall k :: 0 <= k < |a| ==> a[k] >= 0.0) && i < |a| && a[i] > 0.0
    ensures Sum(a) > 0.0
  {
    SumOrdered(Constant(|a|, 0.0), a);
    SumConstant(|a|, 0.0);
    assert Constant(|a|, 0.0)[i] < a[i];
  }
}
