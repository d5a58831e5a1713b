/** The `zipfian` sizes of `generate_alltoallv_message_sizes` in
    simulation/run.py: every source spreads `base` bytes over its destinations
    by weight, truncates, and scales the result back up to `base`.  Weights are
    any positive exact reals that add up to one.  */
module Zipfian {
  import opened Arithmetic
  import opened RealSums
  import opened RealArithmetic
  import opened Grids

  /** The weights of the destinations; a group of one server has none. */
  predicate PeerWeights(w: seq<real>) {
    w == [] || Weights(w)
  }

  /** `base_size * weight` */
  function Share(base: nat, weight: real): real {
    base as real * weight
  }

  /** The share of every destination, nothing for the source itself. */
  function Wanted(base: nat, w: seq<real>, src: nat): (r: seq<real>)
    requires src <= |w|
    ensures |r| == |w| + 1 && r[src] == 0.0
    ensures forall k :: 0 <= k < src ==> r[k] == Share(base, w[k])
    ensures forall k :: src < k <= |w| ==> r[k] == Share(base, w[k - 1])
  {
    seq(|w| + 1, k requires 0 <= k <= |w| =>
      if k == src then 0.0 else Share(base, w[if k < src then k else k - 1]))
  }

  lemma WantedNonNegative(base: nat, w: seq<real>, src: nat)
    requires PeerWeights(w) && src <= |w|
    ensures NonNegative(Wanted(base, w, src))
  {
    forall k | 0 <= k < |w| ensures Share(base, w[k]) >= 0.0 {
      assert w[k] > 0.0;
    }
  }

  /** The row before it is scaled back. */
  function Flows(base: nat, w: seq<real>, src: nat): (r: seq<nat>)
    requires PeerWeights(w) && src <= |w|
    ensures |r| == |w| + 1
  {
    WantedNonNegative(base, w, src);
    Truncated(Wanted(base, w, src))
  }

  /** `size * scale_factor` */
  function Scaled(flows: seq<nat>, factor: real): (r: seq<real>)
    requires factor >= 0.0
    ensures |r| == |flows| && forall k :: 0 <= k < |flows| ==> r[k] == flows[k] as real * factor
    ensures NonNegative(r)
  {
    seq(|flows|, k requires 0 <= k < |flows| => flows[k] as real * factor)
  }

  function Factor(base: nat, total: nat): (f: real)
    requires total > 0
    ensures f >= 0.0
  {
    FactorTimes(base, total);
    base as real / total as real
  }

  lemma FactorTimes(base: nat, total: nat)
    requires total > 0
    ensures var f := base as real / total as real;
      f >= 0.0 && total as real * f == base as real && (total <= base ==> f >= 1.0)
  {
    var b, t := base as real, total as real;
    Quotient(b, t, b / t);
    QuotientCompare(b, t, b / t, 1.0, t);
  }

  /** The row that is written: scaled back and truncated again. */
  function ZipfianRow(base: nat, w: seq<real>, src: nat): (r: seq<nat>)
    requires PeerWeights(w) && src <= |w|
    ensures |r| == |w| + 1
  {
    var flows := Flows(base, w, src);
    if Total(flows) > 0 then Truncated(Scaled(flows, Factor(base, Total(flows)))) else flows
  }

  function ZipfianMatrix(base: nat, w: seq<real>): (m: seq<seq<nat>>)
    requires PeerWeights(w)
    ensures |m| == |w| + 1 && forall i :: 0 <= i <= |w| ==> m[i] == ZipfianRow(base, w, i)
  {
    seq(|w| + 1, i requires 0 <= i <= |w| => ZipfianRow(base, w, i))
  }

  // ------------------------------------------------------------ row totals

  function AsReals(s: seq<nat>): (r: seq<real>)
    ensures |r| == |s| && forall k :: 0 <= k < |s| ==> r[k] == s[k] as real
  {
    seq(|s|, k requires 0 <= k < |s| => s[k] as real)
  }

  lemma {:induction false} TotalAsSum(s: seq<nat>)
    ensures Sum(AsReals(s)) == Total(s) as real
    ensures forall k :: 0 <= k < |s| ==> s[k] <= Total(s)
  {
    if s == [] {
    } else {
      TotalAsSum(s[..|s| - 1]);
      assert AsReals(s)[..|s| - 1] == AsReals(s[..|s| - 1]);
      assert forall k :: 0 <= k < |s| - 1 ==> s[..|s| - 1][k] == s[k];
    }
  }

  function Shares(base: nat, w: seq<real>): (r: seq<real>)
    ensures |r| == |w| && forall k :: 0 <= k < |w| ==> r[k] == Share(base, w[k])
  {
    seq(|w|, k requires 0 <= k < |w| => Share(base, w[k]))
  }

  lemma SharesTotal(base: nat, w: seq<real>)
    ensures Sum(Shares(base, w)) == Sum(w) * base as real
  {
    SumScaled(w, Shares(base, w), base as real);
  }

  /** What a source wants to send adds up to `base`. */
  lemma WantedTotal(base: nat, w: seq<real>, src: nat)
    requires Weights(w) && src <= |w|
    ensures Sum(Wanted(base, w, src)) == base as real
  {
    hide Sum, Wanted, Shares, Share;
    var p, q := w[..src], w[src..];
    WantedSplits(base, w, src);
    SumAppend(Shares(base, p), [0.0] + Shares(base, q));
    SumAppend([0.0], Shares(base, q));
    SumOfZero();
    SharesTotal(base, p);
    SharesTotal(base, q);
    SumAppend(p, q);
    assert w == p + q;
    Distribute(Sum(p), Sum(q), base as real);
  }

  lemma SumOfZero()
    ensures Sum([0.0]) == 0.0
  {
    assert [0.0][..0] == [];
  }

  lemma WantedSplits(base: nat, w: seq<real>, src: nat)
    requires src <= |w|
    ensures Wanted(base, w, src) == Shares(base, w[..src]) + ([0.0] + Shares(base, w[src..]))
  {
    hide Share, Wanted, Shares;
    var r := Wanted(base, w, src);
    var x, y := Shares(base, w[..src]), Shares(base, w[src..]);
    forall k | 0 <= k < |r| ensures r[k] == (x + ([0.0] + y))[k] {
    }
  }

  lemma Distribute(x: real, y: real, b: real)
    requires x + y == 1.0
    ensures x * b + y * b == b
  {
    assert (x + y) * b == x * b + y * b;
  }

  /** Truncating never sends more than `base`, and sends nothing at all exactly
      when every destination's share is less than a byte.  */
  lemma FlowsTotal(base: nat, w: seq<real>, src: nat)
    requires Weights(w) && src <= |w|
    ensures Total(Flows(base, w, src)) <= base
    ensures Total(Flows(base, w, src)) == 0 <==> forall k :: 0 <= k < |w| ==> Share(base, w[k]) < 1.0
  {
    hide Sum, Total, Positives, Weights, Flows, Truncate;
    var flows := Flows(base, w, src);
    WantedTotal(base, w, src);
    FlowsAre(base, w, src);
    TruncationLoss(Wanted(base, w, src));
    TotalAsSum(flows);
    if Total(flows) == 0 {
      forall k | 0 <= k < |w| ensures Share(base, w[k]) < 1.0 {
        FlowAt(base, w, src, k);
      }
    } else {
      NothingLeft(base, w, src);
    }
  }

  lemma NothingLeft(base: nat, w: seq<real>, src: nat)
    requires PeerWeights(w) && src <= |w|
    ensures (forall k :: 0 <= k < |w| ==> Share(base, w[k]) < 1.0) ==> Total(Flows(base, w, src)) == 0
  {
    hide Flows, Total;
    var flows := Flows(base, w, src);
    if forall k :: 0 <= k < |w| ==> Share(base, w[k]) < 1.0 {
      forall p | 0 <= p < |flows| ensures flows[p] == 0 {
        SelfFlow(base, w, src);
        if p < src {
          FlowAt(base, w, src, p);
        } else if p > src {
          FlowAt(base, w, src, p - 1);
        }
      }
      ZeroTotal(flows);
    }
  }

  lemma FlowsAre(base: nat, w: seq<real>, src: nat)
    requires PeerWeights(w) && src <= |w|
    ensures NonNegative(Wanted(base, w, src)) && Flows(base, w, src) == Truncated(Wanted(base, w, src))
  {
    WantedNonNegative(base, w, src);
  }

  /** A destination's flow is empty exactly when its share is less than a byte. */
  lemma FlowAt(base: nat, w: seq<real>, src: nat, k: nat)
    requires PeerWeights(w) && src <= |w| && k < |w|
    ensures Flows(base, w, src)[if k < src then k else k + 1] == 0 <==> Share(base, w[k]) < 1.0
  {
    hide Share;
    WantedNonNegative(base, w, src);
    var p := if k < src then k else k + 1;
    assert Wanted(base, w, src)[p] == Share(base, w[k]);
  }

  lemma {:induction false} ZeroTotal(s: seq<nat>)
    requires forall k :: 0 <= k < |s| ==> s[k] == 0
    ensures Total(s) == 0
  {
    if s == [] {
    } else {
      ZeroTotal(s[..|s| - 1]);
    }
  }

  /** A source sends nothing to itself; it sends `base` bytes less at most one
      per destination, unless every share was cut to nothing.  */
  lemma ZipfianRowTotal(base: nat, w: seq<real>, src: nat)
    requires Weights(w) && src <= |w|
    ensures ZipfianRow(base, w, src)[src] == 0
    ensures (exists k :: 0 <= k < |w| && Share(base, w[k]) >= 1.0)
      ==> base - |w| < Total(ZipfianRow(base, w, src)) <= base
    ensures (forall k :: 0 <= k < |w| ==> Share(base, w[k]) < 1.0)
      ==> Total(ZipfianRow(base, w, src)) == 0
  {
    hide Sum, Total, Positives, Flows, Weights;
    var flows := Flows(base, w, src);
    FlowsTotal(base, w, src);
    SelfFlow(base, w, src);
    if Total(flows) > 0 {
      ScaledBack(base, flows, src);
    }
  }

  lemma SelfFlow(base: nat, w: seq<real>, src: nat)
    requires PeerWeights(w) && src <= |w|
    ensures Flows(base, w, src)[src] == 0
  {
  }

  /** Scaling a row back to `base` and truncating again. */
  lemma ScaledBack(base: nat, flows: seq<nat>, z: nat)
    requires 0 < Total(flows) <= base && z < |flows| && flows[z] == 0
    ensures var xs := Scaled(flows, Factor(base, Total(flows)));
      Truncated(xs)[z] == 0 && base - (|flows| - 1) < Total(Truncated(xs)) <= base
  {
    hide Sum, Total, Positives, Truncate, Factor;
    var xs := Scaled(flows, Factor(base, Total(flows)));
    ScaledSum(base, flows);
    TruncationLoss(xs);
    PositivesBound(xs, z);
    TruncateZero();
  }

  lemma TruncateZero()
    ensures Truncate(0.0) == 0
  {
  }

  lemma ScaledSum(base: nat, flows: seq<nat>)
    requires Total(flows) > 0
    ensures Sum(Scaled(flows, Factor(base, Total(flows)))) == base as real
  {
    hide Sum, Total;
    var total := Total(flows);
    FactorTimes(base, total);
    TotalAsSum(flows);
    SumScaled(AsReals(flows), Scaled(flows, Factor(base, total)), Factor(base, total));
  }

  // ------------------------------------------------------------ when a row is exact

  /** Truncation loses nothing exactly if every entry is a whole number. */
  lemma {:induction false} TruncationExact(xs: seq<real>)
    requires NonNegative(xs)
    ensures Total(Truncated(xs)) as real == Sum(xs)
      <==> forall k :: 0 <= k < |xs| ==> Truncate(xs[k]) as real == xs[k]
  {
    if xs == [] {
    } else {
      var n := |xs| - 1;
      TruncationExact(xs[..n]);
      TruncationLoss(xs[..n]);
      assert Truncated(xs)[..n] == Truncated(xs[..n]);
      assert forall k :: 0 <= k < n ==> xs[..n][k] == xs[k];
    }
  }

  /** `size * base / total` is a whole number exactly if the division leaves
      no remainder.  */
  lemma WholeExactlyWhen(size: nat, base: nat, total: nat, x: real)
    requires total > 0 && x >= 0.0 && x * total as real == (size * base) as real
    ensures Truncate(x) as real == x <==> (size * base) % total == 0
  {
    var p, q := size * base, Truncate(x);
    if q as real == x {
      assert (q * total) as real == q as real * total as real;
      assert p == q * total;
      DivModUnique(p, total, q, 0);
    }
    if p % total == 0 {
      var d := p / total;
      assert p == d * total;
      assert (d * total) as real == d as real * total as real;
      SameFactor(x, d as real, total as real);
    }
  }

  /** Every flow's part of `base` is a whole number of bytes. */
  predicate Divides(flows: seq<nat>, base: nat)
    requires Total(flows) > 0
  {
    forall k :: 0 <= k < |flows| ==> (flows[k] * base) % Total(flows) == 0
  }

  lemma ScaledTimes(base: nat, flows: seq<nat>, k: nat)
    requires Total(flows) > 0 && k < |flows|
    ensures Scaled(flows, Factor(base, Total(flows)))[k] * Total(flows) as real == (flows[k] * base) as real
  {
    hide Total;
    var t, f, n := Total(flows) as real, Factor(base, Total(flows)), flows[k] as real;
    FactorTimes(base, Total(flows));
    assert (n * f) * t == n * (t * f);
    assert n * base as real == (flows[k] * base) as real;
  }

  lemma ScaledExactly(base: nat, flows: seq<nat>)
    requires Total(flows) > 0
    ensures Total(Truncated(Scaled(flows, Factor(base, Total(flows))))) == base <==> Divides(flows, base)
  {
    hide Total, Truncate, Factor, Sum;
    var xs := Scaled(flows, Factor(base, Total(flows)));
    ScaledSum(base, flows);
    TruncationExact(xs);
    forall k | 0 <= k < |xs|
      ensures Truncate(xs[k]) as real == xs[k] <==> (flows[k] * base) % Total(flows) == 0
    {
      ScaledTimes(base, flows, k);
      WholeExactlyWhen(flows[k], base, Total(flows), xs[k]);
    }
  }

  /** A row with flows adds up to exactly `base` if and only if every flow's part
      of `base` is a whole number; a row without flows only if `base` is zero.  */
  lemma RowExactlyWhen(base: nat, w: seq<real>, src: nat)
    requires PeerWeights(w) && src <= |w|
    ensures Total(ZipfianRow(base, w, src)) == base
      <==> if Total(Flows(base, w, src)) > 0 then Divides(Flows(base, w, src), base) else base == 0
  {
    hide Total, Flows, Divides, Truncated, Scaled, Factor, Weights;
    var flows := Flows(base, w, src);
    if Total(flows) > 0 {
      ScaledExactly(base, flows);
    }
  }

  // ------------------------------------------------------------ which destination gets what

  /** Scaling and truncating is one integer division. */
  lemma ScaledAt(base: nat, flows: seq<nat>, k: nat)
    requires Total(flows) > 0 && k < |flows|
    ensures Truncated(Scaled(flows, Factor(base, Total(flows))))[k] == flows[k] * base / Total(flows)
  {
    hide Total, Factor, Truncate;
    var x := Scaled(flows, Factor(base, Total(flows)))[k];
    ScaledTimes(base, flows, k);
    WholePart(x, flows[k] * base, Total(flows));
  }

  lemma WholePart(x: real, p: nat, total: nat)
    requires total > 0 && x >= 0.0 && x * total as real == p as real
    ensures Truncate(x) == p / total
  {
    var t, q := total as real, Truncate(x);
    assert (x - q as real) * t == p as real - q as real * t;
    ProductSign(x - q as real, t, (p - q * total) as real);
    assert (q as real + 1.0 - x) * t == q as real * t + t - p as real;
    ProductSign(q as real + 1.0 - x, t, (q * total + total - p) as real);
    DivModUnique(p, total, q, p - q * total);
  }

  /** A row of the generated list: nothing to `src` itself; the other
      destinations, in order, have their weights' shares of `base`, cut to
      whole bytes, and these are scaled back to `base` and cut again.  */
  ghost predicate RowFollows(row: seq<nat>, base: nat, w: seq<real>, src: nat) {
    && |row| == |w| + 1 && src <= |w| && row[src] == 0
    && exists cut: seq<nat> :: CutShares(cut, base, w) && ScaledRow(row, cut, base, src)
  }

  ghost predicate CutShares(cut: seq<nat>, base: nat, w: seq<real>) {
    |cut| == |w| &&
    forall k :: 0 <= k < |w| ==> cut[k] as real <= base as real * w[k] < cut[k] as real + 1.0
  }

  /** The part of `base` that a flow has in the total, in whole bytes. */
  function PartOf(flow: nat, base: nat, total: nat): nat {
    if total > 0 then flow * base / total else 0
  }

  predicate ScaledRow(row: seq<nat>, cut: seq<nat>, base: nat, src: nat) {
    |row| == |cut| + 1 &&
    forall k :: 0 <= k < |cut| ==>
      row[if k < src then k else k + 1] == PartOf(cut[k], base, Total(cut))
  }

  lemma {:induction false} TotalAppend(a: seq<nat>, b: seq<nat>)
    ensures Total(a + b) == Total(a) + Total(b)
  {
    if b == [] {
      assert a + b == a;
    } else {
      TotalAppend(a, b[..|b| - 1]);
      assert (a + b)[..|a + b| - 1] == a + b[..|b| - 1];
    }
  }

  /** The flows of the others, without the empty one. */
  lemma WithoutSelf(flows: seq<nat>, src: nat)
    requires src < |flows| && flows[src] == 0
    ensures Total(flows[..src] + flows[src + 1..]) == Total(flows)
  {
    hide Total;
    var a, b := flows[..src], flows[src + 1..];
    TotalAppend(a, b);
    TotalAppend(a, [0] + b);
    TotalAppend([0], b);
    assert flows == a + ([0] + b);
    TotalOfZero();
  }

  lemma TotalOfZero()
    ensures Total([0]) == 0
  {
    assert [0][..0] == [];
  }

  lemma ZipfianRowFollows(base: nat, w: seq<real>, src: nat)
    requires PeerWeights(w) && src <= |w|
    ensures RowFollows(ZipfianRow(base, w, src), base, w, src)
  {
    var flows, row := Flows(base, w, src), ZipfianRow(base, w, src);
    hide Total, Weights, Factor;
    SelfFlow(base, w, src);
    WithoutSelf(flows, src);
    var cut := flows[..src] + flows[src + 1..];
    hide Flows, ZipfianRow, PeerWeights;
    CutsAreShares(base, w, src, cut);
    RowIsScaled(base, w, src, cut);
    NothingToSelf(base, w, src);
    assert CutShares(cut, base, w) && ScaledRow(row, cut, base, src);
  }

  lemma NothingToSelf(base: nat, w: seq<real>, src: nat)
    requires PeerWeights(w) && src <= |w|
    ensures ZipfianRow(base, w, src)[src] == 0
  {
    hide Flows, Total;
    SelfFlow(base, w, src);
    RowAt(base, w, src, src, 0, Total(Flows(base, w, src)));
  }

  lemma CutsAreShares(base: nat, w: seq<real>, src: nat, cut: seq<nat>)
    requires PeerWeights(w) && src <= |w|
    requires cut == Flows(base, w, src)[..src] + Flows(base, w, src)[src + 1..]
    ensures CutShares(cut, base, w)
  {
    hide Flows, PeerWeights;
    forall k | 0 <= k < |w| ensures cut[k] as real <= base as real * w[k] < cut[k] as real + 1.0 {
      CutShareAt(base, w, src, k);
      assert cut[k] == Flows(base, w, src)[if k < src then k else k + 1];
    }
  }

  lemma RowIsScaled(base: nat, w: seq<real>, src: nat, cut: seq<nat>)
    requires PeerWeights(w) && src <= |w| && Total(cut) == Total(Flows(base, w, src))
    requires cut == Flows(base, w, src)[..src] + Flows(base, w, src)[src + 1..]
    ensures ScaledRow(ZipfianRow(base, w, src), cut, base, src)
  {
    hide Flows, Total, ZipfianRow, PeerWeights, PartOf;
    forall k | 0 <= k < |cut|
      ensures ZipfianRow(base, w, src)[if k < src then k else k + 1]
           == PartOf(cut[k], base, Total(cut))
    {
      RowAt(base, w, src, if k < src then k else k + 1, cut[k], Total(cut));
    }
  }

  lemma CutShareAt(base: nat, w: seq<real>, src: nat, k: nat)
    requires PeerWeights(w) && src <= |w| && k < |w|
    ensures var f := Flows(base, w, src)[if k < src then k else k + 1] as real;
      f <= base as real * w[k] < f + 1.0
  {
    var p := if k < src then k else k + 1;
    WantedNonNegative(base, w, src);
    assert Wanted(base, w, src)[p] == Share(base, w[k]);
  }

  /** Entry `p`, from the flow `f` before scaling and the total `t` of all flows. */
  lemma RowAt(base: nat, w: seq<real>, src: nat, p: nat, f: nat, t: nat)
    requires PeerWeights(w) && src <= |w| && p <= |w|
    requires f == Flows(base, w, src)[p] && t == Total(Flows(base, w, src))
    ensures ZipfianRow(base, w, src)[p] == PartOf(f, base, t)
  {
    hide Flows, Total, Weights;
    var flows := Flows(base, w, src);
    if t > 0 {
      ScaledAt(base, flows, p);
    } else {
      TotalAsSum(flows);
    }
  }

  /** Ten bytes over two destinations with weights 1/3 and 2/3: nine are sent. */
  lemma TenBytesBecomeNine()
    ensures Weights([1.0 / 3.0, 2.0 / 3.0])
    ensures Total(ZipfianRow(10, [1.0 / 3.0, 2.0 / 3.0], 0)) == 9
  {
    var w := [1.0 / 3.0, 2.0 / 3.0];
    assert w[..1] == [1.0 / 3.0] && w[..1][..0] == [];
    assert Sum(w) == Sum(w[..1]) + 2.0 / 3.0 && Sum(w[..1]) == Sum([]) + 1.0 / 3.0;
    TotalOfThree(0, 3, 6);
    RowOfTen(w);
  }

  lemma RowOfTen(w: seq<real>)
    requires w == [1.0 / 3.0, 2.0 / 3.0] && Weights(w) && Total([0, 3, 6]) == 9
    ensures ZipfianRow(10, w, 0) == [0, 3, 6]
  {
    hide Total, Weights;
    var flows := Flows(10, w, 0);
    assert flows[0] == 0 && flows[1] == 3 && flows[2] == 6;
    assert flows == [0, 3, 6];
    var f := Factor(10, 9);
    assert f == 10.0 / 9.0;
    var row := ZipfianRow(10, w, 0);
    assert row[0] == 0 && row[1] == 3 && row[2] == 6;
  }

  lemma TotalOfThree(a: nat, b: nat, c: nat)
    ensures Total([a, b, c]) == a + b + c
  {
    assert [a, b, c][..2] == [a, b] && [a, b][..1] == [a] && [a][..0] == [];
    assert Total([a]) == Total([]) + a && Total([a, b]) == Total([a]) + b;
  }

  /** Scaling back never takes bytes from a flow. */
  lemma ScalingOnlyAdds(base: nat, w: seq<real>, src: nat, k: nat)
    requires Weights(w) && src <= |w| && k <= |w|
    ensures ZipfianRow(base, w, src)[k] >= Flows(base, w, src)[k]
  {
    hide Sum, Total, Flows, Weights;
    FlowsTotal(base, w, src);
    var flows := Flows(base, w, src);
    if Total(flows) > 0 {
      var f := Factor(base, Total(flows));
      FactorTimes(base, Total(flows));
      ProductMonotone(1.0, f, flows[k] as real, flows[k] as real, Scaled(flows, f)[k]);
      assert ZipfianRow(base, w, src) == Truncated(Scaled(flows, f));
    }
  }

  // ------------------------------------------------------------ the generator

  method SumOf(s: seq<nat>) returns (total: nat)
    ensures total == Total(s)
  {
    total := 0;
    for k := 0 to |s|
      invariant total == Total(s[..k])
    {
      assert s[..k + 1][..k] == s[..k];
      total := total + s[k];
    }
    assert s[..|s|] == s;
  }

  method SourceRow(base: nat, w: seq<real>, src: nat) returns (flowSizes: seq<nat>)
    requires PeerWeights(w) && src <= |w|
    ensures flowSizes == ZipfianRow(base, w, src)
  {
    hide Total, Sum, Share, Wanted;
    WantedNonNegative(base, w, src);
    flowSizes := [];
    var weightIdx := 0;
    for dst := 0 to |w| + 1
      invariant weightIdx == if dst <= src then dst else dst - 1
      invariant flowSizes == Flows(base, w, src)[..dst]
    {
      if src == dst {
        flowSizes := flowSizes + [0];
      } else {
        assert Wanted(base, w, src)[dst] == Share(base, w[weightIdx]);
        flowSizes := flowSizes + [Truncate(Share(base, w[weightIdx]))];
        weightIdx := weightIdx + 1;
      }
    }
    assert Flows(base, w, src)[..|w| + 1] == Flows(base, w, src);
    var totalSent := SumOf(flowSizes);
    if totalSent > 0 {
      flowSizes := RescaleList(flowSizes, Factor(base, totalSent));
    }
  }

  /** The list comprehension that scales a row; it skips empty flows. */
  method RescaleList(flows: seq<nat>, factor: real) returns (r: seq<nat>)
    requires factor >= 0.0
    ensures r == Truncated(Scaled(flows, factor))
  {
    r := [];
    for k := 0 to |flows|
      invariant r == Truncated(Scaled(flows, factor))[..k]
    {
      var scaled := flows[k] as real * factor;
      NonNegativeProduct(flows[k] as real, factor, scaled);
      TruncateZero();
      assert scaled == Scaled(flows, factor)[k];
      r := r + [if flows[k] > 0 then Truncate(scaled) else 0];
    }
  }

  method ZipfianSizes(base: nat, w: seq<real>) returns (sizes: seq<nat>)
    requires PeerWeights(w)
    ensures sizes == Flat(ZipfianMatrix(base, w)) && |sizes| == (|w| + 1) * (|w| + 1)
    ensures forall src: nat :: src <= |w| ==> ListFollows(sizes, base, w, src)
  {
    hide ZipfianRow, RowFollows;
    sizes := [];
    ghost var m := ZipfianMatrix(base, w);
    for src := 0 to |w| + 1
      invariant sizes == Flat(m[..src])
    {
      var row := SourceRow(base, w, src);
      assert m[..src + 1][..src] == m[..src];
      sizes := sizes + row;
    }
    assert m[..|w| + 1] == m;
    FlatLength(m, |w| + 1);
    forall src: nat | src <= |w| ensures ListFollows(sizes, base, w, src) {
      FlatRow(m, |w| + 1, src);
      ZipfianRowFollows(base, w, src);
    }
  }

  ghost predicate ListFollows(sizes: seq<nat>, base: nat, w: seq<real>, src: nat)
    requires |sizes| == (|w| + 1) * (|w| + 1) && src <= |w|
  {
    RowFollows(RowOfList(sizes, |w| + 1, src), base, w, src)
  }

  /** What server `i` sends, in a row-major list. */
  function RowOfList(sizes: seq<nat>, n: nat, i: nat): seq<nat>
    requires i < n && |sizes| == n * n
  {
    MulMonotone(i + 1, n, n);
    assert (i + 1) * n == i * n + n;
    sizes[i * n..i * n + n]
  }
}
