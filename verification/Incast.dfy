/** The `zipfian_incast` sizes of `generate_alltoallv_message_sizes` in
    simulation/run.py: every receiver is given a target, the target is split
    evenly over the other servers, and what rounding lost is handed to the
    first of them.  Weights are any positive exact reals.  */
module Incast {
  import opened Arithmetic
  import opened Grids
  import opened OptimalJct
  import opened RealArithmetic

  predicate AllPositive(w: seq<real>) {
    forall k :: 0 <= k < |w| ==> w[k] > 0.0
  }

  /** `receiver_totals[j]`: the hottest receiver is scaled to `base`. */
  function ReceiverTotal(base: nat, w: seq<real>, j: nat): (r: real)
    requires AllPositive(w) && j < |w|
    ensures r >= 0.0
  {
    WeightRange(w, j);
    ScaledDown(base as real, w[j], MaxOf(w));
    base as real * (w[j] / MaxOf(w))
  }

  lemma WeightRange(w: seq<real>, j: nat)
    requires AllPositive(w) && j < |w|
    ensures 0.0 < w[j] <= MaxOf(w)
  {
    assert w[j] in w;
  }

  lemma ScaledDown(b: real, x: real, m: real)
    requires b >= 0.0 && 0.0 < x <= m
    ensures 0.0 <= b * (x / m) <= b && 0.0 < x / m <= 1.0
    ensures x == m ==> b * (x / m) == b
  {
    var q := x / m;
    Fraction(x, m, q);
    ProductMonotone(q, 1.0, b, b * q, b);
    NonNegativeProduct(b, q, b * q);
  }

  /** `int(receiver_totals[j])` */
  function Target(base: nat, w: seq<real>, j: nat): nat
    requires AllPositive(w) && j < |w|
  {
    Truncate(ReceiverTotal(base, w, j))
  }

  /** `int(per_sender)`; with a single server there is no sender. */
  function PerSender(base: nat, w: seq<real>, j: nat): (r: nat)
    requires AllPositive(w) && j < |w| && |w| >= 2
  {
    TruncatedQuotient(ReceiverTotal(base, w, j), |w| - 1);
    Truncate(ReceiverTotal(base, w, j) / (|w| - 1) as real)
  }

  /** Truncating a quotient is the integer quotient of the truncation. */
  lemma TruncatedQuotient(x: real, k: int)
    requires x >= 0.0 && k > 0
    ensures x / k as real >= 0.0
    ensures (x / k as real).Floor == x.Floor / k
  {
    var kr := k as real;
    var q := x / kr;
    RealArithmetic.Quotient(x, kr, q);
    var f := q.Floor;
    var low := f * k;
    assert low as real == f as real * kr;
    QuotientCompare(x, kr, q, f as real, low as real);
    QuotientCompare(x, kr, q, f as real + 1.0, low as real + kr);
    DivModUnique(x.Floor, k, f, x.Floor - low);
  }

  /** The first server other than the receiver. */
  function FirstSender(j: nat): nat {
    if j == 0 then 1 else 0
  }

  /** What source `i` sends to destination `j` in the end. */
  function Entry(base: nat, w: seq<real>, i: nat, j: nat): nat
    requires AllPositive(w) && i < |w| && j < |w|
  {
    if i == j then 0
    else PerSender(base, w, j) + if i == FirstSender(j) then Target(base, w, j) % (|w| - 1) else 0
  }

  function IncastMatrix(base: nat, w: seq<real>): (m: Matrix)
    requires AllPositive(w)
    ensures |m| == |w| && OptimalJct.Square(m)
    ensures forall i, j :: 0 <= i < |w| && 0 <= j < |w| ==> m[i][j] == Entry(base, w, i, j)
  {
    seq(|w|, i requires 0 <= i < |w| => seq(|w|, j requires 0 <= j < |w| => Entry(base, w, i, j)))
  }

  // ------------------------------------------------------------ what each receiver gets

  /** Column `j` holds `each` for every sender and `extra` more for the first. */
  predicate SplitColumn(m: Matrix, j: nat, each: nat, extra: nat)
    requires OptimalJct.Square(m) && j < |m|
  {
    forall i :: 0 <= i < |m| ==>
      m[i][j] == (if i == j then 0 else each + if i == FirstSender(j) then extra else 0)
  }

  /** The first `k` senders of a column. */
  lemma {:induction false} ColumnPrefix(m: Matrix, j: nat, k: nat, each: nat, extra: nat)
    requires OptimalJct.Square(m) && j < |m| && k <= |m| && SplitColumn(m, j, each, extra)
    ensures Load(m, Column(j, |m|)[..k])
      == each * (k - if j < k then 1 else 0) + if FirstSender(j) < k then extra else 0
  {
    var c := Column(j, |m|);
    if k == 0 {
    } else {
      ColumnPrefix(m, j, k - 1, each, extra);
      LoadStep(m, j, k);
      hide Load;
      var d := k - 1 - if j < k - 1 then 1 else 0;
      assert each * (d + 1) == each * d + each;
    }
  }

  lemma LoadStep(m: Matrix, j: nat, k: nat)
    requires OptimalJct.Square(m) && j < |m| && 0 < k <= |m|
    ensures Load(m, Column(j, |m|)[..k]) == Load(m, Column(j, |m|)[..k - 1]) + m[k - 1][j]
  {
    var c := Column(j, |m|);
    assert c[..k][..k - 1] == c[..k - 1];
  }

  lemma ColumnSums(m: Matrix, j: nat, each: nat, extra: nat)
    requires OptimalJct.Square(m) && j < |m| && |m| >= 2 && SplitColumn(m, j, each, extra)
    ensures Load(m, Column(j, |m|)) == each * (|m| - 1) + extra
  {
    hide SplitColumn, Load;
    ColumnPrefix(m, j, |m|, each, extra);
    assert Column(j, |m|)[..|m|] == Column(j, |m|);
  }

  /** Rounding loses between nothing and n-2 bytes of a receiver's target. */
  lemma CorrectionIsSmall(base: nat, w: seq<real>, j: nat)
    requires AllPositive(w) && j < |w| && |w| >= 2
    ensures Target(base, w, j) - PerSender(base, w, j) * (|w| - 1) == Target(base, w, j) % (|w| - 1)
    ensures 0 <= Target(base, w, j) - PerSender(base, w, j) * (|w| - 1) <= |w| - 2
  {
    TruncatedQuotient(ReceiverTotal(base, w, j), |w| - 1);
  }

  /** Nobody sends to itself, and every receiver gets exactly the truncation of
      its target; a group of one has no sender, so it only can if there is
      nothing to send.  */
  lemma ReceiverGetsTarget(base: nat, w: seq<real>, j: nat)
    requires AllPositive(w) && j < |w|
    ensures IncastMatrix(base, w)[j][j] == 0
    ensures Load(IncastMatrix(base, w), Column(j, |w|)) == Target(base, w, j) <==> |w| >= 2 || base == 0
  {
    var m := IncastMatrix(base, w);
    if |w| >= 2 {
      hide ReceiverTotal, Target, PerSender;
      CorrectionIsSmall(base, w, j);
      ColumnSums(m, j, PerSender(base, w, j), Target(base, w, j) % (|w| - 1));
    } else {
      ScaledDown(base as real, w[0], MaxOf(w));
      var c := Column(0, 1);
      assert c[..0] == [];
      assert Load(m, c) == Load(m, c[..0]) + m[0][0];
    }
  }

  /** The receiver with the largest weight gets exactly `base`, the others no
      more, and a larger weight never means fewer bytes.  */
  lemma HottestGetsBase(base: nat, w: seq<real>)
    requires AllPositive(w)
    ensures forall j: nat :: j < |w| ==>
      Target(base, w, j) <= base && (w[j] == MaxOf(w) ==> Target(base, w, j) == base)
    ensures forall i: nat, j: nat :: i < |w| && j < |w| && w[i] <= w[j] ==>
      Target(base, w, i) <= Target(base, w, j)
  {
    hide Target, MaxOf;
    forall j: nat | j < |w|
      ensures Target(base, w, j) <= base && (w[j] == MaxOf(w) ==> Target(base, w, j) == base)
    {
      TargetBound(base, w, j);
    }
    forall i: nat, j: nat | i < |w| && j < |w| && w[i] <= w[j]
      ensures Target(base, w, i) <= Target(base, w, j)
    {
      TargetGrows(base, w, i, j);
    }
  }

  lemma TargetBound(base: nat, w: seq<real>, j: nat)
    requires AllPositive(w) && j < |w|
    ensures Target(base, w, j) <= base && (w[j] == MaxOf(w) ==> Target(base, w, j) == base)
  {
    hide MaxOf;
    WeightRange(w, j);
    ScaledDown(base as real, w[j], MaxOf(w));
  }

  lemma TargetGrows(base: nat, w: seq<real>, i: nat, j: nat)
    requires AllPositive(w) && i < |w| && j < |w| && w[i] <= w[j]
    ensures Target(base, w, i) <= Target(base, w, j)
  {
    hide MaxOf;
    WeightRange(w, i);
    ShareGrows(base as real, w[i], w[j], MaxOf(w), ReceiverTotal(base, w, i), ReceiverTotal(base, w, j));
  }

  lemma ShareGrows(b: real, x: real, y: real, m: real, p: real, q: real)
    requires b >= 0.0 && m > 0.0 && x <= y && p == b * (x / m) && q == b * (y / m)
    ensures p <= q
  {
    QuotientMonotone(x, y, m, x / m, y / m);
    ProductMonotone(x / m, y / m, b, p, q);
  }

  /** So the receiver side of the ideal completion time of an incast is the
      time the hottest receiver needs for `base` bytes.  */
  lemma IncastReceiverTime(base: nat, w: seq<real>, bps: real)
    requires AllPositive(w) && |w| >= 2 && bps > 0.0
    ensures MaxOf(ReceiverTimes(IncastMatrix(base, w), bps)) == Seconds(base, bps)
  {
    var m := IncastMatrix(base, w);
    var ts := ReceiverTimes(m, bps);
    HottestGetsBase(base, w);
    forall j: nat | j < |w|
      ensures ts[j] == Seconds(Target(base, w, j), bps) && ts[j] <= Seconds(base, bps)
    {
      ReceiverGetsTarget(base, w, j);
      LongerForMore(Target(base, w, j), base, bps);
    }
    assert MaxOf(w) in w;
    var h: nat :| h < |w| && w[h] == MaxOf(w);
    assert ts[h] in ts;
  }

  lemma LongerForMore(a: nat, b: nat, bps: real)
    requires bps > 0.0 && a <= b
    ensures Seconds(a, bps) <= Seconds(b, bps)
  {
    QuotientMonotone((a * 8) as real, (b * 8) as real, bps, Seconds(a, bps), Seconds(b, bps));
  }

  // ------------------------------------------------------------ the list as it is written

  /** A target is the receiver's share of `base`, by its weight against the
      largest one, cut to whole bytes.  */
  lemma TargetIsShare(base: nat, w: seq<real>, j: nat)
    requires AllPositive(w) && j < |w|
    ensures Target(base, w, j) as real * MaxOf(w) <= base as real * w[j]
    ensures base as real * w[j] < (Target(base, w, j) + 1) as real * MaxOf(w)
  {
    hide MaxOf;
    WeightRange(w, j);
    ScaledDown(base as real, w[j], MaxOf(w));
    CutShare(base as real, w[j], MaxOf(w), ReceiverTotal(base, w, j));
  }

  lemma CutShare(b: real, x: real, m: real, r: real)
    requires m > 0.0 && r >= 0.0 && r == b * (x / m)
    ensures Truncate(r) as real * m <= b * x < (Truncate(r) + 1) as real * m
  {
    var t := Truncate(r) as real;
    assert b * ((x / m) * m) == r * m;
    assert (x / m) * m == x;
    assert (r - t) * m == r * m - t * m;
    ProductSign(r - t, m, r * m - t * m);
    assert (t + 1.0 - r) * m == (t + 1.0) * m - r * m;
    ProductSign(t + 1.0 - r, m, (t + 1.0) * m - r * m);
  }

  /** What the first `k` servers send to server `j`, in a row-major list. */
  function ListedFor(sizes: seq<nat>, n: nat, j: nat, k: nat): nat
    requires j < n && k <= n && |sizes| == n * n
  {
    if k == 0 then 0
    else
      RowMajor(k - 1, j, n, n);
      ListedFor(sizes, n, j, k - 1) + sizes[(k - 1) * n + j]
  }

  lemma {:induction false} ListedIsLoad(m: Matrix, j: nat, k: nat)
    requires OptimalJct.Square(m) && j < |m| && k <= |m|
    ensures |Flat(m)| == |m| * |m|
    ensures ListedFor(Flat(m), |m|, j, k) == Load(m, Column(j, |m|)[..k])
  {
    hide Flat, Load;
    FlatLength(m, |m|);
    if k == 0 {
      EmptyLane(m);
    } else {
      ListedIsLoad(m, j, k - 1);
      LoadStep(m, j, k);
      FlatAt(m, |m|, k - 1, j);
    }
  }

  lemma EmptyLane(m: Matrix)
    requires OptimalJct.Square(m)
    ensures Load(m, []) == 0
  {
  }

  /** Entry (i, j) of a row-major list. */
  function Listed(sizes: seq<nat>, n: nat, i: nat, j: nat): nat
    requires i < n && j < n && |sizes| == n * n
  {
    RowMajor(i, j, n, n);
    sizes[i * n + j]
  }

  /** The share of `base` of receiver `j`, by its weight against the largest
      one, cut to whole bytes.  */
  ghost predicate IsShare(bytes: nat, base: nat, w: seq<real>, j: nat)
    requires j < |w|
  {
    forall h: nat :: h < |w| && (forall k :: 0 <= k < |w| ==> w[k] <= w[h]) ==>
      bytes as real * w[h] <= base as real * w[j] < (bytes + 1) as real * w[h]
  }

  /** Server `j` gets its share; the others send it equal parts, and the first
      of them also what is left over.  */
  ghost predicate ReceiverServed(sizes: seq<nat>, base: nat, w: seq<real>, j: nat)
    requires |sizes| == |w| * |w| && j < |w| && |w| >= 2
  {
    var n := |w|;
    var bytes := ListedFor(sizes, n, j, n);
    && IsShare(bytes, base, w, j)
    && forall i: nat :: i < n ==> EntrySplit(Listed(sizes, n, i, j), bytes, n, i, j)
  }

  /** What server `i` sends of the bytes for `j`. */
  predicate EntrySplit(entry: nat, bytes: nat, n: nat, i: nat, j: nat)
    requires n >= 2
  {
    entry == if i == j then 0 else bytes / (n - 1) + if i == (if j == 0 then 1 else 0) then bytes % (n - 1) else 0
  }

  lemma TargetIsShareOf(base: nat, w: seq<real>, j: nat)
    requires AllPositive(w) && j < |w|
    ensures IsShare(Target(base, w, j), base, w, j)
  {
    hide IsShare, Target, MaxOf, AllPositive;
    TargetIsShare(base, w, j);
    forall h: nat | h < |w| && (forall k :: 0 <= k < |w| ==> w[k] <= w[h]) ensures w[h] == MaxOf(w) {
      LargestIsMax(w, h);
    }
    ShareOf(Target(base, w, j), base, w, j, MaxOf(w));
  }

  lemma ShareOf(bytes: nat, base: nat, w: seq<real>, j: nat, m: real)
    requires j < |w| && bytes as real * m <= base as real * w[j] < (bytes + 1) as real * m
    requires forall h: nat :: h < |w| && (forall k :: 0 <= k < |w| ==> w[k] <= w[h]) ==> w[h] == m
    ensures IsShare(bytes, base, w, j)
  {
    forall h: nat | h < |w| && (forall k :: 0 <= k < |w| ==> w[k] <= w[h])
      ensures bytes as real * w[h] <= base as real * w[j] < (bytes + 1) as real * w[h]
    {
      assert w[h] == m;
    }
  }

  lemma LargestIsMax(w: seq<real>, h: nat)
    requires h < |w| && forall k :: 0 <= k < |w| ==> w[k] <= w[h]
    ensures w[h] == MaxOf(w)
  {
    hide MaxOf;
    assert w[h] in w && MaxOf(w) in w;
  }

  lemma EntryIs(base: nat, w: seq<real>, i: nat, j: nat)
    requires AllPositive(w) && i < |w| && j < |w| && |w| >= 2
    ensures Entry(base, w, i, j) == if i == j then 0
      else Target(base, w, j) / (|w| - 1) + if i == FirstSender(j) then Target(base, w, j) % (|w| - 1) else 0
  {
    hide Target, PerSender;
    CorrectionIsSmall(base, w, j);
    DivModUnique(Target(base, w, j), |w| - 1, PerSender(base, w, j), Target(base, w, j) % (|w| - 1));
  }

  lemma ListServes(base: nat, w: seq<real>, j: nat)
    requires AllPositive(w) && |w| >= 2 && j < |w|
    ensures |Flat(IncastMatrix(base, w))| == |w| * |w|
    ensures ReceiverServed(Flat(IncastMatrix(base, w)), base, w, j)
  {
    var m, n := IncastMatrix(base, w), |w|;
    hide Target, PerSender, Entry, Flat, Load, IsShare;
    ListedIsLoad(m, j, n);
    assert Column(j, n)[..n] == Column(j, n);
    ReceiverGetsTarget(base, w, j);
    TargetIsShareOf(base, w, j);
    forall i: nat | i < n ensures Listed(Flat(m), n, i, j) == Entry(base, w, i, j) {
      FlatAt(m, n, i, j);
    }
    forall i: nat | i < n ensures EntrySplit(Listed(Flat(m), n, i, j), Target(base, w, j), n, i, j) {
      EntryIs(base, w, i, j);
    }
  }

  // ------------------------------------------------------------ the generator

  ghost function BytesOf(a: array2<nat>): (m: Matrix)
    reads a
    ensures |m| == a.Length0 && forall i :: 0 <= i < a.Length0 ==> |m[i]| == a.Length1
    ensures forall i, j :: 0 <= i < a.Length0 && 0 <= j < a.Length1 ==> m[i][j] == a[i, j]
  {
    seq(a.Length0, i requires 0 <= i < a.Length0 reads a =>
      seq(a.Length1, j requires 0 <= j < a.Length1 reads a => a[i, j]))
  }

  /** The loop nest that fills in `int(per_sender)`. */
  method SplitEvenly(a: array2<nat>, base: nat, w: seq<real>)
    requires a.Length0 == a.Length1 == |w| && AllPositive(w)
    requires forall i, j :: 0 <= i < |w| && 0 <= j < |w| ==> a[i, j] == 0
    modifies a
    ensures forall i, j :: 0 <= i < |w| && 0 <= j < |w| ==>
      a[i, j] == (if i == j then 0 else PerSender(base, w, j))
  {
    var n := |w|;
    for dst := 0 to n
      invariant forall i, j :: 0 <= i < n && 0 <= j < n ==>
        a[i, j] == (if i == j || j >= dst then 0 else PerSender(base, w, j))
    {
      for src := 0 to n
        invariant forall i, j :: 0 <= i < n && 0 <= j < n && j != dst ==>
          a[i, j] == (if i == j || j >= dst then 0 else PerSender(base, w, j))
        invariant forall i :: 0 <= i < n ==>
          a[i, dst] == (if i == dst || i >= src then 0 else PerSender(base, w, dst))
      {
        if src != dst {
          a[src, dst] := PerSender(base, w, dst);
        }
      }
    }
  }

  method ColumnLoad(a: array2<nat>, j: nat) returns (s: nat)
    requires a.Length0 == a.Length1 && j < a.Length1
    ensures s == Load(BytesOf(a), Column(j, a.Length1))
  {
    ghost var c := Column(j, a.Length1);
    s := 0;
    for i := 0 to a.Length0
      invariant s == Load(BytesOf(a), c[..i])
    {
      assert c[..i + 1][..i] == c[..i];
      s := s + a[i, j];
    }
    assert c[..a.Length0] == c;
  }

  /** The inner loop that hands the rounding error of column `dst` to the
      first server that sends there.  */
  method AddToFirst(a: array2<nat>, dst: nat, diff: nat)
    requires a.Length0 == a.Length1 && dst < a.Length0
    modifies a
    ensures forall i, j :: 0 <= i < a.Length0 && 0 <= j < a.Length1 ==>
      a[i, j] == old(a[i, j]) + (if j == dst && i == FirstSender(dst) then diff else 0)
  {
    var src := 0;
    while src < a.Length0
      invariant src <= FirstSender(dst)
      invariant forall i, j :: 0 <= i < a.Length0 && 0 <= j < a.Length1 ==> a[i, j] == old(a[i, j])
    {
      if src != dst {
        a[src, dst] := a[src, dst] + diff;
        break;
      }
      src := src + 1;
    }
  }

  method FixColumn(a: array2<nat>, base: nat, w: seq<real>, dst: nat)
    requires a.Length0 == a.Length1 == |w| && AllPositive(w) && dst < |w|
    requires forall i: nat :: i < |w| ==> a[i, dst] == if i == dst then 0 else PerSender(base, w, dst)
    modifies a
    ensures forall i: nat :: i < |w| ==> a[i, dst] == Entry(base, w, i, dst)
    ensures forall i, j :: 0 <= i < |w| && 0 <= j < |w| && j != dst ==> a[i, j] == old(a[i, j])
  {
    hide Target, PerSender, Load;
    var target := Target(base, w, dst);
    var current := ColumnLoad(a, dst);
    CurrentLoad(BytesOf(a), base, w, dst);
    var diff := target - current;
    if diff != 0 {
      AddToFirst(a, dst, diff);
    }
  }

  /** What is missing before the correction. */
  lemma CurrentLoad(m: Matrix, base: nat, w: seq<real>, j: nat)
    requires AllPositive(w) && j < |w| && |m| == |w| && OptimalJct.Square(m)
    requires forall i: nat :: i < |w| ==> m[i][j] == if i == j then 0 else PerSender(base, w, j)
    ensures Target(base, w, j) >= Load(m, Column(j, |m|))
    ensures |w| >= 2 ==> Target(base, w, j) - Load(m, Column(j, |m|)) == Target(base, w, j) % (|w| - 1)
  {
    if |w| >= 2 {
      hide Target, PerSender, Load;
      CorrectionIsSmall(base, w, j);
      ColumnSums(m, j, PerSender(base, w, j), 0);
    } else {
      var c := Column(0, 1);
      assert c[..0] == [];
      assert Load(m, c) == Load(m, c[..0]) + m[0][0];
    }
  }

  lemma SameMatrix(a: Matrix, b: Matrix)
    requires |a| == |b| && OptimalJct.Square(a) && OptimalJct.Square(b)
    requires forall i, j :: 0 <= i < |a| && 0 <= j < |a| ==> a[i][j] == b[i][j]
    ensures a == b
  {
    forall i | 0 <= i < |a| ensures a[i] == b[i] {
      assert forall j :: 0 <= j < |a| ==> a[i][j] == b[i][j];
    }
  }

  method IncastSizes(base: nat, w: seq<real>) returns (sizes: seq<nat>)
    requires AllPositive(w) && w != []
    ensures sizes == Flat(IncastMatrix(base, w)) && |sizes| == |w| * |w|
    ensures |w| >= 2 ==> forall j: nat :: j < |w| ==> ReceiverServed(sizes, base, w, j)
    ensures |w| == 1 ==> sizes == [0]
  {
    hide ReceiverServed;
    var n := |w|;
    var a := new nat[n, n]((_, _) => 0);
    SplitEvenly(a, base, w);
    for dst := 0 to n
      invariant forall i, j :: 0 <= i < n && 0 <= j < dst ==> a[i, j] == Entry(base, w, i, j)
      invariant forall i, j :: 0 <= i < n && dst <= j < n ==>
        a[i, j] == (if i == j then 0 else PerSender(base, w, j))
    {
      FixColumn(a, base, w, dst);
    }
    sizes := Flatten(a);
    SameMatrix(BytesOf(a), IncastMatrix(base, w));
    FlatLength(IncastMatrix(base, w), n);
    forall j: nat | j < n && n >= 2 ensures ReceiverServed(sizes, base, w, j) {
      ListServes(base, w, j);
    }
    if n == 1 {
      FlatAt(IncastMatrix(base, w), 1, 0, 0);
    }
  }

  /** The closing loop nest: row after row. */
  method Flatten(a: array2<nat>) returns (sizes: seq<nat>)
    ensures sizes == Flat(BytesOf(a))
  {
    ghost var m := BytesOf(a);
    sizes := [];
    for src := 0 to a.Length0
      invariant sizes == Flat(m[..src])
    {
      for dst := 0 to a.Length1
        invariant sizes == Flat(m[..src]) + m[src][..dst]
      {
        sizes := sizes + [a[src, dst]];
      }
      assert m[..src + 1][..src] == m[..src];
    }
    assert m[..a.Length0] == m;
  }
}
