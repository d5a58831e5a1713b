/** The `moe` pattern: `generate_alltoallv_message_sizes` in simulation/run.py
    and `generate_traffic_matrix` in
    simulation/analysis/optimal_jct_analyzer.py both scale the columns and the
    rows of a traffic matrix in turn.  Floats are exact reals; the Zipfian
    weights are any positive reals that add up to one, as
    `generate_zipfian_distribution` promises.  */
module MoeScaling {
  import opened RealSums
  import opened RealArithmetic
  import opened Grids

  /** `weights / np.sum(weights)` */
  function Normalised(raw: seq<real>): (w: seq<real>)
    requires Sum(raw) > 0.0
    ensures |w| == |raw|
  {
    var c := 1.0 / Sum(raw);
    seq(|raw|, k requires 0 <= k < |raw| => raw[k] * c)
  }

  lemma NormalisedWeights(raw: seq<real>)
    requires raw != [] && forall k :: 0 <= k < |raw| ==> raw[k] > 0.0
    ensures Sum(raw) > 0.0 && Weights(Normalised(raw))
  {
    hide Sum, Normalised;
    SumPositive(raw, 0);
    var c := 1.0 / Sum(raw);
    Quotient(1.0, Sum(raw), c);
    NormalisedIs(raw, c);
    ScaledWeights(raw, Normalised(raw), c);
  }

  lemma NormalisedIs(raw: seq<real>, c: real)
    requires Sum(raw) > 0.0 && c == 1.0 / Sum(raw)
    ensures forall k :: 0 <= k < |raw| ==> Normalised(raw)[k] == raw[k] * c
  {
    hide Sum;
  }

  lemma ScaledWeights(raw: seq<real>, w: seq<real>, c: real)
    requires raw != [] && |w| == |raw| && c > 0.0 && Sum(raw) * c == 1.0
    requires forall k :: 0 <= k < |raw| ==> raw[k] > 0.0 && w[k] == raw[k] * c
    ensures Weights(w)
  {
    hide Sum;
    SumScaled(raw, w, c);
    forall k | 0 <= k < |raw| ensures w[k] > 0.0 {
      ProductSign(raw[k], c, w[k]);
    }
  }

  // ------------------------------------------------------------ one round

  /** Nothing on the diagonal, something everywhere else. */
  predicate Traffic(g: Grid) {
    Square(g) &&
    forall i, j :: 0 <= i < |g| && 0 <= j < |g| ==> if i == j then g[i][j] == 0.0 else g[i][j] > 0.0
  }

  /** A scaled row or column entry, with the diagonal reset. */
  function Rescaled(x: real, diagonal: bool, wanted: real, current: real): real {
    if current > 0.0 then if diagonal then 0.0 else x * (wanted / current) else x
  }

  /** The receiver loop: every column scaled to its receiver's capacity. */
  function AdjustReceivers(g: Grid, caps: seq<real>): (h: Grid)
    requires Square(g) && |caps| == |g|
    ensures |h| == |g| && Square(h)
    ensures forall i, j :: 0 <= i < |g| && 0 <= j < |g| ==>
      h[i][j] == Rescaled(g[i][j], i == j, caps[j], Sum(ColumnOf(g, |g|, j)))
  {
    seq(|g|, i requires 0 <= i < |g| => seq(|g|, j requires 0 <= j < |g| =>
      Rescaled(g[i][j], i == j, caps[j], Sum(ColumnOf(g, |g|, j)))))
  }

  /** The sender loop: every row scaled to the common sender capacity. */
  function RenormaliseSenders(g: Grid, cap: real): (h: Grid)
    requires Square(g)
    ensures |h| == |g| && Square(h)
    ensures forall i, j :: 0 <= i < |g| && 0 <= j < |g| ==>
      h[i][j] == Rescaled(g[i][j], i == j, cap, Sum(g[i]))
  {
    seq(|g|, i requires 0 <= i < |g| => seq(|g|, j requires 0 <= j < |g| =>
      Rescaled(g[i][j], i == j, cap, Sum(g[i]))))
  }

  function Round(g: Grid, caps: seq<real>, cap: real): (h: Grid)
    requires Square(g) && |caps| == |g|
    ensures |h| == |g| && Square(h)
  {
    RenormaliseSenders(AdjustReceivers(g, caps), cap)
  }

  /** `receiver_weights * total` */
  function Capacities(w: seq<real>, total: real): (r: seq<real>)
    ensures |r| == |w| && forall k :: 0 <= k < |w| ==> r[k] == w[k] * total
  {
    seq(|w|, k requires 0 <= k < |w| => w[k] * total)
  }

  /** Every receiver within one per cent of its capacity.  If there is nothing
      to receive, the relative error is 0/0, and no comparison with it holds.  */
  predicate Converged(g: Grid, caps: seq<real>)
    requires Square(g) && |caps| == |g|
  {
    forall j: nat :: j < |g| ==> Within(Sum(ColumnOf(g, |g|, j)), caps[j])
  }

  const TOLERANCE: real := 0.01

  predicate Within(received: real, capacity: real) {
    capacity > 0.0 && Distance(received, capacity) / capacity < TOLERANCE
  }

  function Distance(x: real, y: real): real {
    if x >= y then x - y else y - x
  }

  /** run.py: at most `k` rounds, stopping once the receivers have converged. */
  function Iterate(g: Grid, caps: seq<real>, cap: real, k: nat): (h: Grid)
    requires Square(g) && |caps| == |g|
    ensures |h| == |g| && Square(h)
    decreases k
  {
    if k == 0 then g
    else
      var h := Round(g, caps, cap);
      if Converged(h, caps) then h else Iterate(h, caps, cap, k - 1)
  }

  /** The analyzer: exactly `k` rounds. */
  function Rounds(g: Grid, caps: seq<real>, cap: real, k: nat): (h: Grid)
    requires Square(g) && |caps| == |g|
    ensures |h| == |g| && Square(h)
    decreases k
  {
    if k == 0 then g else Rounds(Round(g, caps, cap), caps, cap, k - 1)
  }

  function Uniform(n: nat, x: real): (g: Grid)
    ensures |g| == n && Square(g)
    ensures forall i, j :: 0 <= i < n && 0 <= j < n ==> g[i][j] == (if i == j then 0.0 else x)
  {
    seq(n, i requires 0 <= i < n => seq(n, j requires 0 <= j < n => if i == j then 0.0 else x))
  }

  // ------------------------------------------------------------ what a round keeps

  ghost predicate Positive(s: seq<real>) {
    forall k :: 0 <= k < |s| ==> s[k] > 0.0
  }

  lemma ColumnIsPositive(g: Grid, j: nat)
    requires Traffic(g) && |g| >= 2 && j < |g|
    ensures Sum(ColumnOf(g, |g|, j)) > 0.0
  {
    SumPositive(ColumnOf(g, |g|, j), if j == 0 then 1 else 0);
  }

  lemma RowIsPositive(g: Grid, i: nat)
    requires Traffic(g) && |g| >= 2 && i < |g|
    ensures Sum(g[i]) > 0.0
  {
    SumPositive(g[i], if i == 0 then 1 else 0);
  }

  lemma RescaledPositive(x: real, wanted: real, current: real)
    requires x > 0.0 && wanted > 0.0 && current > 0.0
    ensures x * (wanted / current) > 0.0
  {
    var q := wanted / current;
    Quotient(wanted, current, q);
    ProductSign(x, q, x * q);
  }

  /** Scaling a whole lane to a wanted total reaches it exactly. */
  lemma LaneMeets(a: seq<real>, b: seq<real>, wanted: real)
    requires |a| == |b| && Sum(a) > 0.0
    requires forall k :: 0 <= k < |a| ==> b[k] == a[k] * (wanted / Sum(a))
    ensures Sum(b) == wanted
  {
    hide Sum;
    var c := wanted / Sum(a);
    SumScaled(a, b, c);
    Quotient(wanted, Sum(a), c);
  }

  /** After the receiver loop every receiver gets exactly its capacity. */
  lemma ReceiversMet(g: Grid, caps: seq<real>)
    requires Traffic(g) && |g| >= 2 && |caps| == |g| && Positive(caps)
    ensures Traffic(AdjustReceivers(g, caps))
    ensures forall j: nat :: j < |g| ==> Sum(ColumnOf(AdjustReceivers(g, caps), |g|, j)) == caps[j]
  {
    hide Sum, Rescaled, Traffic, AdjustReceivers;
    TrafficIsSquare(g);
    AdjustedTraffic(g, caps);
    var h := AdjustReceivers(g, caps);
    forall j: nat | j < |g| ensures Sum(ColumnOf(h, |g|, j)) == caps[j] {
      ColumnIsPositive(g, j);
      ColumnMeets(g, h, caps, j);
    }
  }

  lemma ColumnMeets(g: Grid, h: Grid, caps: seq<real>, j: nat)
    requires Traffic(g) && |g| == |caps| && j < |g| && h == AdjustReceivers(g, caps)
    requires Sum(ColumnOf(g, |g|, j)) > 0.0
    ensures Sum(ColumnOf(h, |g|, j)) == caps[j]
  {
    hide Sum;
    LaneMeets(ColumnOf(g, |g|, j), ColumnOf(h, |g|, j), caps[j]);
  }

  lemma AdjustedTraffic(g: Grid, caps: seq<real>)
    requires Traffic(g) && |g| >= 2 && |caps| == |g| && Positive(caps)
    ensures Traffic(AdjustReceivers(g, caps))
  {
    hide Sum;
    var h := AdjustReceivers(g, caps);
    forall i: nat, j: nat | i < |g| && j < |g|
      ensures if i == j then h[i][j] == 0.0 else h[i][j] > 0.0
    {
      ColumnIsPositive(g, j);
      if i != j {
        RescaledPositive(g[i][j], caps[j], Sum(ColumnOf(g, |g|, j)));
      }
    }
  }

  /** After the sender loop every sender sends exactly its capacity. */
  lemma SendersMet(g: Grid, cap: real)
    requires Traffic(g) && |g| >= 2 && cap > 0.0
    ensures Traffic(RenormaliseSenders(g, cap))
    ensures forall i: nat :: i < |g| ==> Sum(RenormaliseSenders(g, cap)[i]) == cap
  {
    var h := RenormaliseSenders(g, cap);
    forall i: nat, j: nat | i < |g| && j < |g|
      ensures if i == j then h[i][j] == 0.0 else h[i][j] > 0.0
    {
      RowIsPositive(g, i);
      if i != j {
        RescaledPositive(g[i][j], cap, Sum(g[i]));
      }
    }
    forall i: nat | i < |g| ensures Sum(h[i]) == cap {
      RowIsPositive(g, i);
      LaneMeets(g[i], h[i], cap);
    }
  }

  ghost predicate SendsExactly(g: Grid, cap: real) {
    forall i: nat :: i < |g| ==> Sum(g[i]) == cap
  }

  lemma RoundKeeps(g: Grid, caps: seq<real>, cap: real)
    requires Traffic(g) && |g| >= 2 && |caps| == |g| && Positive(caps) && cap > 0.0
    ensures Traffic(Round(g, caps, cap)) && SendsExactly(Round(g, caps, cap), cap)
  {
    ReceiversMet(g, caps);
    SendersMet(AdjustReceivers(g, caps), cap);
  }

  /** However many rounds are run, the diagonal stays empty, everything else
      stays positive, and every sender sends exactly its capacity.  */
  lemma {:induction false} RoundsKeep(g: Grid, caps: seq<real>, cap: real, k: nat)
    requires Traffic(g) && |g| >= 2 && |caps| == |g| && Positive(caps) && cap > 0.0 && SendsExactly(g, cap)
    ensures Traffic(Rounds(g, caps, cap, k)) && SendsExactly(Rounds(g, caps, cap, k), cap)
    ensures Traffic(Iterate(g, caps, cap, k)) && SendsExactly(Iterate(g, caps, cap, k), cap)
    decreases k
  {
    hide Round, SendsExactly, Converged, Sum;
    if k == 0 {
    } else {
      RoundKeeps(g, caps, cap);
      RoundsKeep(Round(g, caps, cap), caps, cap, k - 1);
    }
  }

  // ------------------------------------------------------------ convergence

  /** Senders that send `cap` each move |g| * cap bytes altogether. */
  lemma Moved(g: Grid, cap: real)
    requires Square(g) && SendsExactly(g, cap)
    ensures Sum(ColumnTotals(g, |g|)) == |g| as real * cap
  {
    RowsAndColumnsAgree(g, |g|);
    SumConstant(|g|, cap);
    assert RowTotals(g) == Constant(|g|, cap);
  }

  lemma CapacitiesTotal(w: seq<real>, total: real)
    requires Weights(w)
    ensures Sum(Capacities(w, total)) == total
    ensures total > 0.0 ==> Positive(Capacities(w, total))
  {
    SumScaled(w, Capacities(w, total), total);
    forall k | 0 <= k < |w| && total > 0.0 ensures Capacities(w, total)[k] > 0.0 {
      ProductSign(w[k], total, Capacities(w, total)[k]);
    }
  }

  lemma WithinMeans(x: real, c: real)
    requires c > 0.0
    ensures Within(x, c) <==> Distance(x, c) < 0.01 * c
    ensures Within(x, c) ==> 0.99 * c <= x
  {
    var d := Distance(x, c);
    QuotientCompare(d, c, d / c, 0.01, 0.01 * c);
  }

  /** Receivers that have converged take almost all of their capacity. */
  lemma ConvergedTakesMost(g: Grid, caps: seq<real>)
    requires Square(g) && |caps| == |g| && Positive(caps)
    ensures Converged(g, caps) ==> 0.99 * Sum(caps) <= Sum(ColumnTotals(g, |g|))
  {
    hide Sum, Within;
    if Converged(g, caps) {
      var received := ColumnTotals(g, |g|);
      forall j: nat | j < |g| ensures caps[j] * 0.99 <= received[j] {
        WithinMeans(received[j], caps[j]);
      }
      MostOf(caps, received);
    }
  }

  lemma MostOf(caps: seq<real>, received: seq<real>)
    requires |caps| == |received| && forall j: nat :: j < |caps| ==> caps[j] * 0.99 <= received[j]
    ensures 0.99 * Sum(caps) <= Sum(received)
  {
    hide Sum;
    var most := Capacities(caps, 0.99);
    SumScaled(caps, most, 0.99);
    SumOrdered(most, received);
  }

  /** run.py gives the receivers n-1 times what the senders send, so in a group
      of three or more they never come within one per cent of it.  */
  lemma NeverConverges(g: Grid, w: seq<real>, base: nat)
    requires Square(g) && Weights(w) && |w| == |g| && |g| >= 3 && base > 0
    requires SendsExactly(g, base as real)
    ensures !Converged(g, Capacities(w, (base * |g| * (|g| - 1)) as real))
  {
    hide Sum, Converged, ColumnTotals;
    var total := (base * |g| * (|g| - 1)) as real;
    TotalIs(base, |g|);
    CapacitiesTotal(w, total);
    Moved(g, base as real);
    ConvergedTakesMost(g, Capacities(w, total));
  }

  lemma TotalIs(base: nat, n: nat)
    requires n >= 1
    ensures (base * n * (n - 1)) as real == base as real * n as real * (n - 1) as real
    ensures n >= 3 && base > 0 ==> (base * n * (n - 1)) as real >= 2.0 * (n as real * base as real) > 0.0
    ensures n >= 2 && base > 0 ==> (base * n * (n - 1)) as real > 0.0
  {
    var p := base * n;
    assert p as real == base as real * n as real;
    if n >= 2 && base > 0 {
      assert p >= 1;
      assert p * (n - 1) == p + p * (n - 2);
      assert p * (n - 2) >= 0;
      if n >= 3 {
        assert p * (n - 2) == p + p * (n - 3);
      }
    }
  }

  // ------------------------------------------------------------ groups of two

  lemma SumOfTwo(s: seq<real>)
    requires |s| == 2
    ensures Sum(s) == s[0] + s[1]
  {
    assert s[..1][..0] == [];
    assert Sum(s[..1]) == Sum(s[..1][..0]) + s[0];
  }

  /** In a group of two each server has one flow, which carries its capacity. */
  lemma OnlyPair(g: Grid, cap: real)
    requires Traffic(g) && |g| == 2 && SendsExactly(g, cap)
    ensures g == Uniform(2, cap)
  {
    SumOfTwo(g[0]);
    SumOfTwo(g[1]);
    assert g[0] == Uniform(2, cap)[0] && g[1] == Uniform(2, cap)[1];
  }

  /** A weight of one half, give or take one per cent. */
  predicate NearlyHalf(x: real) {
    Distance(1.0, 2.0 * x) < 0.02 * x
  }

  lemma PairWithin(b: real, x: real, total: real, c: real)
    requires b > 0.0 && x > 0.0 && total == 2.0 * b && c == x * total
    ensures Within(b, c) <==> NearlyHalf(x)
  {
    hide Within, Distance;
    ProductSign(x, total, c);
    var y := 2.0 * x;
    assert c == b * y;
    WithinMeans(b, c);
    DistanceScales(b, y, c);
    var d := Distance(1.0, y);
    ProductSign(0.01 * y - d, b, 0.01 * c - b * d);
  }

  lemma DistanceScales(b: real, y: real, c: real)
    requires b > 0.0 && c == b * y
    ensures Distance(b, c) == b * Distance(1.0, y)
  {
    ProductSign(y - 1.0, b, c - b);
  }

  lemma PairConverges(w: seq<real>, b: real, total: real)
    requires Weights(w) && |w| == 2 && b > 0.0 && total == 2.0 * b
    ensures Converged(Uniform(2, b), Capacities(w, total)) <==> NearlyHalf(w[0]) && NearlyHalf(w[1])
  {
    hide Sum, Within, Distance, NearlyHalf, Converged, Weights, Uniform, Capacities, ColumnOf;
    var g, caps := Uniform(2, b), Capacities(w, total);
    SumOfTwo(ColumnOf(g, 2, 0));
    SumOfTwo(ColumnOf(g, 2, 1));
    WeightsPositive(w);
    PairWithin(b, w[0], total, caps[0]);
    PairWithin(b, w[1], total, caps[1]);
    PairTest(g, caps);
  }

  lemma WeightsPositive(w: seq<real>)
    requires Weights(w)
    ensures forall k :: 0 <= k < |w| ==> w[k] > 0.0
  {
  }

  lemma PairTest(g: Grid, caps: seq<real>)
    requires Square(g) && |g| == |caps| == 2
    ensures Converged(g, caps)
      <==> Within(Sum(ColumnOf(g, 2, 0)), caps[0]) && Within(Sum(ColumnOf(g, 2, 1)), caps[1])
  {
  }

  /** run.py's convergence test passes after a round exactly in a group of two
      whose receivers are wanted almost equally.  */
  lemma ConvergesExactlyWhen(g: Grid, w: seq<real>, base: nat)
    requires Traffic(g) && |g| >= 2 && Weights(w) && |w| == |g| && base > 0
    requires SendsExactly(g, base as real)
    ensures Converged(g, Capacities(w, (base * |g| * (|g| - 1)) as real))
      <==> |g| == 2 && NearlyHalf(w[0]) && NearlyHalf(w[1])
  {
    hide Converged, NearlyHalf, Traffic, SendsExactly;
    if |g| >= 3 {
      TrafficIsSquare(g);
      NeverConverges(g, w, base);
    } else {
      OnlyPair(g, base as real);
      PairConverges(w, base as real, (base * |g| * (|g| - 1)) as real);
    }
  }

  lemma TrafficIsSquare(g: Grid)
    requires Traffic(g)
    ensures Square(g)
  {
  }

  // ------------------------------------------------------------ the two programs agree

  /** A round depends on the receiver capacities only up to a common factor. */
  lemma RoundScaleFree(g: Grid, w: seq<real>, t: real, c: real, u: real, cap: real)
    requires Traffic(g) && |g| >= 2 && Weights(w) && |w| == |g| && t > 0.0 && c > 0.0 && cap > 0.0
    requires u == t * c
    ensures Round(g, Capacities(w, u), cap) == Round(g, Capacities(w, t), cap)
  {
    hide Sum, Traffic, AdjustReceivers, RenormaliseSenders, Round, Capacities, Rescaled;
    TrafficIsSquare(g);
    var p, q := AdjustReceivers(g, Capacities(w, t)), AdjustReceivers(g, Capacities(w, u));
    CapacitiesTotal(w, t);
    ReceiversMet(g, Capacities(w, t));
    AdjustScales(g, w, t, c, u);
    SendersScaleFree(p, q, c, cap);
    RoundIs(g, Capacities(w, t), cap);
    RoundIs(g, Capacities(w, u), cap);
  }

  lemma RoundIs(g: Grid, caps: seq<real>, cap: real)
    requires Traffic(g) && |caps| == |g|
    ensures Square(g) && Round(g, caps, cap) == RenormaliseSenders(AdjustReceivers(g, caps), cap)
  {
  }

  /** Entry by entry `c` times as much. */
  predicate Times(p: Grid, q: Grid, c: real)
    requires Square(p) && Square(q) && |p| == |q|
  {
    forall i: nat, j: nat :: i < |p| && j < |p| ==> q[i][j] == p[i][j] * c
  }

  lemma AdjustScales(g: Grid, w: seq<real>, t: real, c: real, u: real)
    requires Traffic(g) && |g| >= 2 && |w| == |g| && u == t * c
    ensures Times(AdjustReceivers(g, Capacities(w, t)), AdjustReceivers(g, Capacities(w, u)), c)
  {
    hide Sum, Rescaled, Capacities;
    var a, b := Capacities(w, t), Capacities(w, u);
    var p, q := AdjustReceivers(g, a), AdjustReceivers(g, b);
    forall i: nat, j: nat | i < |g| && j < |g| ensures q[i][j] == p[i][j] * c {
      ColumnIsPositive(g, j);
      CapacityTimes(w, t, c, u, j);
      RescaledWanted(g[i][j], i == j, a[j], b[j], c, Sum(ColumnOf(g, |g|, j)));
    }
  }

  lemma CapacityTimes(w: seq<real>, t: real, c: real, u: real, j: nat)
    requires j < |w| && u == t * c
    ensures Capacities(w, u)[j] == Capacities(w, t)[j] * c
  {
    assert w[j] * (t * c) == w[j] * t * c;
  }

  /** An entry grows with what is wanted of its lane ... */
  lemma RescaledWanted(x: real, diagonal: bool, wanted: real, more: real, c: real, s: real)
    requires s > 0.0 && more == wanted * c
    ensures Rescaled(x, diagonal, more, s) == Rescaled(x, diagonal, wanted, s) * c
  {
    if !diagonal {
      assert more / s == (wanted / s) * c;
      assert x * ((wanted / s) * c) == x * (wanted / s) * c;
    }
  }

  /** ... but not with the lane itself. */
  lemma RescaledCurrent(x: real, y: real, diagonal: bool, wanted: real, s: real, r: real, c: real)
    requires s > 0.0 && c > 0.0 && y == x * c && r == s * c
    ensures Rescaled(y, diagonal, wanted, r) == Rescaled(x, diagonal, wanted, s)
  {
    ProductSign(s, c, r);
    if !diagonal {
      FactorCancels(x, y, c, wanted, s, r);
    }
  }

  lemma SendersScaleFree(p: Grid, q: Grid, c: real, cap: real)
    requires Traffic(p) && |p| >= 2 && Square(q) && |q| == |p| && Times(p, q, c) && c > 0.0
    ensures RenormaliseSenders(q, cap) == RenormaliseSenders(p, cap)
  {
    hide Sum, Rescaled;
    var a, b := RenormaliseSenders(p, cap), RenormaliseSenders(q, cap);
    forall i: nat | i < |p| ensures b[i] == a[i] {
      RowIsPositive(p, i);
      RowScaleFree(p[i], q[i], a[i], b[i], i, c, cap);
    }
  }

  lemma RowScaleFree(p: seq<real>, q: seq<real>, a: seq<real>, b: seq<real>, z: nat, c: real, cap: real)
    requires |p| == |q| == |a| == |b| && c > 0.0 && Sum(p) > 0.0
    requires forall k :: 0 <= k < |p| ==> q[k] == p[k] * c
    requires forall k :: 0 <= k < |p| ==> a[k] == Rescaled(p[k], z == k, cap, Sum(p))
    requires forall k :: 0 <= k < |p| ==> b[k] == Rescaled(q[k], z == k, cap, Sum(q))
    ensures a == b
  {
    hide Sum, Rescaled;
    SumScaled(p, q, c);
    forall k | 0 <= k < |p| ensures a[k] == b[k] {
      RescaledCurrent(p[k], q[k], z == k, cap, Sum(p), Sum(q), c);
    }
  }

  lemma FactorCancels(x: real, y: real, c: real, w: real, s: real, r: real)
    requires s > 0.0 && c > 0.0 && y == x * c && r == s * c && r > 0.0
    ensures y * (w / r) == x * (w / s)
  {
    var q := w / r;
    assert q * r == w;
    var t := q * c;
    assert t * s == w by {
      assert t * s == q * (c * s);
      assert c * s == r;
    }
    assert w / s == t;
    assert y * q == x * t;
  }

  lemma {:induction false} RoundsScaleFree(g: Grid, w: seq<real>, t: real, c: real, u: real, cap: real, k: nat)
    requires Traffic(g) && |g| >= 2 && Weights(w) && |w| == |g| && t > 0.0 && c > 0.0 && cap > 0.0
    requires u == t * c
    ensures Rounds(g, Capacities(w, u), cap, k) == Rounds(g, Capacities(w, t), cap, k)
    decreases k
  {
    hide Round, Capacities, Weights;
    if k == 0 {
    } else {
      RoundScaleFree(g, w, t, c, u, cap);
      CapacitiesTotal(w, t);
      RoundKeeps(g, Capacities(w, t), cap);
      RoundsScaleFree(Round(g, Capacities(w, t), cap), w, t, c, u, cap, k - 1);
    }
  }

  /** run.py's loop is the plain loop: its early exit never changes the result. */
  lemma {:induction false} EarlyExitIsHarmless(g: Grid, w: seq<real>, base: nat, k: nat)
    requires Traffic(g) && |g| >= 2 && Weights(w) && |w| == |g| && base > 0 && SendsExactly(g, base as real)
    ensures var caps := Capacities(w, (base * |g| * (|g| - 1)) as real);
      Iterate(g, caps, base as real, k) == Rounds(g, caps, base as real, k)
    decreases k
  {
    hide Round, Capacities, Weights, Converged, SendsExactly;
    var caps := Capacities(w, (base * |g| * (|g| - 1)) as real);
    if k == 0 {
    } else {
      TotalIs(base, |g|);
      CapacitiesTotal(w, (base * |g| * (|g| - 1)) as real);
      RoundKeeps(g, caps, base as real);
      var h := Round(g, caps, base as real);
      EarlyExitIsHarmless(h, w, base, k - 1);
      ConvergesExactlyWhen(h, w, base);
      if Converged(h, caps) {
        PairIsFixed(h, caps, base as real, k - 1);
      }
    }
  }

  lemma {:induction false} PairIsFixed(g: Grid, caps: seq<real>, cap: real, k: nat)
    requires Traffic(g) && |g| == 2 && SendsExactly(g, cap) && cap > 0.0 && |caps| == 2 && Positive(caps)
    ensures Rounds(g, caps, cap, k) == g
    decreases k
  {
    hide Round, SendsExactly;
    OnlyPair(g, cap);
    if k == 0 {
    } else {
      RoundKeeps(g, caps, cap);
      OnlyPair(Round(g, caps, cap), cap);
      PairIsFixed(Round(g, caps, cap), caps, cap, k - 1);
    }
  }

  // ------------------------------------------------------------ both programs

  const MAX_ITERATIONS: nat := 100

  /** run.py's initial flow; a group of one has none. */
  function InitialFlow(base: nat, n: nat): (x: real)
    requires n >= 1
    ensures x >= 0.0 && (base > 0 && n >= 2 ==> x > 0.0)
  {
    if n == 1 then 0.0 else base as real / (n - 1) as real
  }

  /** The matrix run.py truncates: `base` bytes from every server. */
  function RunTraffic(w: seq<real>, base: nat): (g: Grid)
    requires w != []
    ensures |g| == |w| && Square(g)
  {
    Iterate(Uniform(|w|, InitialFlow(base, |w|)), Capacities(w, (base * |w| * (|w| - 1)) as real),
            base as real, MAX_ITERATIONS)
  }

  /** The matrix the analyzer truncates: `flow` bytes per flow on average. */
  function AnalyzerTraffic(w: seq<real>, flow: nat): (g: Grid)
    requires w != []
    ensures |g| == |w| && Square(g)
  {
    Rounds(Uniform(|w|, flow as real), Capacities(w, (flow * |w| * (|w| - 1)) as real),
           (flow * (|w| - 1)) as real, MAX_ITERATIONS)
  }

  lemma UniformTraffic(n: nat, x: real, cap: real)
    requires n >= 2 && x > 0.0 && cap == x * (n - 1) as real
    ensures Traffic(Uniform(n, x)) && SendsExactly(Uniform(n, x), cap)
  {
    var g := Uniform(n, x);
    forall i: nat | i < n ensures Sum(g[i]) == cap {
      UniformRow(g[i], i, x);
    }
  }

  lemma {:induction false} UniformRow(r: seq<real>, i: nat, x: real)
    requires forall j :: 0 <= j < |r| ==> r[j] == (if i == j then 0.0 else x)
    ensures Sum(r) == x * (|r| - if i < |r| then 1 else 0) as real
  {
    if r == [] {
    } else {
      var n := |r| - 1;
      UniformRow(r[..n], i, x);
      var k := n - if i < n then 1 else 0;
      assert x * (k + 1) as real == x * k as real + x;
    }
  }

  lemma FlowTimesPeers(base: nat, n: nat)
    requires n >= 2
    ensures InitialFlow(base, n) * (n - 1) as real == base as real
  {
  }

  /** Every row of the matrix that run.py truncates sends exactly `base`. */
  lemma RunTrafficIsExact(w: seq<real>, base: nat)
    requires Weights(w) && |w| >= 2 && base > 0
    ensures Traffic(RunTraffic(w, base)) && SendsExactly(RunTraffic(w, base), base as real)
  {
    hide Traffic, SendsExactly, InitialFlow, Iterate, Capacities, Weights;
    var n := |w|;
    FlowTimesPeers(base, n);
    UniformTraffic(n, InitialFlow(base, n), base as real);
    TotalIs(base, n);
    CapacitiesTotal(w, (base * n * (n - 1)) as real);
    TrafficIsSquare(Uniform(n, InitialFlow(base, n)));
    RoundsKeep(Uniform(n, InitialFlow(base, n)), Capacities(w, (base * n * (n - 1)) as real), base as real, MAX_ITERATIONS);
  }

  /** A matrix without traffic is left alone. */
  lemma RoundOfNothing(n: nat, caps: seq<real>, cap: real)
    requires |caps| == n
    ensures Round(Uniform(n, 0.0), caps, cap) == Uniform(n, 0.0)
  {
    hide Sum;
    var z := Uniform(n, 0.0);
    forall i: nat | i < n
      ensures Sum(ColumnOf(z, n, i)) == 0.0 && Sum(z[i]) == 0.0
    {
      ZeroSum(ColumnOf(z, n, i));
      ZeroSum(z[i]);
    }
    forall i: nat | i < n ensures AdjustReceivers(z, caps)[i] == z[i] {
    }
    assert AdjustReceivers(z, caps) == z;
    forall i: nat | i < n ensures RenormaliseSenders(z, cap)[i] == z[i] {
    }
    assert RenormaliseSenders(z, cap) == z;
  }

  lemma ZeroSum(s: seq<real>)
    requires forall k :: 0 <= k < |s| ==> s[k] == 0.0
    ensures Sum(s) == 0.0
  {
    SumConstant(|s|, 0.0);
    assert s == Constant(|s|, 0.0);
  }

  lemma {:induction false} NothingToScale(n: nat, caps: seq<real>, cap: real, k: nat)
    requires |caps| == n >= 1 && forall j :: 0 <= j < n ==> caps[j] == 0.0
    ensures Iterate(Uniform(n, 0.0), caps, cap, k) == Rounds(Uniform(n, 0.0), caps, cap, k) == Uniform(n, 0.0)
    decreases k
  {
    hide Sum, Round, Uniform;
    if k == 0 {
    } else {
      RoundOfNothing(n, caps, cap);
      assert !Within(Sum(ColumnOf(Uniform(n, 0.0), n, 0)), caps[0]);
      NothingToScale(n, caps, cap, k - 1);
    }
  }

  lemma SameTotals(flow: nat, n: nat)
    requires n >= 1
    ensures (flow * (n - 1)) * n * (n - 1) == (flow * n * (n - 1)) * (n - 1)
    ensures ((flow * n * (n - 1)) * (n - 1)) as real == (flow * n * (n - 1)) as real * (n - 1) as real
  {
    var k := n - 1;
    assert (flow * k) * n == (flow * n) * k;
  }

  /** Although run.py counts bytes per server and gives its receivers n-1 times
      too much, and the analyzer counts bytes per flow and has no early exit,
      the two programs scale the same traffic to the same matrix.  */
  lemma ProgramsAgree(w: seq<real>, flow: nat)
    requires Weights(w)
    ensures RunTraffic(w, flow * (|w| - 1)) == AnalyzerTraffic(w, flow)
  {
    var n := |w|;
    var base := flow * (n - 1);
    if n == 1 || flow == 0 {
      NoTraffic(w, flow);
    } else {
      SomeTraffic(w, flow);
    }
  }

  lemma SomeTraffic(w: seq<real>, flow: nat)
    requires Weights(w) && |w| >= 2 && flow > 0
    ensures RunTraffic(w, flow * (|w| - 1)) == AnalyzerTraffic(w, flow)
  {
    var n := |w|;
    var base := flow * (n - 1);
    MulPositive(flow, n - 1);
    SameInitialFlow(flow, n);
    TotalIs(flow, n);
    SameTotals(flow, n);
    SameScaling(w, flow as real, base, (flow * n * (n - 1)) as real, (base * n * (n - 1)) as real);
  }

  lemma SameScaling(w: seq<real>, x: real, base: nat, t: real, u: real)
    requires Weights(w) && |w| >= 2 && base > 0 && x > 0.0 && t > 0.0
    requires base as real == x * (|w| - 1) as real
    requires u == t * (|w| - 1) as real && u == (base * |w| * (|w| - 1)) as real
    ensures Iterate(Uniform(|w|, x), Capacities(w, u), base as real, MAX_ITERATIONS)
      == Rounds(Uniform(|w|, x), Capacities(w, t), base as real, MAX_ITERATIONS)
  {
    hide Traffic, SendsExactly, Iterate, Rounds, Capacities, Weights, Uniform;
    var g := Uniform(|w|, x);
    UniformTraffic(|w|, x, base as real);
    EarlyExitIsHarmless(g, w, base, MAX_ITERATIONS);
    RoundsScaleFree(g, w, t, (|w| - 1) as real, u, base as real, MAX_ITERATIONS);
  }

  lemma MulPositive(a: nat, b: nat)
    requires a > 0 && b > 0
    ensures a * b > 0
  {
  }

  lemma SameInitialFlow(flow: nat, n: nat)
    requires n >= 2
    ensures InitialFlow(flow * (n - 1), n) == flow as real
  {
    var k := n - 1;
    assert (flow * k) as real == flow as real * k as real;
  }

  lemma NoFlow(n: nat, x: real)
    requires n == 1 || x == 0.0
    ensures Uniform(n, x) == Uniform(n, 0.0)
  {
    forall i: nat | i < n ensures Uniform(n, x)[i] == Uniform(n, 0.0)[i] {
    }
  }

  lemma NoTraffic(w: seq<real>, flow: nat)
    requires w != [] && (|w| == 1 || flow == 0)
    ensures RunTraffic(w, flow * (|w| - 1)) == AnalyzerTraffic(w, flow)
  {
    var n := |w|;
    var base := flow * (n - 1);
    hide Iterate, Rounds, Sum;
    assert base == 0;
    var p := flow * n;
    assert p * (n - 1) == 0;
    assert InitialFlow(base, n) == 0.0;
    NoFlow(n, flow as real);
    NothingToScale(n, Capacities(w, 0.0), 0.0, MAX_ITERATIONS);
  }

  // ------------------------------------------------------------ truncation to bytes

  ghost predicate NonNegativeGrid(g: Grid) {
    forall i :: 0 <= i < |g| ==> NonNegative(g[i])
  }

  lemma RescaledNonNegative(x: real, diagonal: bool, wanted: real, current: real)
    requires x >= 0.0 && wanted >= 0.0
    ensures Rescaled(x, diagonal, wanted, current) >= 0.0
  {
    if current > 0.0 && !diagonal {
      var q := wanted / current;
      Quotient(wanted, current, q);
      NonNegativeProduct(x, q, x * q);
    }
  }

  lemma RoundNonNegative(g: Grid, caps: seq<real>, cap: real)
    requires Square(g) && |caps| == |g| && NonNegativeGrid(g) && NonNegative(caps) && cap >= 0.0
    ensures NonNegativeGrid(Round(g, caps, cap))
  {
    hide Sum, Rescaled;
    var a := AdjustReceivers(g, caps);
    forall i: nat, j: nat | i < |g| && j < |g| ensures a[i][j] >= 0.0 {
      RescaledNonNegative(g[i][j], i == j, caps[j], Sum(ColumnOf(g, |g|, j)));
    }
    var h := Round(g, caps, cap);
    forall i: nat, j: nat | i < |g| && j < |g| ensures h[i][j] >= 0.0 {
      RescaledNonNegative(a[i][j], i == j, cap, Sum(a[i]));
    }
  }

  lemma {:induction false} IterateNonNegative(g: Grid, caps: seq<real>, cap: real, k: nat)
    requires Square(g) && |caps| == |g| && NonNegativeGrid(g) && NonNegative(caps) && cap >= 0.0
    ensures NonNegativeGrid(Iterate(g, caps, cap, k)) && NonNegativeGrid(Rounds(g, caps, cap, k))
    decreases k
  {
    hide Round, NonNegativeGrid, Converged;
    if k == 0 {
    } else {
      RoundNonNegative(g, caps, cap);
      IterateNonNegative(Round(g, caps, cap), caps, cap, k - 1);
    }
  }

  lemma CapacitiesNonNegative(w: seq<real>, total: real)
    requires Weights(w) && total >= 0.0
    ensures NonNegative(Capacities(w, total))
  {
    forall k | 0 <= k < |w| ensures w[k] * total >= 0.0 {
    }
  }

  lemma TrafficNonNegative(w: seq<real>, base: nat)
    requires Weights(w)
    ensures NonNegativeGrid(RunTraffic(w, base)) && NonNegativeGrid(AnalyzerTraffic(w, base))
  {
    hide Iterate, Rounds, Capacities, Sum;
    var n := |w|;
    var total := (base * n * (n - 1)) as real;
    assert base * n * (n - 1) >= 0 by {
      assert base * n >= 0;
    }
    CapacitiesNonNegative(w, total);
    IterateNonNegative(Uniform(n, InitialFlow(base, n)), Capacities(w, total), base as real, MAX_ITERATIONS);
    IterateNonNegative(Uniform(n, base as real), Capacities(w, total), (base * (n - 1)) as real, MAX_ITERATIONS);
  }

  function TruncatedRows(g: Grid): (r: seq<seq<nat>>)
    requires NonNegativeGrid(g)
    ensures |r| == |g| && forall i :: 0 <= i < |g| ==> r[i] == Truncated(g[i])
  {
    seq(|g|, i requires 0 <= i < |g| => Truncated(g[i]))
  }

  /** Every server of the generated workload sends `base` bytes, less at most
      one byte per destination, and nothing to itself.  */
  lemma MoeRowTotals(w: seq<real>, base: nat, i: nat)
    requires Weights(w) && |w| >= 2 && base > 0 && i < |w| && NonNegativeGrid(RunTraffic(w, base))
    ensures TruncatedRows(RunTraffic(w, base))[i][i] == 0
    ensures base - (|w| - 1) < Total(TruncatedRows(RunTraffic(w, base))[i]) <= base
  {
    hide RunTraffic, Sum, Positives, Total;
    RunTrafficIsExact(w, base);
    var g := RunTraffic(w, base);
    var other := if i == 0 then 1 else 0;
    assert g[i][other] > 0.0;
    PositivesBound(g[i], i);
    TruncationLoss(g[i]);
  }
}
