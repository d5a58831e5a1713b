/** The loops of the `moe` pattern, in place on the traffic matrix: run.py's
    generator and the analyzer's, proved against `MoeScaling`.  */
module MoeSizes {
  import opened RealArithmetic
  import opened RealSums
  import opened Grids
  import opened MoeScaling
  import opened MoeFactors

  lemma SameGrid(g: Grid, h: Grid)
    requires |g| == |h| && Square(g) && Square(h)
    requires forall i, j :: 0 <= i < |g| && 0 <= j < |g| ==> g[i][j] == h[i][j]
    ensures g == h
  {
    forall i | 0 <= i < |g| ensures g[i] == h[i] {
      assert forall j :: 0 <= j < |g| ==> g[i][j] == h[i][j];
    }
  }

  /** One pass of the receiver loop: column `dst` is scaled, its diagonal reset. */
  method ScaleColumn(a: array2<real>, dst: nat, capacity: real)
    requires a.Length0 == a.Length1 && dst < a.Length0
    modifies a
    ensures forall i, j :: 0 <= i < a.Length0 && 0 <= j < a.Length0 ==>
      a[i, j] == (if j == dst
                  then Rescaled(old(a[i, j]), i == dst, capacity, Sum(ColumnOf(old(GridOf(a)), a.Length0, dst)))
                  else old(a[i, j]))
  {
    hide Sum;
    var received := SumColumn(a, dst);
    if received > 0.0 {
      var factor := capacity / received;
      for i := 0 to a.Length0
        invariant forall p, q :: 0 <= p < a.Length0 && 0 <= q < a.Length0 ==>
          a[p, q] == (if q == dst && p < i then old(a[p, q]) * factor else old(a[p, q]))
      {
        a[i, dst] := a[i, dst] * factor;
      }
      a[dst, dst] := 0.0;
    }
  }

  method ScaleRow(a: array2<real>, src: nat, capacity: real)
    requires a.Length0 == a.Length1 && src < a.Length0
    modifies a
    ensures forall i, j :: 0 <= i < a.Length0 && 0 <= j < a.Length0 ==>
      a[i, j] == (if i == src
                  then Rescaled(old(a[i, j]), j == src, capacity, Sum(old(GridOf(a))[src]))
                  else old(a[i, j]))
  {
    hide Sum;
    var sent := SumRow(a, src);
    if sent > 0.0 {
      var factor := capacity / sent;
      for j := 0 to a.Length0
        invariant forall p, q :: 0 <= p < a.Length0 && 0 <= q < a.Length0 ==>
          a[p, q] == (if p == src && q < j then old(a[p, q]) * factor else old(a[p, q]))
      {
        a[src, j] := a[src, j] * factor;
      }
      a[src, src] := 0.0;
    }
  }

  /** Scaling the columns one after another is scaling them all at once. */
  method AdjustReceiversInPlace(a: array2<real>, caps: seq<real>)
    requires a.Length0 == a.Length1 == |caps|
    modifies a
    ensures GridOf(a) == AdjustReceivers(old(GridOf(a)), caps)
  {
    hide Sum, Rescaled, AdjustReceivers;
    var n := |caps|;
    ghost var g := GridOf(a);
    ghost var h := AdjustReceivers(g, caps);
    for dst := 0 to n
      invariant forall i, j :: 0 <= i < n && 0 <= j < n ==> a[i, j] == (if j < dst then h[i][j] else g[i][j])
    {
      assert ColumnOf(GridOf(a), n, dst) == ColumnOf(g, n, dst);
      ScaleColumn(a, dst, caps[dst]);
    }
    SameGrid(GridOf(a), h);
  }

  method RenormaliseSendersInPlace(a: array2<real>, cap: real)
    requires a.Length0 == a.Length1
    modifies a
    ensures GridOf(a) == RenormaliseSenders(old(GridOf(a)), cap)
  {
    hide Sum, Rescaled, RenormaliseSenders;
    var n := a.Length0;
    ghost var g := GridOf(a);
    ghost var h := RenormaliseSenders(g, cap);
    for src := 0 to n
      invariant forall i, j :: 0 <= i < n && 0 <= j < n ==> a[i, j] == (if i < src then h[i][j] else g[i][j])
    {
      assert GridOf(a)[src] == g[src];
      ScaleRow(a, src, cap);
    }
    SameGrid(GridOf(a), h);
  }

  // ------------------------------------------------------------ the convergence test

  /** What a division of floats can yield. */
  datatype Number = Finite(value: real) | Infinite | NotANumber

  /** `a > b`; no comparison with a NaN holds. */
  predicate Greater(a: Number, b: Number) {
    if a.NotANumber? || b.NotANumber? || b.Infinite? then false
    else a.Infinite? || a.value > b.value
  }

  /** `abs(received - capacity) / capacity` */
  function RelativeError(received: real, capacity: real): Number
    requires capacity >= 0.0
  {
    if capacity > 0.0 then Finite(Distance(received, capacity) / capacity)
    else if received == 0.0 then NotANumber
    else Infinite
  }

  /** Python's `max`: the first of the greatest, by comparisons only. */
  method Largest(errors: seq<Number>) returns (m: Number)
    requires errors != []
    ensures m in errors
    ensures (forall k :: 0 <= k < |errors| ==> errors[k].Finite?)
      ==> forall k :: 0 <= k < |errors| ==> errors[k].value <= m.value
  {
    m := errors[0];
    for i := 1 to |errors|
      invariant m in errors
      invariant (forall k :: 0 <= k < |errors| ==> errors[k].Finite?)
        ==> forall k :: 0 <= k < i ==> errors[k].value <= m.value
    {
      if Greater(errors[i], m) {
        m := errors[i];
      }
    }
  }

  /** Capacities are positive multiples of one total. */
  predicate OneSign(caps: seq<real>) {
    (forall j :: 0 <= j < |caps| ==> caps[j] > 0.0) || (forall j :: 0 <= j < |caps| ==> caps[j] == 0.0)
  }

  lemma CapacitiesHaveOneSign(w: seq<real>, total: real)
    requires Weights(w) && total >= 0.0
    ensures OneSign(Capacities(w, total))
  {
    if total > 0.0 {
      forall j | 0 <= j < |w| ensures w[j] * total > 0.0 {
        ProductSign(w[j], total, w[j] * total);
      }
    }
  }

  /** The greatest relative error of a receiver is below the tolerance. */
  method HasConverged(a: array2<real>, caps: seq<real>) returns (done: bool)
    requires a.Length0 == a.Length1 == |caps| && caps != [] && OneSign(caps)
    ensures done == Converged(GridOf(a), caps)
  {
    hide Sum, Distance;
    var n := |caps|;
    ghost var g := GridOf(a);
    var receiverErrors: seq<Number> := [];
    for dst := 0 to n
      invariant |receiverErrors| == dst
      invariant forall j: nat :: j < dst ==> receiverErrors[j] == RelativeError(Sum(ColumnOf(g, n, j)), caps[j])
    {
      var received := SumColumn(a, dst);
      receiverErrors := receiverErrors + [RelativeError(received, caps[dst])];
    }
    var greatest := Largest(receiverErrors);
    done := greatest.Finite? && greatest.value < TOLERANCE;
    AllWithin(g, caps, receiverErrors, greatest);
  }

  lemma AllWithin(g: Grid, caps: seq<real>, errors: seq<Number>, m: Number)
    requires Square(g) && |g| == |caps| == |errors| && OneSign(caps) && m in errors
    requires forall j: nat :: j < |g| ==> errors[j] == RelativeError(Sum(ColumnOf(g, |g|, j)), caps[j])
    requires (forall k :: 0 <= k < |errors| ==> errors[k].Finite?)
      ==> forall k :: 0 <= k < |errors| ==> errors[k].value <= m.value
    ensures m.Finite? && m.value < TOLERANCE <==> Converged(g, caps)
  {
    hide Sum, Distance;
    var i :| 0 <= i < |errors| && errors[i] == m;
    assert forall j: nat :: j < |g| ==> errors[j].Finite? == (caps[j] > 0.0);
    if Converged(g, caps) {
      assert Within(Sum(ColumnOf(g, |g|, i)), caps[i]);
    }
    if m.Finite? && m.value < TOLERANCE {
      assert caps[i] > 0.0;
      forall j: nat | j < |g| ensures Within(Sum(ColumnOf(g, |g|, j)), caps[j]) {
        assert errors[j].value <= m.value;
      }
    }
  }

  // ------------------------------------------------------------ the whole branches

  method FillUniform(n: nat, x: real) returns (a: array2<real>)
    ensures fresh(a) && a.Length0 == a.Length1 == n && GridOf(a) == Uniform(n, x)
  {
    a := new real[n, n]((_, _) => 0.0);
    for src := 0 to n
      invariant forall i, j :: 0 <= i < n && 0 <= j < n ==> a[i, j] == (if i < src && i != j then x else 0.0)
    {
      for dst := 0 to n
        invariant forall i, j :: 0 <= i < n && 0 <= j < n && i != src ==>
          a[i, j] == (if i < src && i != j then x else 0.0)
        invariant forall j :: 0 <= j < n ==> a[src, j] == (if j < dst && src != j then x else 0.0)
      {
        if src != dst {
          a[src, dst] := x;
        }
      }
    }
    SameGrid(GridOf(a), Uniform(n, x));
  }

  method CutToBytes(a: array2<real>) returns (sizes: seq<nat>)
    requires a.Length0 == a.Length1 && NonNegativeGrid(GridOf(a))
    ensures sizes == Flat(TruncatedRows(GridOf(a)))
  {
    ghost var rows := TruncatedRows(GridOf(a));
    sizes := [];
    for src := 0 to a.Length0
      invariant sizes == Flat(rows[..src])
    {
      for dst := 0 to a.Length1
        invariant sizes == Flat(rows[..src]) + rows[src][..dst]
      {
        assert GridOf(a)[src][dst] == a[src, dst];
        sizes := sizes + [Truncate(a[src, dst])];
      }
      assert rows[..src + 1][..src] == rows[..src];
    }
    assert rows[..a.Length0] == rows;
  }

  lemma NothingNegative(base: nat, n: nat)
    ensures n > 0 ==> base * n * (n - 1) >= 0
  {
    assert base * n >= 0;
  }

  /** What a list of sizes says after that many rounds. */
  ghost predicate Generated(sizes: seq<nat>, w: seq<real>, cap: nat, rounds: nat) {
    && (|w| >= 2 && cap > 0 ==> Positive(w) && SizesShaped(sizes, Factors(w, rounds), cap))
    && (|w| < 2 || cap == 0 ==> |sizes| == |w| * |w| && forall k :: 0 <= k < |sizes| ==> sizes[k] == 0)
  }

  lemma {:induction false} FlatOfZeros(m: seq<seq<nat>>)
    requires forall i, j :: 0 <= i < |m| && 0 <= j < |m[i]| ==> m[i][j] == 0
    ensures forall k :: 0 <= k < |Flat(m)| ==> Flat(m)[k] == 0
  {
    if m == [] {
    } else {
      FlatOfZeros(m[..|m| - 1]);
    }
  }

  lemma ZeroSizes(n: nat)
    ensures NonNegativeGrid(Uniform(n, 0.0))
    ensures var sizes := Flat(TruncatedRows(Uniform(n, 0.0)));
      |sizes| == n * n && forall k :: 0 <= k < |sizes| ==> sizes[k] == 0
  {
    var g := Uniform(n, 0.0);
    forall i | 0 <= i < n ensures NonNegative(g[i]) {
    }
    var rows := TruncatedRows(g);
    FlatLength(rows, n);
    forall i, j | 0 <= i < n && 0 <= j < n ensures rows[i][j] == 0 {
      assert g[i][j] == 0.0;
    }
    FlatOfZeros(rows);
  }

  lemma RunGenerated(w: seq<real>, base: nat)
    requires Weights(w) && w != [] && NonNegativeGrid(RunTraffic(w, base))
    ensures Generated(Flat(TruncatedRows(RunTraffic(w, base))), w, base, RoundsMade(w, base))
  {
    hide Weights, RunTraffic, RunRounds, Factors, TruncatedRows, Shaped, SizesShaped, NonNegativeGrid;
    RunTrafficIs(w, base);
    if |w| >= 2 && base > 0 {
      RunRoundsShaped(w, base, RoundsMade(w, base));
      ShapedSizes(RunTraffic(w, base), Factors(w, RoundsMade(w, base)), base);
    } else {
      NothingSent(w, base, RoundsMade(w, base));
      ZeroSizes(|w|);
    }
  }

  lemma AnalyzerGenerated(w: seq<real>, flow: nat)
    requires Weights(w) && w != [] && NonNegativeGrid(AnalyzerTraffic(w, flow))
    ensures Generated(Flat(TruncatedRows(AnalyzerTraffic(w, flow))), w, flow * (|w| - 1), MAX_ITERATIONS)
  {
    hide Weights, AnalyzerTraffic, Factors, TruncatedRows, Shaped, SizesShaped, NonNegativeGrid;
    var n := |w|;
    if n >= 2 && flow > 0 {
      MulPositive(flow, n - 1);
      AnalyzerTrafficShaped(w, flow);
      ShapedSizes(AnalyzerTraffic(w, flow), Factors(w, MAX_ITERATIONS), flow * (n - 1));
    } else {
      AnalyzerSendsNothing(w, flow);
      ZeroSizes(n);
      assert flow * (n - 1) == 0;
    }
  }

  lemma AnalyzerSendsNothing(w: seq<real>, flow: nat)
    requires w != [] && (|w| == 1 || flow == 0)
    ensures AnalyzerTraffic(w, flow) == Uniform(|w|, 0.0)
  {
    hide Rounds, Iterate, Capacities, Uniform;
    var n := |w|;
    assert flow * n * (n - 1) == 0;
    NoFlow(n, flow as real);
    NothingToScale(n, Capacities(w, 0.0), (flow * (n - 1)) as real, MAX_ITERATIONS);
  }

  lemma OneRound(g: Grid, caps: seq<real>, cap: real)
    requires Square(g) && |caps| == |g|
    ensures Round(g, caps, cap) == RenormaliseSenders(AdjustReceivers(g, caps), cap)
  {
  }

  /** The `moe` branch of `generate_alltoallv_message_sizes`.  It makes a hundred
      rounds, or one for a pair of servers of nearly equal weights, and the sizes
      are those that so many rounds give.  */
  method RunMoeSizes(w: seq<real>, base: nat) returns (sizes: seq<nat>, rounds: nat)
    requires Weights(w)
    ensures NonNegativeGrid(RunTraffic(w, base))
    ensures sizes == Flat(TruncatedRows(RunTraffic(w, base)))
    ensures rounds == if |w| == 2 && base > 0 && 50.0 < 101.0 * w[0] < 51.0 then 1 else 100
    ensures Generated(sizes, w, base, rounds)
  {
    hide Sum, AdjustReceivers, RenormaliseSenders, Converged, Uniform, Capacities, NonNegativeGrid, InitialFlow;
    hide Round, NearlyEqualPair, Generated;
    var n := |w|;
    NothingNegative(base, n);
    CapacitiesHaveOneSign(w, (base * n * (n - 1)) as real);
    var caps := Capacities(w, (base * n * (n - 1)) as real);
    var a := FillUniform(n, InitialFlow(base, n));
    rounds := 0;
    var done := false;
    while rounds < MAX_ITERATIONS && !done
      invariant fresh(a) && a.Length0 == a.Length1 == n && rounds <= MAX_ITERATIONS
      invariant GridOf(a) == RunRounds(w, base, rounds)
      invariant done ==> NearlyEqualPair(w, base) && rounds == 1
      invariant !done && rounds > 0 ==> !NearlyEqualPair(w, base)
      decreases MAX_ITERATIONS - rounds
    {
      RoundsSnoc(Uniform(n, InitialFlow(base, n)), caps, base as real, rounds);
      RunRoundsConverge(w, base, rounds + 1);
      OneRound(GridOf(a), caps, base as real);
      AdjustReceiversInPlace(a, caps);
      RenormaliseSendersInPlace(a, base as real);
      rounds := rounds + 1;
      done := HasConverged(a, caps);
    }
    TrafficNonNegative(w, base);
    NearlyEqualMeans(w, base);
    RunTrafficIs(w, base);
    RunGenerated(w, base);
    sizes := CutToBytes(a);
  }

  /** The `moe` branch of `generate_traffic_matrix`: always a hundred rounds. */
  method AnalyzerMoeMatrix(w: seq<real>, flow: nat) returns (sizes: seq<nat>, rounds: nat)
    requires Weights(w)
    ensures NonNegativeGrid(AnalyzerTraffic(w, flow))
    ensures sizes == Flat(TruncatedRows(AnalyzerTraffic(w, flow)))
    ensures rounds == 100 && Generated(sizes, w, flow * (|w| - 1), rounds)
  {
    hide Generated;
    var n := |w|;
    var caps := Capacities(w, (flow * n * (n - 1)) as real);
    var a := FillUniform(n, flow as real);
    rounds := 0;
    for round := 0 to MAX_ITERATIONS
      invariant fresh(a) && a.Length0 == a.Length1 == n && rounds == round
      invariant Rounds(GridOf(a), caps, (flow * (n - 1)) as real, MAX_ITERATIONS - round) == AnalyzerTraffic(w, flow)
    {
      AdjustReceiversInPlace(a, caps);
      RenormaliseSendersInPlace(a, (flow * (n - 1)) as real);
      rounds := rounds + 1;
    }
    TrafficNonNegative(w, flow);
    AnalyzerGenerated(w, flow);
    sizes := CutToBytes(a);
  }
}
