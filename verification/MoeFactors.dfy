/** What the rounds of the `moe` pattern compute, in closed form: the matrix after
    any number of rounds is determined by one number per receiver.  Server `i`
    splits what it sends over the others in proportion to these numbers.  */
module MoeFactors {
  import opened Arithmetic
  import opened RealSums
  import opened RealArithmetic
  import opened Grids
  import opened MoeScaling

  // ------------------------------------------------------------ the factors

  /** What all but entry `i` add up to. */
  function Others(s: seq<real>, i: nat): real
    requires i < |s|
  {
    Sum(s) - s[i]
  }

  lemma OthersPositive(c: seq<real>, i: nat)
    requires |c| >= 2 && Positive(c) && i < |c|
    ensures Others(c, i) > 0.0
  {
    hide Sum;
    var d := c[i := 0.0];
    SumReplaced(c, i, 0.0);
    SumPositive(d, if i == 0 then 1 else 0);
  }

  lemma {:induction false} SumReplaced(s: seq<real>, i: nat, x: real)
    requires i < |s|
    ensures Sum(s[i := x]) == Sum(s) - s[i] + x
  {
    var n := |s| - 1;
    if i == n {
      assert s[i := x][..n] == s[..n];
    } else {
      SumReplaced(s[..n], i, x);
      assert s[i := x][..n] == s[..n][i := x];
    }
  }

  /** How much a unit of receivers' demand is worth to each sender. */
  function Inverses(c: seq<real>): (r: seq<real>)
    requires |c| >= 2 && Positive(c)
    ensures |r| == |c| && Positive(r)
    ensures forall i :: 0 <= i < |c| ==> r[i] * Others(c, i) == 1.0
  {
    InversesExist(c);
    seq(|c|, i requires 0 <= i < |c| => 1.0 / Others(c, i))
  }

  lemma InversesExist(c: seq<real>)
    requires |c| >= 2 && Positive(c)
    ensures forall i :: 0 <= i < |c| ==> Others(c, i) > 0.0 && 1.0 / Others(c, i) > 0.0
  {
    forall i | 0 <= i < |c| ensures Others(c, i) > 0.0 && 1.0 / Others(c, i) > 0.0 {
      OthersPositive(c, i);
      Quotient(1.0, Others(c, i), 1.0 / Others(c, i));
    }
  }

  /** One round: each receiver's factor is its weight over what the other
      servers have to offer.  */
  function NextFactors(w: seq<real>, c: seq<real>): (d: seq<real>)
    requires |c| == |w| >= 2 && Positive(c) && Positive(w)
    ensures |d| == |c| && Positive(d)
    ensures forall j :: 0 <= j < |c| ==> d[j] * Others(Inverses(c), j) == w[j]
  {
    NextExist(w, c);
    seq(|c|, j requires 0 <= j < |c| => w[j] / Others(Inverses(c), j))
  }

  lemma NextExist(w: seq<real>, c: seq<real>)
    requires |c| == |w| >= 2 && Positive(c) && Positive(w)
    ensures forall j :: 0 <= j < |c| ==> Others(Inverses(c), j) > 0.0 && w[j] / Others(Inverses(c), j) > 0.0
  {
    hide Inverses;
    var r := Inverses(c);
    forall j | 0 <= j < |c| ensures Others(r, j) > 0.0 && w[j] / Others(r, j) > 0.0 {
      OthersPositive(r, j);
      Quotient(w[j], Others(r, j), w[j] / Others(r, j));
    }
  }

  /** The factors after `k` rounds. */
  function Factors(w: seq<real>, k: nat): (c: seq<real>)
    requires |w| >= 2 && Positive(w)
    ensures |c| == |w| && Positive(c)
  {
    if k == 0 then Constant(|w|, 1.0) else NextFactors(w, Factors(w, k - 1))
  }

  // ------------------------------------------------------------ the matrix

  /** Server `i` sends `cap` in all, in proportion to the factors. */
  ghost predicate Shaped(g: Grid, c: seq<real>, cap: real) {
    && Square(g) && |g| == |c|
    && (forall i: nat :: i < |g| ==> g[i][i] == 0.0)
    && forall i: nat, j: nat :: i < |g| && j < |g| && i != j ==> g[i][j] * Others(c, i) == cap * c[j]
  }

  /** A lane that is a multiple of another one except for one empty entry. */
  lemma LaneSum(a: seq<real>, b: seq<real>, i: nat, y: real)
    requires |a| == |b| && i < |a|
    requires forall k :: 0 <= k < |a| ==> a[k] == if k == i then 0.0 else b[k] * y
    ensures Sum(a) == Others(b, i) * y
  {
    hide Sum;
    SumReplaced(b, i, 0.0);
    SumScaled(b[i := 0.0], a, y);
  }

  lemma UniformShaped(n: nat, x: real, cap: real)
    requires n >= 2 && cap == x * (n - 1) as real
    ensures Shaped(Uniform(n, x), Constant(n, 1.0), cap)
  {
    SumConstant(n, 1.0);
    assert n as real * 1.0 == n as real;
  }

  /** An entry in terms of the inverses. */
  lemma ShapedEntry(g: Grid, c: seq<real>, cap: real, i: nat, j: nat)
    requires |c| >= 2 && Positive(c) && Shaped(g, c, cap) && i < |g| && j < |g|
    ensures g[i][j] == if i == j then 0.0 else Inverses(c)[i] * (cap * c[j])
  {
    hide Sum, Inverses;
    if i != j {
      OthersPositive(c, i);
      var p := cap * c[j];
      assert g[i][j] * Others(c, i) == p;
      CrossMultiply(g[i][j], Others(c, i), Inverses(c)[i], p);
    }
  }

  lemma CrossMultiply(x: real, o: real, r: real, p: real)
    requires r * o == 1.0 && x * o == p && o > 0.0
    ensures x == r * p
  {
    assert (r * p) * o == (r * o) * p;
    SameFactor(x, r * p, o);
  }

  /** What receiver `j` gets before its column is scaled. */
  lemma ColumnSum(g: Grid, c: seq<real>, cap: real, j: nat)
    requires |c| >= 2 && Positive(c) && Shaped(g, c, cap) && j < |g|
    ensures Sum(ColumnOf(g, |g|, j)) == Others(Inverses(c), j) * (cap * c[j])
  {
    hide Sum, Inverses, Shaped, Others;
    ShapedIsSquare(g, c, cap);
    var r := Inverses(c);
    forall i: nat | i < |g| ensures g[i][j] == if i == j then 0.0 else r[i] * (cap * c[j]) {
      ShapedEntry(g, c, cap, i, j);
    }
    LaneSum(ColumnOf(g, |g|, j), r, j, cap * c[j]);
  }

  lemma ShapedIsSquare(g: Grid, c: seq<real>, cap: real)
    requires Shaped(g, c, cap)
    ensures Square(g) && |g| == |c|
  {
  }

  /** A column entry after scaling: old entry `x`, sum of the others' inverses
      `o`, old factor times capacity `p`, wanted total `t`, new factor `d`.  */
  lemma ScaledEntry(x: real, r: real, o: real, p: real, w: real, total: real, d: real, sum: real, y: real)
    requires x == r * p && sum == o * p && o > 0.0 && p > 0.0 && d * o == w
    requires sum > 0.0 && y == x * ((w * total) / sum)
    ensures y == (total * r) * d
  {
    var q := (w * total) / sum;
    assert q * sum == w * total;
    assert (q * p) * o == q * (o * p);
    assert (d * total) * o == (d * o) * total;
    SameFactor(q * p, d * total, o);
    assert x * q == r * (q * p);
    assert r * (d * total) == (total * r) * d;
  }

  /** After the receiver loop. */
  lemma AdjustedEntry(g: Grid, w: seq<real>, c: seq<real>, cap: real, total: real, i: nat, j: nat)
    requires |c| == |w| >= 2 && Positive(c) && Positive(w) && Shaped(g, c, cap)
    requires cap > 0.0 && total > 0.0 && i < |g| && j < |g|
    ensures AdjustReceivers(g, Capacities(w, total))[i][j]
         == if i == j then 0.0 else (total * Inverses(c)[i]) * NextFactors(w, c)[j]
  {
    hide Sum, Inverses, NextFactors, Shaped, Others;
    ShapedIsSquare(g, c, cap);
    var r, d := Inverses(c), NextFactors(w, c);
    var p, o := cap * c[j], Others(r, j);
    ShapedEntry(g, c, cap, i, j);
    ColumnSum(g, c, cap, j);
    OthersPositive(r, j);
    ProductSign(cap, c[j], p);
    ProductSign(o, p, o * p);
    if i != j {
      ScaledEntry(g[i][j], r[i], o, p, w[j], total, d[j], o * p, g[i][j] * ((w[j] * total) / (o * p)));
    }
  }

  /** One round replaces the factors by the next ones. */
  lemma RoundShaped(g: Grid, w: seq<real>, c: seq<real>, cap: real, total: real)
    requires |c| == |w| >= 2 && Positive(c) && Positive(w) && Shaped(g, c, cap) && cap > 0.0 && total > 0.0
    ensures Shaped(Round(g, Capacities(w, total), cap), NextFactors(w, c), cap)
  {
    hide Sum, NextFactors, Capacities, Others, Round;
    ShapedIsSquare(g, c, cap);
    var d, u := NextFactors(w, c), Round(g, Capacities(w, total), cap);
    forall i: nat | i < |g| ensures u[i][i] == 0.0 {
      RoundEntry(g, w, c, cap, total, i, i);
    }
    forall i: nat, j: nat | i < |g| && j < |g| && i != j ensures u[i][j] * Others(d, i) == cap * d[j] {
      RoundEntry(g, w, c, cap, total, i, j);
    }
  }

  lemma RoundEntry(g: Grid, w: seq<real>, c: seq<real>, cap: real, total: real, i: nat, j: nat)
    requires |c| == |w| == |g| >= 2 && Positive(c) && Positive(w) && Shaped(g, c, cap) && cap > 0.0 && total > 0.0
    requires i < |g| && j < |g|
    ensures i == j ==> Round(g, Capacities(w, total), cap)[i][j] == 0.0
    ensures i != j ==>
      Round(g, Capacities(w, total), cap)[i][j] * Others(NextFactors(w, c), i) == cap * NextFactors(w, c)[j]
  {
    hide Sum, Inverses, NextFactors, Capacities, Others, AdjustReceivers, Shaped;
    ShapedIsSquare(g, c, cap);
    var r, d := Inverses(c), NextFactors(w, c);
    var h := AdjustReceivers(g, Capacities(w, total));
    forall k: nat | k < |g| ensures h[i][k] == if k == i then 0.0 else d[k] * (total * r[i]) {
      AdjustedEntry(g, w, c, cap, total, i, k);
    }
    LaneSum(h[i], d, i, total * r[i]);
    OthersPositive(d, i);
    ProductSign(total, r[i], total * r[i]);
    var z := Round(g, Capacities(w, total), cap)[i][j];
    RowEntry(h[i][j], total * r[i], Others(d, i), d[j], cap, Sum(h[i]), z, i == j);
  }

  lemma RowEntry(x: real, y: real, o: real, d: real, cap: real, sum: real, z: real, diagonal: bool)
    requires sum == o * y && o > 0.0 && y > 0.0 && (if diagonal then x == 0.0 else x == d * y)
    requires z == Rescaled(x, diagonal, cap, sum)
    ensures if diagonal then z == 0.0 else z * o == cap * d
  {
    ProductSign(o, y, sum);
    if !diagonal {
      var q := cap / sum;
      assert q * sum == cap;
      assert z * o == (d * y * q) * o;
      assert (d * y * q) * o == d * (q * (o * y));
    }
  }

  /** Any number of rounds: the matrix is determined by the factors, whatever
      the receivers' capacities add up to.  */
  lemma {:induction false} RoundsShaped(g: Grid, w: seq<real>, c: seq<real>, cap: real, total: real, m: nat, k: nat)
    requires |w| >= 2 && Positive(w) && c == Factors(w, m) && Shaped(g, c, cap) && cap > 0.0 && total > 0.0
    ensures |g| == |w| && Square(g)
    ensures Shaped(Rounds(g, Capacities(w, total), cap, k), Factors(w, m + k), cap)
    decreases k
  {
    hide Round, NextFactors, Capacities, Shaped;
    ShapedIsSquare(g, c, cap);
    if k == 0 {
    } else {
      RoundShaped(g, w, c, cap, total);
      RoundsShaped(Round(g, Capacities(w, total), cap), w, NextFactors(w, c), cap, total, m + 1, k - 1);
    }
  }

  // ------------------------------------------------------------ both programs

  lemma WeightsArePositive(w: seq<real>)
    requires Weights(w)
    ensures Positive(w)
  {
  }

  lemma {:induction false} RoundsSnoc(g: Grid, caps: seq<real>, cap: real, k: nat)
    requires Square(g) && |caps| == |g|
    ensures Rounds(g, caps, cap, k + 1) == Round(Rounds(g, caps, cap, k), caps, cap)
    decreases k
  {
    hide Round;
    if k == 0 {
      assert Rounds(Round(g, caps, cap), caps, cap, 0) == Round(g, caps, cap);
    } else {
      RoundsSnoc(Round(g, caps, cap), caps, cap, k - 1);
    }
  }

  /** The matrix of run.py after `k` rounds. */
  function RunRounds(w: seq<real>, base: nat, k: nat): (g: Grid)
    requires w != []
    ensures |g| == |w| && Square(g)
  {
    Rounds(Uniform(|w|, InitialFlow(base, |w|)), Capacities(w, (base * |w| * (|w| - 1)) as real), base as real, k)
  }

  /** After `k` rounds of run.py server `i` sends to server `j` what it sends
      in all, times the factor of `j`, over the factors of all others.  */
  lemma RunRoundsShaped(w: seq<real>, base: nat, k: nat)
    requires Weights(w) && |w| >= 2 && base > 0
    ensures Positive(w) && Shaped(RunRounds(w, base, k), Factors(w, k), base as real)
  {
    hide Factors, Shaped, Weights, Capacities, InitialFlow;
    var n := |w|;
    WeightsArePositive(w);
    TotalIs(base, n);
    FlowTimesPeers(base, n);
    UniformShaped(n, InitialFlow(base, n), base as real);
    FirstFactors(w);
    RoundsShaped(Uniform(n, InitialFlow(base, n)), w, Constant(n, 1.0), base as real,
                 (base * n * (n - 1)) as real, 0, k);
  }

  lemma FirstFactors(w: seq<real>)
    requires |w| >= 2 && Positive(w)
    ensures Factors(w, 0) == Constant(|w|, 1.0)
  {
  }

  /** A pair of servers whose receivers are wanted almost equally. */
  predicate NearlyEqualPair(w: seq<real>, base: nat) {
    |w| == 2 && base > 0 && NearlyHalf(w[0]) && NearlyHalf(w[1])
  }

  /** Two weights are nearly equal if both lie strictly between 50/101 and 51/101. */
  lemma NearlyEqualMeans(w: seq<real>, base: nat)
    requires Weights(w)
    ensures NearlyEqualPair(w, base) <==> |w| == 2 && base > 0 && 50.0 < 101.0 * w[0] < 51.0
  {
    if |w| == 2 {
      SumOfTwo(w);
    }
  }

  /** When the convergence test passes after a round. */
  lemma RunRoundsConverge(w: seq<real>, base: nat, k: nat)
    requires Weights(w) && w != [] && k > 0
    ensures Converged(RunRounds(w, base, k), Capacities(w, (base * |w| * (|w| - 1)) as real))
      <==> NearlyEqualPair(w, base)
  {
    hide Weights, NearlyHalf, InitialFlow, Rounds;
    var n := |w|;
    if n >= 2 && base > 0 {
      RunRoundsKeep(w, base, k);
      hide Converged, Capacities, RunRounds, Traffic, SendsExactly;
      ConvergesExactlyWhen(RunRounds(w, base, k), w, base);
    } else {
      assert base * n * (n - 1) == 0;
      NothingConverges(RunRounds(w, base, k), Capacities(w, 0.0));
    }
  }

  lemma RunRoundsKeep(w: seq<real>, base: nat, k: nat)
    requires Weights(w) && |w| >= 2 && base > 0
    ensures Traffic(RunRounds(w, base, k)) && SendsExactly(RunRounds(w, base, k), base as real)
  {
    hide Weights, InitialFlow, Rounds, Traffic, SendsExactly, Capacities, Uniform, Grids.Wide, Grids.Square;
    var n := |w|;
    var total := (base * n * (n - 1)) as real;
    FlowTimesPeers(base, n);
    UniformTraffic(n, InitialFlow(base, n), base as real);
    SomeTotal(base, n);
    CapacitiesTotal(w, total);
    TrafficIsSquare(Uniform(n, InitialFlow(base, n)));
    RoundsKeep(Uniform(n, InitialFlow(base, n)), Capacities(w, total), base as real, k);
  }

  lemma SomeTotal(base: nat, n: nat)
    requires n >= 2 && base > 0
    ensures (base * n * (n - 1)) as real > 0.0
  {
    TotalIs(base, n);
  }

  lemma NothingConverges(g: Grid, caps: seq<real>)
    requires Square(g) && |caps| == |g| > 0 && forall j :: 0 <= j < |caps| ==> caps[j] == 0.0
    ensures !Converged(g, caps)
  {
    hide Sum;
    assert !Within(Sum(ColumnOf(g, |g|, 0)), caps[0]);
  }

  /** The number of rounds that run.py's loop makes. */
  function RoundsMade(w: seq<real>, base: nat): nat {
    if NearlyEqualPair(w, base) then 1 else MAX_ITERATIONS
  }

  /** run.py's result is the matrix after that many rounds ... */
  lemma {:induction false} IterateStops(w: seq<real>, base: nat, done: nat, left: nat)
    requires Weights(w) && w != [] && (NearlyEqualPair(w, base) ==> done == 0 && left > 0)
    ensures Iterate(RunRounds(w, base, done), Capacities(w, (base * |w| * (|w| - 1)) as real), base as real, left)
      == RunRounds(w, base, if NearlyEqualPair(w, base) then 1 else done + left)
    decreases left
  {
    hide Weights, NearlyEqualPair, InitialFlow, Capacities, Round, Converged, Rounds;
    if left == 0 {
    } else {
      RoundsSnoc(Uniform(|w|, InitialFlow(base, |w|)), Capacities(w, (base * |w| * (|w| - 1)) as real),
                 base as real, done);
      RunRoundsConverge(w, base, done + 1);
      if !NearlyEqualPair(w, base) {
        IterateStops(w, base, done + 1, left - 1);
      }
    }
  }

  lemma RunTrafficIs(w: seq<real>, base: nat)
    requires Weights(w)
    ensures RunTraffic(w, base) == RunRounds(w, base, RoundsMade(w, base))
  {
    hide NearlyEqualPair, InitialFlow, Capacities, Round, Iterate;
    IterateStops(w, base, 0, MAX_ITERATIONS);
    NoRounds(w, base);
  }

  lemma NoRounds(w: seq<real>, base: nat)
    requires w != []
    ensures RunRounds(w, base, 0) == Uniform(|w|, InitialFlow(base, |w|))
  {
  }

  /** Whatever the capacities of the receivers add up to: the analyzer's matrix
      has the same factors.  */
  lemma AnalyzerTrafficShaped(w: seq<real>, flow: nat)
    requires Weights(w) && |w| >= 2 && flow > 0
    ensures Positive(w) && Shaped(AnalyzerTraffic(w, flow), Factors(w, MAX_ITERATIONS), (flow * (|w| - 1)) as real)
  {
    hide Factors, Shaped, Weights, Capacities, Rounds, Uniform, Constant;
    var n := |w|;
    var cap, total := (flow * (n - 1)) as real, (flow * n * (n - 1)) as real;
    WeightsArePositive(w);
    TotalIs(flow, n);
    MulPositive(flow, n - 1);
    CapacityOfFlows(flow, n, cap);
    UniformShaped(n, flow as real, cap);
    FirstFactors(w);
    RoundsShaped(Uniform(n, flow as real), w, Constant(n, 1.0), cap, total, 0, MAX_ITERATIONS);
  }

  lemma CapacityOfFlows(flow: nat, n: nat, cap: real)
    requires n >= 1 && cap == (flow * (n - 1)) as real
    ensures cap == flow as real * (n - 1) as real
  {
  }

  // ------------------------------------------------------------ who gets more

  ghost predicate SameOrder(w: seq<real>, c: seq<real>, a: nat, b: nat)
    requires |w| == |c| && a < |w| && b < |w|
  {
    (w[a] > w[b] <==> c[a] > c[b]) && (w[a] == w[b] <==> c[a] == c[b])
  }

  /** From the first round on the factors are ordered as the weights are. */
  lemma {:induction false} FactorsFollowWeights(w: seq<real>, k: nat, a: nat, b: nat)
    requires |w| >= 2 && Positive(w) && k > 0 && a < |w| && b < |w|
    ensures SameOrder(w, Factors(w, k), a, b)
  {
    var c := Factors(w, k - 1);
    hide NextFactors, Sum;
    if k == 1 {
      assert c[a] == c[b] == 1.0;
    } else {
      FactorsFollowWeights(w, k - 1, a, b);
    }
    if w[a] >= w[b] {
      NextOrder(w, c, a, b);
    } else {
      NextOrder(w, c, b, a);
    }
  }

  lemma NextOrder(w: seq<real>, c: seq<real>, a: nat, b: nat)
    requires |c| == |w| >= 2 && Positive(c) && Positive(w) && a < |w| && b < |w| && w[a] >= w[b]
    requires c[a] >= c[b] && (w[a] == w[b] ==> c[a] == c[b])
    ensures NextFactors(w, c)[a] >= NextFactors(w, c)[b]
    ensures NextFactors(w, c)[a] == NextFactors(w, c)[b] <==> w[a] == w[b]
  {
    hide Sum, Inverses, NextFactors;
    var r, d := Inverses(c), NextFactors(w, c);
    OthersPositive(c, a);
    OthersPositive(c, b);
    ProductOrder(r[a], r[b], Others(c, a), Others(c, b), 1.0, 1.0);
    OthersPositive(r, a);
    OthersPositive(r, b);
    ProductOrder(d[a], d[b], Others(r, a), Others(r, b), w[a], w[b]);
  }

  /** A larger product of a smaller positive factor: the other factor is larger. */
  lemma ProductOrder(x: real, y: real, s: real, t: real, p: real, q: real)
    requires 0.0 < s <= t && x * s == p && y * t == q && p >= q > 0.0
    ensures x >= y && (x == y <==> p == q && s == t)
  {
    ProductSign(y, t, q);
    var e, d := y * (t - s), x - y;
    NonNegativeProduct(y, t - s, e);
    assert d * s == p - q + e;
    ProductSign(d, s, p - q + e);
  }

  /** After any number of rounds, but at least one, a server sends more to one
      receiver than to another if and only if the weight of the one is larger.  */
  lemma LargerWeightGetsMore(w: seq<real>, base: nat, k: nat, i: nat, a: nat, b: nat)
    requires Weights(w) && |w| >= 3 && base > 0 && k > 0
    requires i < |w| && a < |w| && b < |w| && i != a && i != b
    ensures RunRounds(w, base, k)[i][a] > RunRounds(w, base, k)[i][b] <==> w[a] > w[b]
    ensures RunRounds(w, base, k)[i][a] == RunRounds(w, base, k)[i][b] <==> w[a] == w[b]
  {
    hide Sum, Factors, Others, Weights, RunRounds;
    RunRoundsShaped(w, base, k);
    var c := Factors(w, k);
    FactorsFollowWeights(w, k, a, b);
    OthersPositive(c, i);
    var g := RunRounds(w, base, k);
    SameDivisor(g[i][a], g[i][b], Others(c, i), base as real, c[a], c[b]);
  }

  lemma SameDivisor(x: real, y: real, o: real, base: real, c: real, d: real)
    requires o > 0.0 && base > 0.0 && x * o == base * c && y * o == base * d
    ensures (x > y <==> c > d) && (x == y <==> c == d)
  {
    var e := base * (c - d);
    assert (x - y) * o == e;
    ProductSign(x - y, o, e);
    ProductSign(y - x, o, -e);
    ProductSign(c - d, base, e);
    ProductSign(d - c, base, -e);
  }

  // ------------------------------------------------------------ three servers, round by round

  predicate HalfAndQuarters(w: seq<real>) {
    w == [0.5, 0.25, 0.25]
  }

  lemma OthersOfThree(c: seq<real>)
    requires |c| == 3
    ensures Others(c, 0) == c[1] + c[2] && Others(c, 1) == c[0] + c[2] && Others(c, 2) == c[0] + c[1]
  {
    assert c[..2][..1][..0] == [];
    assert Sum(c[..2][..1]) == Sum(c[..2][..1][..0]) + c[0];
    assert Sum(c[..2]) == Sum(c[..2][..1]) + c[1];
  }

  lemma ThreeAre(w: seq<real>)
    requires HalfAndQuarters(w)
    ensures |w| == 3 && Positive(w) && Weights(w)
  {
    OthersOfThree(w);
  }

  /** With weights 1/2, 1/4 and 1/4 the first factor is 3 - 2/2^k times each of
      the other two after `k` rounds.  */
  lemma {:induction false} ThreeFactors(w: seq<real>, k: nat)
    requires HalfAndQuarters(w) && |w| == 3 && Positive(w)
    ensures var c, p := Factors(w, k), Pow2(k) as real;
      |c| == 3 && c[1] == c[2] > 0.0 && c[0] * p == (3.0 * p - 2.0) * c[1]
  {
    hide Sum, Others, NextFactors, HalfAndQuarters, Pow2;
    PowersOfTwo(k);
    if k == 0 {
    } else {
      var c := Factors(w, k - 1);
      ThreeFactors(w, k - 1);
      ThreeStep(w, c);
      var d := NextFactors(w, c);
      RatioStep(c[0], c[1], d[0], d[1], Pow2(k - 1) as real);
    }
  }

  lemma PowersOfTwo(k: nat)
    ensures Pow2(0) == 1 && (k > 0 ==> Pow2(k) as real == 2.0 * Pow2(k - 1) as real)
  {
  }

  lemma ThreeStep(w: seq<real>, c: seq<real>)
    requires HalfAndQuarters(w) && |c| == 3 && Positive(c) && c[1] == c[2] && Positive(w)
    ensures var d := NextFactors(w, c);
      d[1] == d[2] && d[0] * (2.0 * c[1]) == d[1] * (c[0] + 3.0 * c[1])
  {
    hide Sum, Others, Inverses, NextFactors;
    var r, d := Inverses(c), NextFactors(w, c);
    OthersOfThree(c);
    OthersOfThree(r);
    var s, t := r[0], r[1];
    OthersPositive(c, 1);
    assert r[1] * Others(c, 1) == r[2] * Others(c, 2);
    SameFactor(r[1], r[2], Others(c, 1));
    OthersPositive(r, 1);
    assert d[1] * Others(r, 1) == d[2] * Others(r, 2);
    SameFactor(d[1], d[2], Others(r, 1));
    StepEquation(c[0], c[1], r[0], r[1], d[0], d[1]);
  }

  /** From what the inverses and the next factors satisfy. */
  lemma StepEquation(u: real, v: real, s: real, t: real, d: real, e: real)
    requires s * (v + v) == 1.0 && t * (u + v) == 1.0
    requires d * (t + t) == 0.5 && e * (s + t) == 0.25
    ensures d * (2.0 * v) == e * (u + 3.0 * v)
  {
    var x := u + v;
    assert d * t == e * s + e * t;
    assert (d * t) * x == d * (t * x);
    assert (e * t) * x == e * (t * x);
    var y := e * s * x;
    assert d == y + e;
    assert y * (2.0 * v) == e * x * (s * (v + v));
    assert d * (2.0 * v) == y * (2.0 * v) + e * (2.0 * v);
    assert e * (u + 3.0 * v) == e * x + e * (2.0 * v);
  }

  lemma RatioStep(u: real, v: real, d: real, e: real, p: real)
    requires u > 0.0 && v > 0.0 && d * (2.0 * v) == e * (u + 3.0 * v)
    requires u * p == (3.0 * p - 2.0) * v
    ensures d * (2.0 * p) == (3.0 * (2.0 * p) - 2.0) * e
  {
    assert d * (2.0 * v) * p == (d * (2.0 * p)) * v;
    assert e * (u + 3.0 * v) * p == e * (u * p) + 3.0 * e * (v * p);
    assert e * ((3.0 * p - 2.0) * v) == ((3.0 * p - 2.0) * e) * v;
    assert 3.0 * e * (v * p) == (3.0 * p * e) * v;
    assert ((3.0 * p - 2.0) * e) * v + (3.0 * p * e) * v == ((3.0 * (2.0 * p) - 2.0) * e) * v;
    SameFactor(d * (2.0 * p), (3.0 * (2.0 * p) - 2.0) * e, v);
  }

  /** With these weights, what every server sends after `k` rounds. */
  lemma ThreeServers(w: seq<real>, base: nat, k: nat)
    requires HalfAndQuarters(w) && |w| == 3 && base > 0
    ensures var g, p := RunRounds(w, base, k), Pow2(k) as real;
      && g[0][1] == g[0][2] == base as real / 2.0
      && g[1][0] * (4.0 * p - 2.0) == g[2][0] * (4.0 * p - 2.0) == base as real * (3.0 * p - 2.0)
      && g[1][2] * (4.0 * p - 2.0) == g[2][1] * (4.0 * p - 2.0) == base as real * p
  {
    hide *;
    ThreeAre(w);
    RunRoundsShaped(w, base, k);
    ThreeFactors(w, k);
    ThreeEntries(RunRounds(w, base, k), Factors(w, k), base as real);
    EntriesOfThree(RunRounds(w, base, k), Factors(w, k)[0], Factors(w, k)[1], base as real, Pow2(k) as real);
  }

  lemma EntriesOfThree(g: Grid, u: real, v: real, b: real, p: real)
    requires |g| == 3 && Grids.Square(g) && v > 0.0 && u * p == (3.0 * p - 2.0) * v
    requires g[0][1] * (v + v) == b * v && g[0][2] * (v + v) == b * v
    requires g[1][0] * (u + v) == b * u && g[2][0] * (u + v) == b * u
    requires g[1][2] * (u + v) == b * v && g[2][1] * (u + v) == b * v
    ensures g[0][1] == g[0][2] == b / 2.0
    ensures g[1][0] * (4.0 * p - 2.0) == g[2][0] * (4.0 * p - 2.0) == b * (3.0 * p - 2.0)
    ensures g[1][2] * (4.0 * p - 2.0) == g[2][1] * (4.0 * p - 2.0) == b * p
  {
    HalfEach(g[0][1], v, b);
    HalfEach(g[0][2], v, b);
    FirstOfThree(g[1][0], u, v, b, p);
    FirstOfThree(g[2][0], u, v, b, p);
    OtherOfThree(g[1][2], u, v, b, p);
    OtherOfThree(g[2][1], u, v, b, p);
  }

  lemma ThreeEntries(g: Grid, c: seq<real>, b: real)
    requires |c| == 3 && Shaped(g, c, b) && c[1] == c[2]
    ensures |g| == 3 && Grids.Square(g)
    ensures g[0][1] * (c[1] + c[1]) == b * c[1] && g[0][2] * (c[1] + c[1]) == b * c[1]
    ensures g[1][0] * (c[0] + c[1]) == b * c[0] && g[2][0] * (c[0] + c[1]) == b * c[0]
    ensures g[1][2] * (c[0] + c[1]) == b * c[1] && g[2][1] * (c[0] + c[1]) == b * c[1]
  {
    hide Sum, Others;
    OthersOfThree(c);
  }

  lemma HalfEach(x: real, v: real, b: real)
    requires v > 0.0 && x * (v + v) == b * v
    ensures x == b / 2.0
  {
    assert (b / 2.0) * (v + v) == b * v;
    SameFactor(x, b / 2.0, v + v);
  }

  lemma FirstOfThree(x: real, u: real, v: real, b: real, p: real)
    requires u * p == (3.0 * p - 2.0) * v && v > 0.0 && x * (u + v) == b * u
    ensures x * (4.0 * p - 2.0) == b * (3.0 * p - 2.0)
  {
    var y := x * (4.0 * p - 2.0);
    assert (x * (u + v)) * p == x * (u * p) + x * (v * p);
    assert x * ((3.0 * p - 2.0) * v) + x * (v * p) == y * v;
    assert (b * u) * p == b * (u * p);
    assert b * ((3.0 * p - 2.0) * v) == (b * (3.0 * p - 2.0)) * v;
    SameFactor(y, b * (3.0 * p - 2.0), v);
  }

  lemma OtherOfThree(x: real, u: real, v: real, b: real, p: real)
    requires u * p == (3.0 * p - 2.0) * v && v > 0.0 && x * (u + v) == b * v
    ensures x * (4.0 * p - 2.0) == b * p
  {
    var y := x * (4.0 * p - 2.0);
    assert (x * (u + v)) * p == x * (u * p) + x * (v * p);
    assert x * ((3.0 * p - 2.0) * v) + x * (v * p) == y * v;
    assert (b * v) * p == (b * p) * v;
    SameFactor(y, b * p, v);
  }

  lemma {:induction false} Pow2Grows(k: nat)
    requires k >= 4
    ensures Pow2(k) >= 16
  {
    if k == 4 {
      assert Pow2(2) == 4;
    } else {
      Pow2Grows(k - 1);
    }
  }

  /** For 120 bytes: the list that run.py generates. */
  lemma ThreeServersAt120(w: seq<real>)
    requires HalfAndQuarters(w) && |w| == 3
    ensures NonNegativeGrid(RunTraffic(w, 120))
    ensures TruncatedRows(RunTraffic(w, 120)) == [[0, 60, 60], [89, 0, 30], [89, 30, 0]]
  {
    hide Weights, RunTraffic, NonNegativeGrid, RunRounds, Factors, Shaped;
    ThreeAre(w);
    TrafficNonNegative(w, 120);
    RunTrafficIs(w, 120);
    Pow2Grows(MAX_ITERATIONS);
    hide Pow2;
    RunRoundsShaped(w, 120, MAX_ITERATIONS);
    EmptyDiagonal(RunTraffic(w, 120), Factors(w, MAX_ITERATIONS), 120.0);
    ThreeServers(w, 120, MAX_ITERATIONS);
    RowsAt120(RunTraffic(w, 120), Pow2(MAX_ITERATIONS) as real);
  }

  lemma EmptyDiagonal(g: Grid, c: seq<real>, cap: real)
    requires Shaped(g, c, cap)
    ensures forall i: nat :: i < |g| ==> g[i][i] == 0.0
  {
  }

  lemma RowsAt120(g: Grid, p: real)
    requires |g| == 3 && Grids.Square(g) && NonNegativeGrid(g) && p >= 16.0
    requires forall i: nat :: i < 3 ==> g[i][i] == 0.0
    requires g[0][1] == g[0][2] == 60.0
    requires g[1][0] * (4.0 * p - 2.0) == g[2][0] * (4.0 * p - 2.0) == 120.0 * (3.0 * p - 2.0)
    requires g[1][2] * (4.0 * p - 2.0) == g[2][1] * (4.0 * p - 2.0) == 120.0 * p
    ensures TruncatedRows(g) == [[0, 60, 60], [89, 0, 30], [89, 30, 0]]
  {
    EntryAt120(g[1][0], p, true);
    EntryAt120(g[2][0], p, true);
    EntryAt120(g[1][2], p, false);
    EntryAt120(g[2][1], p, false);
    var t := TruncatedRows(g);
    assert t[0] == [0, 60, 60];
    assert t[1] == [89, 0, 30];
    assert t[2] == [89, 30, 0];
  }

  lemma EntryAt120(x: real, p: real, first: bool)
    requires p >= 16.0 && x * (4.0 * p - 2.0) == 120.0 * if first then 3.0 * p - 2.0 else p
    ensures x >= 0.0 && Truncate(x) == if first then 89 else 30
  {
    var o := 4.0 * p - 2.0;
    var n: real := if first then 89.0 else 30.0;
    assert (x - n) * o == x * o - n * o;
    ProductSign(x - n, o, x * o - n * o);
    assert (n + 1.0 - x) * o == (n + 1.0) * o - x * o;
    ProductSign(n + 1.0 - x, o, (n + 1.0) * o - x * o);
  }

  // ------------------------------------------------------------ the generated list

  /** Row-major list of what every server sends: in proportion to the factors,
      cut to whole bytes, and nothing to itself.  */
  ghost predicate SizesShaped(sizes: seq<nat>, c: seq<real>, cap: nat)
  {
    var n := |c|;
    && |sizes| == n * n
    && forall i: nat, j: nat :: i < n && j < n ==> EntryShaped(sizes, c, cap, i, j)
  }

  ghost predicate EntryShaped(sizes: seq<nat>, c: seq<real>, cap: nat, i: nat, j: nat)
    requires i < |c| && j < |c| && |sizes| == |c| * |c|
  {
    RowMajor(i, j, |c|, |c|);
    var bytes := sizes[i * |c| + j];
    if i == j then bytes == 0
    else bytes as real * Others(c, i) <= cap as real * c[j] < (bytes + 1) as real * Others(c, i)
  }

  lemma ShapedSizes(g: Grid, c: seq<real>, cap: nat)
    requires |c| >= 2 && Positive(c) && Shaped(g, c, cap as real) && NonNegativeGrid(g)
    ensures SizesShaped(Flat(TruncatedRows(g)), c, cap)
  {
    hide Sum, Others, Flat;
    var rows, n := TruncatedRows(g), |c|;
    FlatLength(rows, n);
    var sizes := Flat(rows);
    forall i: nat, j: nat | i < n && j < n ensures EntryShaped(sizes, c, cap, i, j) {
      FlatAt(rows, n, i, j);
      if i != j {
        OthersPositive(c, i);
        Between(g[i][j], Others(c, i), cap as real * c[j]);
      }
    }
  }

  lemma Between(x: real, o: real, p: real)
    requires x >= 0.0 && o > 0.0 && x * o == p
    ensures Truncate(x) as real * o <= p < (Truncate(x) + 1) as real * o
  {
    var t := Truncate(x) as real;
    assert (x - t) * o == p - t * o;
    ProductSign(x - t, o, p - t * o);
    assert (t + 1.0 - x) * o == (t + 1.0) * o - p;
    ProductSign(t + 1.0 - x, o, (t + 1.0) * o - p);
  }

  /** Without traffic nothing is sent. */
  lemma NothingSent(w: seq<real>, base: nat, k: nat)
    requires w != [] && (|w| == 1 || base == 0)
    ensures RunRounds(w, base, k) == Uniform(|w|, 0.0)
  {
    hide Iterate, Rounds, Capacities;
    var n := |w|;
    assert base * n * (n - 1) == 0;
    NoFlow(n, InitialFlow(base, n));
    NothingToScale(n, Capacities(w, 0.0), base as real, k);
  }
}
