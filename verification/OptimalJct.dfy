/** `calculate_optimal_jct` of simulation/analysis/optimal_jct_analyzer.py: the
    ideal completion time of a traffic matrix is the best any schedule can do
    if every server sends and receives at no more than its link rate.  Times
    and rates are exact reals.  */
module OptimalJct {
  import opened RealArithmetic


  /** Bytes from source (row) to destination (column). */
  type Matrix = seq<seq<nat>>

  predicate Square(m: Matrix) {
    forall i :: 0 <= i < |m| ==> |m[i]| == |m|
  }

  /** A list of matrix entries; rows and columns are both such lists. */
  type Lane = seq<(nat, nat)>

  predicate InRange(lane: Lane, n: nat) {
    forall c :: c in lane ==> c.0 < n && c.1 < n
  }

  function Row(i: nat, n: nat): (r: Lane)
    ensures |r| == n && forall j :: 0 <= j < n ==> r[j] == (i, j)
  {
    seq(n, j requires 0 <= j < n => (i, j))
  }

  function Column(j: nat, n: nat): (r: Lane)
    ensures |r| == n && forall i :: 0 <= i < n ==> r[i] == (i, j)
  {
    seq(n, i requires 0 <= i < n => (i, j))
  }

  /** Bytes of a lane: `np.sum` along an axis, for a row or a column. */
  function Load(m: Matrix, lane: Lane): nat
    requires Square(m) && InRange(lane, |m|)
  {
    if lane == [] then 0
    else
      var c := lane[|lane| - 1];
      Load(m, lane[..|lane| - 1]) + m[c.0][c.1]
  }

  /** Seconds for `bytes` at `bps` bits per second. */
  function Seconds(bytes: nat, bps: real): real
    requires bps > 0.0
  {
    (bytes * 8) as real / bps
  }

  function MaxOf(ts: seq<real>): (r: real)
    requires ts != []
    ensures r in ts && forall t :: t in ts ==> t <= r
  {
    if |ts| == 1 then ts[0]
    else
      var rest := MaxOf(ts[..|ts| - 1]);
      assert forall t :: t in ts ==> t in ts[..|ts| - 1] || t == ts[|ts| - 1];
      if ts[|ts| - 1] > rest then ts[|ts| - 1] else rest
  }

  function SenderTimes(m: Matrix, bps: real): (r: seq<real>)
    requires Square(m) && bps > 0.0
    ensures |r| == |m| && forall i :: 0 <= i < |m| ==> r[i] == Seconds(Load(m, Row(i, |m|)), bps)
  {
    seq(|m|, i requires 0 <= i < |m| => Seconds(Load(m, Row(i, |m|)), bps))
  }

  function ReceiverTimes(m: Matrix, bps: real): (r: seq<real>)
    requires Square(m) && bps > 0.0
    ensures |r| == |m| && forall j :: 0 <= j < |m| ==> r[j] == Seconds(Load(m, Column(j, |m|)), bps)
  {
    seq(|m|, j requires 0 <= j < |m| => Seconds(Load(m, Column(j, |m|)), bps))
  }

  /** `ideal_jct_sec`; numpy refuses the maximum of an empty matrix. */
  function IdealJct(m: Matrix, bps: real): real
    requires Square(m) && bps > 0.0 && m != []
  {
    var s, r := MaxOf(SenderTimes(m, bps)), MaxOf(ReceiverTimes(m, bps));
    if s >= r then s else r
  }

  // ------------------------------------------------------------ schedules

  type Rates = seq<seq<real>>

  /** Constant rates, in bits per second, during `duration` seconds. */
  datatype Phase = Phase(duration: real, rates: Rates)

  function LaneRate(rates: Rates, lane: Lane): real
    requires forall c :: c in lane ==> c.0 < |rates| && c.1 < |rates[c.0]|
  {
    if lane == [] then 0.0
    else
      var c := lane[|lane| - 1];
      LaneRate(rates, lane[..|lane| - 1]) + rates[c.0][c.1]
  }

  predicate Shaped(rates: Rates, n: nat) {
    |rates| == n && forall i :: 0 <= i < n ==> |rates[i]| == n
  }

  /** No server sends or receives faster than its link. */
  ghost predicate Feasible(p: Phase, n: nat, bps: real) {
    && p.duration >= 0.0 && Shaped(p.rates, n)
    && (forall i, j :: 0 <= i < n && 0 <= j < n ==> p.rates[i][j] >= 0.0)
    && (forall i: nat :: i < n ==> LaneRate(p.rates, Row(i, n)) <= bps)
    && (forall j: nat :: j < n ==> LaneRate(p.rates, Column(j, n)) <= bps)
  }

  ghost predicate Schedule(ps: seq<Phase>, n: nat, bps: real) {
    forall k :: 0 <= k < |ps| ==> Feasible(ps[k], n, bps)
  }

  function Length(ps: seq<Phase>): real {
    if ps == [] then 0.0 else Length(ps[..|ps| - 1]) + ps[|ps| - 1].duration
  }

  /** Bits sent from `i` to `j` by the whole schedule. */
  ghost function Sent(ps: seq<Phase>, n: nat, bps: real, i: nat, j: nat): real
    requires Schedule(ps, n, bps) && i < n && j < n
    decreases |ps|
  {
    if ps == [] then 0.0
    else
      var p := ps[|ps| - 1];
      Sent(ps[..|ps| - 1], n, bps, i, j) + p.duration * p.rates[i][j]
  }

  /** Every message is completely transferred. */
  ghost predicate Delivers(ps: seq<Phase>, m: Matrix, bps: real)
    requires Square(m) && Schedule(ps, |m|, bps)
  {
    forall i: nat, j: nat :: i < |m| && j < |m| ==> Sent(ps, |m|, bps, i, j) >= (m[i][j] * 8) as real
  }

  // ------------------------------------------------------------ no schedule is faster

  /** Bits sent over a lane. */
  ghost function LaneSent(ps: seq<Phase>, n: nat, bps: real, lane: Lane): real
    requires Schedule(ps, n, bps) && InRange(lane, n)
    decreases |lane|
  {
    if lane == [] then 0.0
    else
      var c := lane[|lane| - 1];
      LaneSent(ps, n, bps, lane[..|lane| - 1]) + Sent(ps, n, bps, c.0, c.1)
  }

  lemma {:induction false} LaneNeedsLoad(ps: seq<Phase>, m: Matrix, bps: real, lane: Lane)
    requires Square(m) && Schedule(ps, |m|, bps) && InRange(lane, |m|) && Delivers(ps, m, bps)
    ensures LaneSent(ps, |m|, bps, lane) >= (Load(m, lane) * 8) as real
    decreases |lane|
  {
    if lane == [] {
    } else {
      LaneNeedsLoad(ps, m, bps, lane[..|lane| - 1]);
      var c := lane[|lane| - 1];
      assert c in lane;
      assert Sent(ps, |m|, bps, c.0, c.1) >= (m[c.0][c.1] * 8) as real;
    }
  }

  /** The last phase adds its duration times the lane's rate. */
  lemma {:induction false} LaneSentStep(ps: seq<Phase>, n: nat, bps: real, lane: Lane)
    requires ps != [] && Schedule(ps, n, bps) && InRange(lane, n)
    ensures var p := ps[|ps| - 1];
      LaneSent(ps, n, bps, lane) == LaneSent(ps[..|ps| - 1], n, bps, lane) + p.duration * LaneRate(p.rates, lane)
    decreases |lane|
  {
    if lane == [] {
    } else {
      var p := ps[|ps| - 1];
      var c := lane[|lane| - 1];
      assert c in lane;
      LaneSentStep(ps, n, bps, lane[..|lane| - 1]);
      assert p.duration * LaneRate(p.rates, lane)
          == p.duration * LaneRate(p.rates, lane[..|lane| - 1]) + p.duration * p.rates[c.0][c.1];
    }
  }

  lemma {:induction false} NothingSent(n: nat, bps: real, lane: Lane)
    requires InRange(lane, n)
    ensures LaneSent([], n, bps, lane) == 0.0
    decreases |lane|
  {
    if lane == [] {
    } else {
      assert lane[|lane| - 1] in lane;
      NothingSent(n, bps, lane[..|lane| - 1]);
    }
  }

  /** A lane cannot carry more than its rate allows in the time given. */
  lemma {:induction false} LaneCapacity(ps: seq<Phase>, n: nat, bps: real, lane: Lane)
    requires Schedule(ps, n, bps) && InRange(lane, n)
    requires forall k :: 0 <= k < |ps| ==> LaneRate(ps[k].rates, lane) <= bps
    ensures LaneSent(ps, n, bps, lane) <= Length(ps) * bps
    decreases |ps|
  {
    if ps == [] {
      NothingSent(n, bps, lane);
    } else {
      var p := ps[|ps| - 1];
      LaneCapacity(ps[..|ps| - 1], n, bps, lane);
      LaneSentStep(ps, n, bps, lane);
      assert p.duration * (bps - LaneRate(p.rates, lane)) >= 0.0;
    }
  }

  lemma LaneBound(ps: seq<Phase>, m: Matrix, bps: real, lane: Lane)
    requires Square(m) && bps > 0.0 && Schedule(ps, |m|, bps) && Delivers(ps, m, bps)
    requires InRange(lane, |m|) && forall k :: 0 <= k < |ps| ==> LaneRate(ps[k].rates, lane) <= bps
    ensures Seconds(Load(m, lane), bps) <= Length(ps)
  {
    hide *;
    LaneNeedsLoad(ps, m, bps, lane);
    LaneCapacity(ps, |m|, bps, lane);
    SecondsCompare(Load(m, lane), bps, Length(ps), Length(ps) * bps);
  }

  /** A transfer takes at most `t` exactly if it fits into `t` at the link rate. */
  lemma SecondsCompare(bytes: nat, bps: real, t: real, bits: real)
    requires bps > 0.0 && bits == t * bps
    ensures Seconds(bytes, bps) <= t <==> (bytes * 8) as real <= bits
  {
    QuotientCompare((bytes * 8) as real, bps, Seconds(bytes, bps), t, bits);
  }

  lemma SecondsIs(bytes: nat, bps: real)
    requires bps > 0.0
    ensures Seconds(bytes, bps) >= 0.0
  {
    Quotient((bytes * 8) as real, bps, Seconds(bytes, bps));
  }

  /** No schedule that delivers the matrix is shorter than the ideal time. */
  lemma NoScheduleIsFaster(ps: seq<Phase>, m: Matrix, bps: real)
    requires Square(m) && m != [] && bps > 0.0 && Schedule(ps, |m|, bps) && Delivers(ps, m, bps)
    ensures IdealJct(m, bps) <= Length(ps)
  {
    var n := |m|;
    forall i: nat | i < n
      ensures Seconds(Load(m, Row(i, n)), bps) <= Length(ps)
    {
      forall k | 0 <= k < |ps| ensures LaneRate(ps[k].rates, Row(i, n)) <= bps {
        assert Feasible(ps[k], n, bps);
      }
      LaneBound(ps, m, bps, Row(i, n));
    }
    forall j: nat | j < n
      ensures Seconds(Load(m, Column(j, n)), bps) <= Length(ps)
    {
      forall k | 0 <= k < |ps| ensures LaneRate(ps[k].rates, Column(j, n)) <= bps {
        assert Feasible(ps[k], n, bps);
      }
      LaneBound(ps, m, bps, Column(j, n));
    }
  }

  // ------------------------------------------------------------ the ideal time is attained

  function ProportionalRates(m: Matrix, t: real): (r: Rates)
    requires Square(m) && t > 0.0
    ensures Shaped(r, |m|)
    ensures forall i, j :: 0 <= i < |m| && 0 <= j < |m| ==> r[i][j] == (m[i][j] * 8) as real / t
  {
    seq(|m|, i requires 0 <= i < |m| =>
      seq(|m|, j requires 0 <= j < |m| => (m[i][j] * 8) as real / t))
  }

  /** Every flow at the rate that makes it finish at the ideal time. */
  function Proportional(m: Matrix, bps: real): seq<Phase>
    requires Square(m) && m != [] && bps > 0.0
  {
    var t := IdealJct(m, bps);
    if t > 0.0 then [Phase(t, ProportionalRates(m, t))] else []
  }

  lemma {:induction false} ProportionalLane(m: Matrix, t: real, lane: Lane)
    requires Square(m) && t > 0.0 && InRange(lane, |m|)
    ensures LaneRate(ProportionalRates(m, t), lane) == (Load(m, lane) * 8) as real / t
  {
    if lane == [] {
      assert 0.0 / t == 0.0;
    } else {
      var n := |lane| - 1;
      var c := lane[n];
      assert c in lane;
      ProportionalLane(m, t, lane[..n]);
      ProportionalStep(m, t, lane);
      SumOfQuotients((Load(m, lane[..n]) * 8) as real, (m[c.0][c.1] * 8) as real, t);
    }
  }

  lemma ProportionalStep(m: Matrix, t: real, lane: Lane)
    requires Square(m) && t > 0.0 && InRange(lane, |m|) && lane != []
    ensures var n, r := |lane| - 1, ProportionalRates(m, t);
      && InRange(lane[..n], |m|) && lane[n].0 < |m| && lane[n].1 < |m|
      && LaneRate(r, lane) == LaneRate(r, lane[..n]) + (m[lane[n].0][lane[n].1] * 8) as real / t
      && Load(m, lane) == Load(m, lane[..n]) + m[lane[n].0][lane[n].1]
  {
    assert lane[|lane| - 1] in lane;
  }

  lemma SumOfQuotients(a: real, b: real, t: real)
    requires t > 0.0
    ensures a / t + b / t == (a + b) / t
  {
  }

  lemma ProportionalLaneFits(m: Matrix, t: real, bps: real, lane: Lane)
    requires Square(m) && t > 0.0 && bps > 0.0 && InRange(lane, |m|) && Seconds(Load(m, lane), bps) <= t
    ensures LaneRate(ProportionalRates(m, t), lane) <= bps
  {
    hide *;
    ProportionalLane(m, t, lane);
    var x, bits := (Load(m, lane) * 8) as real, t * bps;
    SecondsCompare(Load(m, lane), bps, t, bits);
    assert bits == bps * t;
    QuotientCompare(x, t, x / t, bps, bits);
  }

  /** The proportional schedule is feasible, delivers the matrix and takes
      exactly the ideal time; with `NoScheduleIsFaster`, that time is the least.  */
  lemma ProportionalAttains(m: Matrix, bps: real)
    requires Square(m) && m != [] && bps > 0.0
    ensures Schedule(Proportional(m, bps), |m|, bps)
    ensures Delivers(Proportional(m, bps), m, bps)
    ensures Length(Proportional(m, bps)) == IdealJct(m, bps)
  {
    var t := IdealJct(m, bps);
    hide Load, MaxOf, IdealJct, LaneRate;
    IdealBounds(m, bps);
    if t > 0.0 {
      ProportionalFeasible(m, bps, t);
      OnePhase(m, bps, t);
    } else {
      forall i: nat, j: nat | i < |m| && j < |m| ensures m[i][j] == 0 {
        ZeroLane(m, bps, i, j);
      }
    }
  }

  lemma OnePhase(m: Matrix, bps: real, t: real)
    requires Square(m) && t > 0.0 && Feasible(Phase(t, ProportionalRates(m, t)), |m|, bps)
    ensures var ps := [Phase(t, ProportionalRates(m, t))];
      Schedule(ps, |m|, bps) && Delivers(ps, m, bps) && Length(ps) == t
  {
    var ps := [Phase(t, ProportionalRates(m, t))];
    hide Feasible, Load;
    assert ps[..0] == [];
    forall i: nat, j: nat | i < |m| && j < |m| ensures Sent(ps, |m|, bps, i, j) >= (m[i][j] * 8) as real {
      var x := (m[i][j] * 8) as real;
      assert t * (x / t) == x;
      assert Sent(ps, |m|, bps, i, j) == Sent(ps[..0], |m|, bps, i, j) + t * (x / t);
    }
  }

  /** Both maxima bound every server. */
  lemma IdealBounds(m: Matrix, bps: real)
    requires Square(m) && m != [] && bps > 0.0
    ensures forall i: nat :: i < |m| ==> Seconds(Load(m, Row(i, |m|)), bps) <= IdealJct(m, bps)
    ensures forall j: nat :: j < |m| ==> Seconds(Load(m, Column(j, |m|)), bps) <= IdealJct(m, bps)
    ensures IdealJct(m, bps) >= 0.0
  {
    hide Load, Seconds, IdealJct;
    forall i: nat | i < |m|
      ensures Seconds(Load(m, Row(i, |m|)), bps) <= IdealJct(m, bps)
      ensures Seconds(Load(m, Column(i, |m|)), bps) <= IdealJct(m, bps)
    {
      IdealBoundsServer(m, bps, i);
    }
    SecondsIs(Load(m, Row(0, |m|)), bps);
  }

  lemma IdealBoundsServer(m: Matrix, bps: real, i: nat)
    requires Square(m) && m != [] && bps > 0.0 && i < |m|
    ensures Seconds(Load(m, Row(i, |m|)), bps) <= IdealJct(m, bps)
    ensures Seconds(Load(m, Column(i, |m|)), bps) <= IdealJct(m, bps)
  {
    hide Load, MaxOf, Seconds, SenderTimes, ReceiverTimes;
    var s, r := SenderTimes(m, bps), ReceiverTimes(m, bps);
    assert s[i] in s && r[i] in r;
  }

  lemma ProportionalFeasible(m: Matrix, bps: real, t: real)
    requires Square(m) && m != [] && bps > 0.0 && t == IdealJct(m, bps) && t > 0.0
    ensures Feasible(Phase(t, ProportionalRates(m, t)), |m|, bps)
  {
    hide Load, MaxOf, IdealJct, LaneRate, Seconds;
    var n := |m|;
    IdealBounds(m, bps);
    forall i, j | 0 <= i < n && 0 <= j < n ensures ProportionalRates(m, t)[i][j] >= 0.0 {
      var x := (m[i][j] * 8) as real;
      Quotient(x, t, x / t);
    }
    forall i: nat | i < n ensures LaneRate(ProportionalRates(m, t), Row(i, n)) <= bps {
      ProportionalLaneFits(m, t, bps, Row(i, n));
    }
    forall j: nat | j < n ensures LaneRate(ProportionalRates(m, t), Column(j, n)) <= bps {
      ProportionalLaneFits(m, t, bps, Column(j, n));
    }
  }

  lemma ZeroLane(m: Matrix, bps: real, i: nat, j: nat)
    requires Square(m) && m != [] && bps > 0.0 && IdealJct(m, bps) <= 0.0 && i < |m| && j < |m|
    ensures m[i][j] == 0
  {
    IdealBounds(m, bps);
    var lane := Row(i, |m|);
    assert Seconds(Load(m, lane), bps) <= 0.0;
    NoTimeNoLoad(Load(m, lane), bps);
    EntryInLoad(m, lane, j);
  }

  lemma NoTimeNoLoad(bytes: nat, bps: real)
    requires bps > 0.0 && Seconds(bytes, bps) <= 0.0
    ensures bytes == 0
  {
    var x := (bytes * 8) as real;
    assert x == (x / bps) * bps;
  }

  lemma {:induction false} EntryInLoad(m: Matrix, lane: Lane, k: nat)
    requires Square(m) && InRange(lane, |m|) && k < |lane|
    ensures lane[k].0 < |m| && lane[k].1 < |m| && m[lane[k].0][lane[k].1] <= Load(m, lane)
  {
    assert lane[k] in lane;
    if k == |lane| - 1 {
    } else {
      EntryInLoad(m, lane[..|lane| - 1], k);
    }
  }
}
