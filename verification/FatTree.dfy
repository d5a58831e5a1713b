/** simulation/config/fat_topology_gen.py, and what the `FatTreeTopology` class
    of simulation/analysis/plot_analyze_pfc_fattree.py believes about it.  */
module FatTree {
  import opened Wrappers
  import opened Links
  import opened RealArithmetic
  import opened Arithmetic

  // ------------------------------------------------------------ the generator

  type Factor = x: real | x >= 0.0

  /** A k-ary fat tree with k = 2 * half and an over-subscription factor; the
      numbers of servers are rounded down.  */
  datatype Params = Params(half: nat, oversubscript: Factor) {
    function K(): nat { 2 * half }
    /** Number of ToR switches, and of aggregation switches. */
    function Tors(): nat { K() * half }
    function Cores(): nat { half * half }
    function ServersPerTor(): nat { RoundDown(half, oversubscript) }
    function ServersPerPod(): nat { RoundDown(half * half, oversubscript) }
    function FirstTor(): nat { K() * ServersPerPod() }
    function FirstAgg(): nat { FirstTor() + Tors() }
    function FirstCore(): nat { FirstAgg() + Tors() }
    predicate IsServer(node: int) { 0 <= node < FirstTor() }
    /** The servers that the ToRs have room for. */
    predicate Attached(node: int) { 0 <= node < Tors() * ServersPerTor() }
    predicate IsTor(node: int) { FirstTor() <= node < FirstAgg() }
    predicate IsAgg(node: int) { FirstAgg() <= node < FirstCore() }
    predicate IsCore(node: int) { FirstCore() <= node < FirstCore() + Cores() }
  }

  /** `int(n * factor)` */
  function RoundDown(n: nat, factor: Factor): nat {
    NonNegativeProduct(n as real, factor, n as real * factor);
    (n as real * factor).Floor
  }

  /** Rounding down once for a whole pod keeps at least as many servers as
      rounding down for each of its ToRs.  */
  lemma RoundedOnce(h: nat, factor: Factor)
    ensures h * RoundDown(h, factor) <= RoundDown(h * h, factor)
  {
    var x, w := h as real * factor, RoundDown(h, factor);
    ProductMonotone(w as real, x, h as real, h as real * w as real, h as real * x);
    assert h as real * w as real == (h * w) as real;
    assert h as real * x == (h * h) as real * factor;
  }

  /** So every attached server has an id of a server. */
  lemma AttachedFit(t: Params)
    ensures t.Tors() * t.ServersPerTor() <= t.FirstTor()
  {
    hide RoundDown;
    var h, w, p := t.half, t.ServersPerTor(), t.ServersPerPod();
    RoundedOnce(h, t.oversubscript);
    MulMonotone(h * w, p, t.K());
    assert (h * w) * t.K() == t.Tors() * w;
  }

  function ServerLinks(t: Params): seq<Link> {
    Attachments(t.FirstTor(), t.Tors(), t.ServersPerTor())
  }

  /** ToR to aggregation, the first `pods` pods. */
  function EdgeLinks(t: Params, pods: nat): seq<Link> {
    if pods == 0 then []
    else
      var first := (pods - 1) * t.half;
      EdgeLinks(t, pods - 1) + Fans(t.FirstTor() + first, t.FirstAgg() + first, 0, t.half, t.half)
  }

  /** Aggregation to core, the first `pods` pods. */
  function CoreLinks(t: Params, pods: nat): seq<Link> {
    if pods == 0 then []
    else
      var first := (pods - 1) * t.half;
      CoreLinks(t, pods - 1) + Fans(t.FirstAgg() + first, t.FirstCore(), t.half, t.half, t.half)
  }

  function Topology(t: Params): seq<Link> {
    ServerLinks(t) + EdgeLinks(t, t.K()) + CoreLinks(t, t.K())
  }

  // ------------------------------------------------------------ interfaces, nest by nest

  lemma EdgeUnfold(t: Params, pods: nat, y: int)
    ensures pods == 0 ==> Neighbours(EdgeLinks(t, pods), y) == []
    ensures pods > 0 ==>
      EdgeLinks(t, pods) == EdgeLinks(t, pods - 1)
      + Fans(t.FirstTor() + (pods - 1) * t.half, t.FirstAgg() + (pods - 1) * t.half, 0, t.half, t.half)
  {
  }

  lemma CoreUnfold(t: Params, pods: nat, y: int)
    ensures pods == 0 ==> Neighbours(CoreLinks(t, pods), y) == []
    ensures pods > 0 ==>
      CoreLinks(t, pods) == CoreLinks(t, pods - 1)
      + Fans(t.FirstAgg() + (pods - 1) * t.half, t.FirstCore(), t.half, t.half, t.half)
  {
  }

  /** First member of the pod that member `r` belongs to. */
  function PodStart(r: int, half: int): int {
    Quot(r, half) * half
  }

  lemma PodStartIs(r: int, half: nat, p: nat)
    requires p * half <= r < p * half + half
    ensures PodStart(r, half) == p * half && r % half == r - p * half
  {
    DivModUnique(r, half, p, r - p * half);
  }

  lemma {:induction false} NeighboursEdge(t: Params, pods: nat, tor: int, agg: int, h: nat, y: int)
    requires tor == t.FirstTor() && agg == t.FirstAgg() && h == t.half && tor + pods * h <= agg
    ensures tor <= y < tor + pods * h ==>
      Neighbours(EdgeLinks(t, pods), y) == Run(agg + PodStart(y - tor, h), h)
    ensures agg <= y < agg + pods * h ==>
      Neighbours(EdgeLinks(t, pods), y) == Run(tor + PodStart(y - agg, h), h)
    ensures !(tor <= y < tor + pods * h) && !(agg <= y < agg + pods * h) ==>
      Neighbours(EdgeLinks(t, pods), y) == []
  {
    hide *;
    if pods == 0 {
      EdgeUnfold(t, pods, y);
    } else {
      var p: nat := pods - 1;
      var first := p * h;
      assert first >= 0 && first + h == pods * h;
      NeighboursEdge(t, p, tor, agg, h, y);
      EdgePod(t, p, first, tor, agg, h, y);
      if first <= y - tor < first + h {
        PodStartIs(y - tor, h, p);
      }
      if first <= y - agg < first + h {
        PodStartIs(y - agg, h, p);
      }
    }
  }

  /** What pod `p` adds. */
  lemma EdgePod(t: Params, p: nat, first: nat, tor: int, agg: int, h: nat, y: int)
    requires tor == t.FirstTor() && agg == t.FirstAgg() && h == t.half && first == p * h && tor + first + h <= agg
    ensures tor + first <= y < tor + first + h ==>
      Neighbours(EdgeLinks(t, p + 1), y) == Neighbours(EdgeLinks(t, p), y) + Run(agg + first, h)
    ensures agg + first <= y < agg + first + h ==>
      Neighbours(EdgeLinks(t, p + 1), y) == Neighbours(EdgeLinks(t, p), y) + Run(tor + first, h)
    ensures !(tor + first <= y < tor + first + h) && !(agg + first <= y < agg + first + h) ==>
      Neighbours(EdgeLinks(t, p + 1), y) == Neighbours(EdgeLinks(t, p), y)
  {
    hide *;
    EdgeUnfold(t, p + 1, y);
    NeighboursAppend(EdgeLinks(t, p), Fans(tor + first, agg + first, 0, h, h), y);
    NeighboursMesh(tor + first, agg + first, h, h, y);
  }

  /** One more pod adds one neighbour to a core switch. */
  lemma StridedStep(base: int, step: nat, p: nat)
    ensures Strided(base, step, p) + [base + p * step] == Strided(base, step, p + 1)
  {
  }

  /** The neighbours of `y` on the core links of the first `pods` pods. */
  function CorePorts(pods: nat, agg: int, core: int, h: nat, y: int): seq<int>
    requires h > 0
  {
    if agg <= y < agg + pods * h then Run(core + ((y - agg) % h) * h, h)
    else if core <= y < core + h * h then Strided(agg + (y - core) / h, h, pods)
    else []
  }

  /** What the pod whose first aggregation switch is `agg + first` adds to them. */
  function CoreAdds(first: nat, agg: int, core: int, h: nat, y: int): seq<int>
    requires h > 0
  {
    if agg + first <= y < agg + first + h then Run(core + (y - agg - first) * h, h)
    else if core <= y < core + h * h then [agg + first + (y - core) / h]
    else []
  }

  lemma CorePortsStep(p: nat, first: nat, agg: int, core: int, h: nat, y: int)
    requires h > 0 && first == p * h && agg + first + h <= core
    ensures CorePorts(p + 1, agg, core, h, y) == CorePorts(p, agg, core, h, y) + CoreAdds(first, agg, core, h, y)
  {
    hide Run, Strided;
    assert (p + 1) * h == first + h;
    if agg + first <= y < agg + first + h {
      PodStartIs(y - agg, h, p);
    } else if core <= y < core + h * h {
      StridedStep(agg + (y - core) / h, h, p);
    }
  }

  lemma {:induction false} NeighboursCore(t: Params, pods: nat, agg: int, core: int, h: nat, y: int)
    requires agg == t.FirstAgg() && core == t.FirstCore() && h == t.half > 0 && agg + pods * h <= core
    ensures Neighbours(CoreLinks(t, pods), y) == CorePorts(pods, agg, core, h, y)
  {
    hide *;
    if pods == 0 {
      CoreUnfold(t, pods, y);
      NothingYet(agg, core, h, y);
    } else {
      var p: nat := pods - 1;
      var first := p * h;
      assert first >= 0 && first + h == pods * h;
      NeighboursCore(t, p, agg, core, h, y);
      CorePod(t, p, first, agg, core, h, y);
      CorePortsStep(p, first, agg, core, h, y);
    }
  }

  lemma NothingYet(agg: int, core: int, h: nat, y: int)
    requires h > 0
    ensures CorePorts(0, agg, core, h, y) == []
  {
  }

  /** What pod `p` adds. */
  lemma CorePod(t: Params, p: nat, first: nat, agg: int, core: int, h: nat, y: int)
    requires agg == t.FirstAgg() && core == t.FirstCore() && h == t.half > 0
    requires first == p * h && agg + first + h <= core
    ensures Neighbours(CoreLinks(t, p + 1), y) == Neighbours(CoreLinks(t, p), y) + CoreAdds(first, agg, core, h, y)
  {
    hide Neighbours, CoreLinks, Fans, Run, Params.FirstAgg, Params.FirstCore;
    CoreUnfold(t, p + 1, y);
    NeighboursAppend(CoreLinks(t, p), Fans(agg + first, core, h, h, h), y);
    NeighboursSplit(agg + first, core, h, h, y);
  }

  /** Every interface of every node, in order. */
  lemma PortsOf(t: Params, y: int)
    requires t.half > 0
    ensures t.Attached(y) ==> Neighbours(Topology(t), y) == [t.FirstTor() + Quot(y, t.ServersPerTor())]
    ensures t.IsTor(y) ==>
      Neighbours(Topology(t), y) ==
      Run((y - t.FirstTor()) * t.ServersPerTor(), t.ServersPerTor())
      + Run(t.FirstAgg() + PodStart(y - t.FirstTor(), t.half), t.half)
    ensures t.IsAgg(y) ==>
      Neighbours(Topology(t), y) ==
      Run(t.FirstTor() + PodStart(y - t.FirstAgg(), t.half), t.half)
      + Run(t.FirstCore() + ((y - t.FirstAgg()) % t.half) * t.half, t.half)
    ensures t.IsCore(y) ==>
      Neighbours(Topology(t), y) ==
      Strided(t.FirstAgg() + (y - t.FirstCore()) / t.half, t.half, t.K())
    ensures !t.Attached(y) && !t.IsTor(y) && !t.IsAgg(y) && !t.IsCore(y) ==> Neighbours(Topology(t), y) == []
  {
    hide Neighbours, CoreLinks, EdgeLinks, Attachments, Params.FirstTor, Params.Cores, Params.ServersPerTor;
    AttachedFit(t);
    NeighboursAppend(ServerLinks(t) + EdgeLinks(t, t.K()), CoreLinks(t, t.K()), y);
    NeighboursAppend(ServerLinks(t), EdgeLinks(t, t.K()), y);
    NeighboursAttachments(t.FirstTor(), t.Tors(), t.ServersPerTor(), y);
    NeighboursEdge(t, t.K(), t.FirstTor(), t.FirstAgg(), t.half, y);
    NeighboursCore(t, t.K(), t.FirstAgg(), t.FirstCore(), t.half, y);
    CoresSquare(t);
  }

  /** Rounding leaves servers without a link exactly if a pod has more of them
      than its ToRs have room for.  */
  lemma EveryServerLinked(t: Params)
    requires t.half > 0
    ensures (forall y :: t.IsServer(y) ==> Neighbours(Topology(t), y) != [])
      <==> t.ServersPerPod() == t.half * t.ServersPerTor()
  {
    hide Neighbours, Topology, RoundDown;
    var h, w, p := t.half, t.ServersPerTor(), t.ServersPerPod();
    var n := t.Tors() * w;
    AttachedFit(t);
    assert n == t.K() * (h * w);
    RoundedOnce(h, t.oversubscript);
    if p == h * w {
      forall y | t.IsServer(y) ensures Neighbours(Topology(t), y) != [] {
        PortsOf(t, y);
      }
    } else {
      More(t.K(), h * w, p);
      PortsOf(t, n);
      assert t.IsServer(n);
    }
  }

  // ------------------------------------------------------------ the three loop nests

  /** The generator's loops, with its link counter. */
  method Generate(t: Params) returns (links: seq<Link>, numLink: nat)
    ensures links == Topology(t) && numLink == |links|
  {
    hide Fans, FanIn, Params.FirstTor;
    links, numLink := [], 0;
    for p := 0 to t.Tors()
      invariant links == Attachments(t.FirstTor(), p, t.ServersPerTor()) && numLink == |links|
    {
      links, numLink := EmitServers(p * t.ServersPerTor(), t.FirstTor() + p, t.ServersPerTor(), links);
    }
    ghost var servers := links;
    for i := 0 to t.K()
      invariant links == servers + EdgeLinks(t, i) && numLink == |links|
    {
      links, numLink := EmitEdgePod(t, i, links, numLink);
    }
    ghost var edges := links;
    for i := 0 to t.K()
      invariant links == edges + CoreLinks(t, i) && numLink == |links|
    {
      links, numLink := EmitCorePod(t, i, links, numLink);
    }
  }

  /** The inner loop of the server nest. */
  method EmitServers(base: int, tor: int, n: nat, before: seq<Link>) returns (links: seq<Link>, numLink: nat)
    ensures links == before + FanIn(base, tor, n) && numLink == |links|
  {
    links, numLink := before, |before|;
    for i := 0 to n
      invariant links == before + FanIn(base, tor, i) && numLink == |links|
    {
      links := links + [Link(base + i, tor)];
      numLink := numLink + 1;
    }
  }

  /** The innermost loop of both switch nests. */
  method EmitFan(x: int, base: int, n: nat, before: seq<Link>) returns (links: seq<Link>, emitted: nat)
    ensures links == before + FanOut(x, base, n) && emitted == n
  {
    links, emitted := before, 0;
    for l := 0 to n
      invariant links == before + FanOut(x, base, l) && emitted == l
    {
      links := links + [Link(x, base + l)];
      emitted := emitted + 1;
    }
  }

  method EmitEdgePod(t: Params, i: nat, before: seq<Link>, count: nat) returns (links: seq<Link>, numLink: nat)
    requires count == |before|
    ensures numLink == |links|
    ensures links == before + Fans(t.FirstTor() + i * t.half, t.FirstAgg() + i * t.half, 0, t.half, t.half)
  {
    hide FanOut, Fans, Params.FirstTor;
    links, numLink := before, count;
    var tor, agg := t.FirstTor() + i * t.half, t.FirstAgg() + i * t.half;
    FansUnfold(tor, agg, 0, 0, t.half, 0);
    for j := 0 to t.half
      invariant links == before + Fans(tor, agg, 0, j, t.half)
      invariant numLink == |links|
    {
      var emitted;
      links, emitted := EmitFan(tor + j, agg, t.half, links);
      FanOutSize(tor + j, agg, t.half);
      numLink := numLink + emitted;
      FansUnfold(tor, agg, 0, j + 1, t.half, 0);
    }
  }

  method EmitCorePod(t: Params, i: nat, before: seq<Link>, count: nat) returns (links: seq<Link>, numLink: nat)
    requires count == |before|
    ensures numLink == |links|
    ensures links == before + Fans(t.FirstAgg() + i * t.half, t.FirstCore(), t.half, t.half, t.half)
  {
    hide FanOut, Fans, Params.FirstTor;
    links, numLink := before, count;
    var agg := t.FirstAgg() + i * t.half;
    FansUnfold(agg, t.FirstCore(), t.half, 0, t.half, 0);
    for j := 0 to t.half
      invariant links == before + Fans(agg, t.FirstCore(), t.half, j, t.half)
      invariant numLink == |links|
    {
      var emitted;
      links, emitted := EmitFan(agg + j, t.FirstCore() + j * t.half, t.half, links);
      FanOutSize(agg + j, t.FirstCore() + j * t.half, t.half);
      numLink := numLink + emitted;
      FansUnfold(agg, t.FirstCore(), t.half, j + 1, t.half, 0);
    }
  }

  // ------------------------------------------------------------ structure

  lemma {:induction false} NestSizes(t: Params, pods: nat)
    ensures |EdgeLinks(t, pods)| == pods * (t.half * t.half)
    ensures |CoreLinks(t, pods)| == pods * (t.half * t.half)
  {
    hide Fans;
    if pods == 0 {
    } else {
      var p := pods - 1;
      var square := t.half * t.half;
      NestSizes(t, p);
      FansSize(t.FirstTor() + p * t.half, t.FirstAgg() + p * t.half, 0, t.half, t.half);
      FansSize(t.FirstAgg() + p * t.half, t.FirstCore(), t.half, t.half, t.half);
      assert p * square + square == pods * square;
    }
  }

  /** With k/2 servers at each ToR there are 3/4 k^3 links. */
  lemma LinkCount(t: Params)
    ensures |Topology(t)| == t.Tors() * t.ServersPerTor() + 2 * (t.K() * (t.half * t.half))
    ensures t.ServersPerTor() == t.half ==> 4 * |Topology(t)| == 3 * (t.K() * t.K() * t.K())
  {
    AttachmentsSize(t.FirstTor(), t.Tors(), t.ServersPerTor());
    NestSizes(t, t.K());
    if t.ServersPerTor() == t.half {
      Cube(t.half);
    }
  }

  lemma Cube(h: nat)
    ensures (2 * h) * h * h == 2 * (h * h * h) && (2 * h) * (h * h) == 2 * (h * h * h)
    ensures (2 * h) * (2 * h) * (2 * h) == 8 * (h * h * h)
  {
  }

  /** With k/2 servers at each ToR every switch has exactly k interfaces. */
  lemma SwitchDegree(t: Params, y: int)
    requires t.half > 0 && t.ServersPerTor() == t.half && (t.IsTor(y) || t.IsAgg(y) || t.IsCore(y))
    ensures |Neighbours(Topology(t), y)| == t.K()
  {
    PortsOf(t, y);
  }

  lemma PodBounds(r: int, half: nat, pods: nat)
    requires half > 0 && 0 <= r < pods * half
    ensures 0 <= PodStart(r, half) && PodStart(r, half) + half <= pods * half
    ensures 0 <= r / half < pods
  {
    var q := r / half;
    assert r == q * half + r % half;
    MulAtLeast(pods - q, half);
    assert (pods - q) * half == pods * half - q * half;
  }

  lemma SplitBounds(q: int, half: nat)
    requires half > 0
    ensures 0 <= (q % half) * half && (q % half) * half + half <= half * half
  {
    var d := half - 1 - q % half;
    assert d * half >= 0;
    assert d * half == half * half - half - (q % half) * half;
  }

  lemma {:induction false} EdgesOrdered(t: Params, pods: nat, tor: int, agg: int, h: nat)
    requires tor == t.FirstTor() && agg == t.FirstAgg() && h == t.half && tor + pods * h <= agg
    ensures Ordered(EdgeLinks(t, pods), tor, tor + pods * h)
  {
    hide *;
    EdgeUnfold(t, pods, 0);
    if pods == 0 {
      NoNest(t);
      NothingOrdered(tor, tor);
    } else {
      var p: nat := pods - 1;
      var first := p * h;
      assert first >= 0 && first + h == pods * h;
      EdgesOrdered(t, p, tor, agg, h);
      FansOrdered(tor + first, agg + first, 0, h, h);
      OrderedJoin(EdgeLinks(t, p), Fans(tor + first, agg + first, 0, h, h), tor, tor + first, tor + pods * h);
    }
  }

  lemma NoNest(t: Params)
    ensures EdgeLinks(t, 0) == [] && CoreLinks(t, 0) == []
  {
  }

  lemma {:induction false} CoresOrdered(t: Params, pods: nat, agg: int, core: int, h: nat)
    requires agg == t.FirstAgg() && core == t.FirstCore() && h == t.half && agg + pods * h <= core
    ensures Ordered(CoreLinks(t, pods), agg, agg + pods * h)
  {
    hide *;
    CoreUnfold(t, pods, 0);
    if pods == 0 {
      NoNest(t);
      NothingOrdered(agg, agg);
    } else {
      var p: nat := pods - 1;
      var first := p * h;
      assert first >= 0 && first + h == pods * h;
      CoresOrdered(t, p, agg, core, h);
      FansOrdered(agg + first, core, h, h, h);
      OrderedJoin(CoreLinks(t, p), Fans(agg + first, core, h, h, h), agg, agg + first, agg + pods * h);
    }
  }

  /** Every line names the lower node first, and the lines are in order. */
  lemma LinesInOrder(t: Params)
    ensures Ordered(Topology(t), 0, t.FirstCore())
  {
    hide Ordered, Attachments, EdgeLinks, CoreLinks, Params.FirstTor, Params.ServersPerTor;
    AttachedFit(t);
    AttachmentsOrdered(t.FirstTor(), t.Tors(), t.ServersPerTor());
    Wider(ServerLinks(t), 0, t.Tors() * t.ServersPerTor(), t.FirstTor());
    EdgesOrdered(t, t.K(), t.FirstTor(), t.FirstAgg(), t.half);
    CoresOrdered(t, t.K(), t.FirstAgg(), t.FirstCore(), t.half);
    OrderedJoin(ServerLinks(t), EdgeLinks(t, t.K()), 0, t.FirstTor(), t.FirstAgg());
    OrderedJoin(ServerLinks(t) + EdgeLinks(t, t.K()), CoreLinks(t, t.K()), 0, t.FirstAgg(), t.FirstCore());
  }

  lemma Wider(links: seq<Link>, lo: int, hi: int, more: int)
    requires Ordered(links, lo, hi) && hi <= more
    ensures Ordered(links, lo, more)
  {
  }

  /** No two nodes are linked twice. */
  lemma NoDuplicates(t: Params)
    requires t.half > 0
    ensures forall i, j :: 0 <= i < j < |Topology(t)| ==> !SamePair(Topology(t)[i], Topology(t)[j])
  {
    forall y ensures NoRepeats(Neighbours(Topology(t), y)) {
      NeighboursDiffer(t, y);
    }
    NoParallelLinks(Topology(t));
  }

  lemma NeighboursDiffer(t: Params, y: int)
    requires t.half > 0
    ensures NoRepeats(Neighbours(Topology(t), y))
  {
    hide Neighbours, Topology, Params.FirstTor, Params.Cores, Params.ServersPerTor, NoRepeats;
    PortsOf(t, y);
    CoresSquare(t);
    if t.IsTor(y) {
      PodBounds(y - t.FirstTor(), t.half, t.K());
      AttachedRange(t, y);
      RunsDiffer((y - t.FirstTor()) * t.ServersPerTor(), t.ServersPerTor(),
                 t.FirstAgg() + PodStart(y - t.FirstTor(), t.half), t.half);
    } else if t.IsAgg(y) {
      PodBounds(y - t.FirstAgg(), t.half, t.K());
      SplitBounds(y - t.FirstAgg(), t.half);
      RunsDiffer(t.FirstTor() + PodStart(y - t.FirstAgg(), t.half), t.half,
                 t.FirstCore() + ((y - t.FirstAgg()) % t.half) * t.half, t.half);
    } else if t.IsCore(y) {
      StridedDiffers(t.FirstAgg() + (y - t.FirstCore()) / t.half, t.half, t.K());
    } else {
      ShortDiffers(Neighbours(Topology(t), y));
    }
  }

  lemma ShortDiffers(s: seq<int>)
    requires |s| <= 1
    ensures NoRepeats(s)
  {
  }

  lemma RunsDiffer(a: int, n: nat, b: int, m: nat)
    requires a + n <= b
    ensures NoRepeats(Run(a, n) + Run(b, m))
  {
  }

  /** The servers of a ToR are servers. */
  lemma AttachedRange(t: Params, y: int)
    requires t.IsTor(y)
    ensures 0 <= (y - t.FirstTor()) * t.ServersPerTor()
    ensures (y - t.FirstTor()) * t.ServersPerTor() + t.ServersPerTor() <= t.FirstTor()
  {
    var w := t.ServersPerTor();
    var r := y - t.FirstTor();
    AttachedFit(t);
    hide Params.ServersPerTor, Params.Tors, Params.FirstTor;
    assert t.Tors() * w <= t.FirstTor() && 0 <= r < t.Tors();
    MulMonotone(r + 1, t.Tors(), w);
    assert (r + 1) * w == r * w + w;
  }

  lemma StridedDiffers(base: int, step: nat, n: nat)
    requires step > 0
    ensures NoRepeats(Strided(base, step, n))
  {
    forall i, j | 0 <= i < j < n ensures base + i * step != base + j * step {
      MulAtLeast(j - i, step);
      assert (j - i) * step == j * step - i * step;
    }
  }

  /** Interface `i` of a core switch leads into pod `i`: one link per pod. */
  lemma CoreReachesEachPodOnce(t: Params, core: int, pod: nat)
    requires t.half > 0 && t.IsCore(core) && pod < t.K()
    ensures |Neighbours(Topology(t), core)| == t.K()
    ensures var agg := Neighbours(Topology(t), core)[pod]; t.IsAgg(agg) && (agg - t.FirstAgg()) / t.half == pod
  {
    hide Neighbours, Topology, Params.FirstTor, Strided;
    PortsOf(t, core);
    var c := (core - t.FirstCore()) / t.half;
    PodBounds(core - t.FirstCore(), t.half, t.half);
    DivModUnique(pod * t.half + c, t.half, pod, c);
    RowMajor(pod, c, t.K(), t.half);
  }

  predicate Linked(t: Params, a: int, b: int) {
    b in Neighbours(Topology(t), a)
  }

  /** Pod of a ToR. */
  function PodOfTor(t: Params, tor: int): int {
    Quot(tor - t.FirstTor(), t.half)
  }

  /** The aggregation switch of a pod that serves a core switch. */
  function Gateway(t: Params, pod: int, core: int): int {
    t.FirstAgg() + pod * t.half + Quot(core - t.FirstCore(), t.half)
  }

  /** A path from ToR to ToR, up to a core switch and down again. */
  predicate UpDown(t: Params, a: int, x: int, core: int, y: int, b: int) {
    t.IsAgg(x) && t.IsCore(core) && t.IsAgg(y)
    && Linked(t, a, x) && Linked(t, x, core) && Linked(t, core, y) && Linked(t, y, b)
  }

  /** Which aggregation switches lie between a ToR and a core switch. */
  lemma UpLinks(t: Params, a: int, x: int, core: int)
    requires t.half > 0 && t.IsTor(a) && t.IsAgg(x) && t.IsCore(core)
    ensures Linked(t, a, x) && Linked(t, x, core) <==> x == Gateway(t, PodOfTor(t, a), core)
    ensures Linked(t, core, x) && Linked(t, x, a) <==> x == Gateway(t, PodOfTor(t, a), core)
  {
    hide Linked, Params.FirstTor, Params.Cores;
    TorToAgg(t, a, x);
    AggToCore(t, x, core);
    var h := t.half;
    var r, q, c := a - t.FirstTor(), x - t.FirstAgg(), core - t.FirstCore();
    PodBounds(r, h, t.K());
    CoreDigits(t, core);
    Digits(q, h, r / h, c / h);
  }

  lemma GatewayIsAgg(t: Params, a: int, core: int)
    requires t.half > 0 && t.IsTor(a) && t.IsCore(core)
    ensures t.IsAgg(Gateway(t, PodOfTor(t, a), core))
  {
    hide Params.FirstTor, Params.Cores;
    PodBounds(a - t.FirstTor(), t.half, t.K());
    CoreDigits(t, core);
    RowMajor(PodOfTor(t, a), (core - t.FirstCore()) / t.half, t.K(), t.half);
  }

  lemma CoreDigits(t: Params, core: int)
    requires t.half > 0 && t.IsCore(core)
    ensures 0 <= (core - t.FirstCore()) / t.half < t.half
  {
    PodBounds(core - t.FirstCore(), t.half, t.half);
  }

  lemma Digits(q: int, h: nat, u: int, v: int)
    requires h > 0 && 0 <= v < h
    ensures q / h == u && q % h == v <==> q == u * h + v
  {
    if q == u * h + v {
      DivModUnique(q, h, u, v);
    }
    assert q == (q / h) * h + q % h;
  }

  lemma TorToAgg(t: Params, a: int, x: int)
    requires t.half > 0 && t.IsTor(a) && t.IsAgg(x)
    ensures Linked(t, a, x) <==> (x - t.FirstAgg()) / t.half == (a - t.FirstTor()) / t.half
    ensures Linked(t, x, a) <==> (x - t.FirstAgg()) / t.half == (a - t.FirstTor()) / t.half
  {
    hide Neighbours, Topology, Params.FirstTor, Params.Cores, Params.ServersPerTor, Run, PodStart;
    PortsOf(t, a);
    PortsOf(t, x);
    AttachedRange(t, a);
    PodMembers(x - t.FirstAgg(), a - t.FirstTor(), t.half);
    PodMembers(a - t.FirstTor(), x - t.FirstAgg(), t.half);
    var na, nx := Neighbours(Topology(t), a), Neighbours(Topology(t), x);
    RunMember(t.FirstAgg() + PodStart(a - t.FirstTor(), t.half), t.half, x);
    RunMember((a - t.FirstTor()) * t.ServersPerTor(), t.ServersPerTor(), x);
    RunMember(t.FirstTor() + PodStart(x - t.FirstAgg(), t.half), t.half, a);
    RunMember(t.FirstCore() + ((x - t.FirstAgg()) % t.half) * t.half, t.half, a);
    SplitBounds(x - t.FirstAgg(), t.half);
  }

  lemma AggToCore(t: Params, x: int, core: int)
    requires t.half > 0 && t.IsAgg(x) && t.IsCore(core)
    ensures Linked(t, x, core) <==> (x - t.FirstAgg()) % t.half == (core - t.FirstCore()) / t.half
    ensures Linked(t, core, x) <==> (x - t.FirstAgg()) % t.half == (core - t.FirstCore()) / t.half
  {
    hide Neighbours, Topology, Params.FirstTor, Run, Strided, PodStart;
    PortsOf(t, x);
    PortsOf(t, core);
    PodBounds(x - t.FirstAgg(), t.half, t.K());
    PodBounds(core - t.FirstCore(), t.half, t.half);
    var q, c := x - t.FirstAgg(), core - t.FirstCore();
    RunMember(t.FirstTor() + PodStart(q, t.half), t.half, core);
    RunMember(t.FirstCore() + (q % t.half) * t.half, t.half, core);
    BlockMember(c, q % t.half, t.half);
    StridedMember(t.FirstAgg() + c / t.half, t.half, t.K(), x, q, c / t.half);
  }

  lemma RunMember(base: int, n: nat, v: int)
    ensures v in Run(base, n) <==> base <= v < base + n
  {
    if base <= v < base + n {
      assert Run(base, n)[v - base] == v;
    }
  }

  /** A value lies in block `j` exactly if its quotient is `j`. */
  lemma BlockMember(v: int, j: int, half: nat)
    requires half > 0
    ensures j * half <= v < j * half + half <==> v / half == j
  {
    if j * half <= v < j * half + half {
      DivModUnique(v, half, j, v - j * half);
    }
    assert v == (v / half) * half + v % half;
  }

  lemma PodMembers(v: int, r: int, half: nat)
    requires half > 0
    ensures PodStart(r, half) <= v < PodStart(r, half) + half <==> v / half == r / half
  {
    BlockMember(v, r / half, half);
  }

  lemma StridedMember(base: int, step: nat, n: nat, v: int, q: int, c: int)
    requires step > 0 && 0 <= c < step && v - base == q - c && 0 <= q / step < n
    ensures v in Strided(base, step, n) <==> q % step == c
  {
    assert q == (q / step) * step + q % step;
    if q % step == c {
      assert Strided(base, step, n)[q / step] == v;
    }
    if i :| 0 <= i < n && base + i * step == v {
      DivModUnique(q, step, i, c);
    }
  }

  /** Between two ToRs of different pods there is exactly one up-down path
      through each core switch.  */
  lemma OnePathPerCore(t: Params, a: int, b: int, core: int, x: int, y: int)
    requires t.half > 0 && t.IsTor(a) && t.IsTor(b) && t.IsCore(core) && t.IsAgg(x) && t.IsAgg(y)
    ensures UpDown(t, a, x, core, y, b)
      <==> x == Gateway(t, PodOfTor(t, a), core) && y == Gateway(t, PodOfTor(t, b), core)
    ensures PodOfTor(t, a) != PodOfTor(t, b) ==>
      Gateway(t, PodOfTor(t, a), core) != Gateway(t, PodOfTor(t, b), core)
  {
    hide Linked, Params.FirstTor, Params.Cores, PodOfTor, Gateway;
    UpLinks(t, a, x, core);
    UpLinks(t, b, y, core);
    GatewayIsAgg(t, a, core);
    GatewayIsAgg(t, b, core);
    GatewaysDiffer(t, PodOfTor(t, a), PodOfTor(t, b), core);
  }

  lemma GatewaysDiffer(t: Params, p: int, q: int, core: int)
    requires t.half > 0
    ensures p != q ==> Gateway(t, p, core) != Gateway(t, q, core)
  {
    hide Params.FirstTor;
    MulAtLeast(p - q, t.half);
    assert (p - q) * t.half == p * t.half - q * t.half;
  }

  /** The up-down paths between two ToRs, as triples (up, core, down). */
  function Paths(t: Params, a: int, b: int): set<(int, int, int)> {
    set core | t.FirstCore() <= core < t.FirstCore() + t.Cores() ::
      (Gateway(t, PodOfTor(t, a), core), core, Gateway(t, PodOfTor(t, b), core))
  }

  /** `Paths` is exactly the set of up-down paths, and there are (k/2)^2. */
  lemma PathCount(t: Params, a: int, b: int)
    requires t.half > 0 && t.IsTor(a) && t.IsTor(b)
    ensures forall x, core, y :: (x, core, y) in Paths(t, a, b) <==> UpDown(t, a, x, core, y, b)
    ensures |Paths(t, a, b)| == t.half * t.half
  {
    hide Linked, Params.FirstTor, Gateway;
    forall x, core, y ensures (x, core, y) in Paths(t, a, b) <==> UpDown(t, a, x, core, y, b) {
      if t.IsCore(core) {
        GatewayIsAgg(t, a, core);
        GatewayIsAgg(t, b, core);
        if t.IsAgg(x) && t.IsAgg(y) {
          OnePathPerCore(t, a, b, core, x, y);
        }
      }
    }
    PathsUpTo(t, a, b, t.Cores());
  }

  lemma {:induction false} PathsUpTo(t: Params, a: int, b: int, n: nat)
    ensures |set core | t.FirstCore() <= core < t.FirstCore() + n ::
               (Gateway(t, PodOfTor(t, a), core), core, Gateway(t, PodOfTor(t, b), core))| == n
  {
    hide Params.FirstTor, Gateway;
    var f := t.FirstCore();
    var all := set core | f <= core < f + n ::
      (Gateway(t, PodOfTor(t, a), core), core, Gateway(t, PodOfTor(t, b), core));
    if n == 0 {
      assert all == {};
    } else {
      PathsUpTo(t, a, b, n - 1);
      var last := f + (n - 1);
      var p := (Gateway(t, PodOfTor(t, a), last), last, Gateway(t, PodOfTor(t, b), last));
      var rest := set core | f <= core < f + (n - 1) ::
        (Gateway(t, PodOfTor(t, a), core), core, Gateway(t, PodOfTor(t, b), core));
      assert all == rest + {p} && p !in rest;
    }
  }

  // ------------------------------------------------------------ the analysis script's view

  datatype Kind = Server | Edge | Aggr | Core | Unknown

  datatype PortType = EdgeToServer | EdgeToAggr | AggrToEdge | AggrToCore | CoreToAggr | UnknownPort

  /** `FatTreeTopology`, with the fields its methods use. */
  datatype Classifier = Classifier(k: nat) {
    function Half(): nat { k / 2 }
    function NumEdge(): nat { k * Half() }
    function NumCore(): nat { Half() * Half() }
    function OffsetEdge(): nat { NumEdge() * Half() }
    function OffsetAggr(): nat { OffsetEdge() + NumEdge() }
    function OffsetCore(): nat { OffsetAggr() + NumEdge() }

    /** `get_node_type` */
    function NodeType(node: int): Kind {
      if 0 <= node <= OffsetEdge() - 1 then Server
      else if OffsetEdge() <= node <= OffsetAggr() - 1 then Edge
      else if OffsetAggr() <= node <= OffsetCore() - 1 then Aggr
      else if OffsetCore() <= node <= OffsetCore() + NumCore() - 1 then Core
      else Unknown
    }

    /** `get_port_type` */
    function PortTypeOf(node: int, ifIndex: int): PortType {
      match NodeType(node)
      case Edge => if ifIndex <= Half() then EdgeToServer else EdgeToAggr
      case Aggr => if ifIndex <= Half() then AggrToEdge else AggrToCore
      case Core => CoreToAggr
      case Server => UnknownPort
      case Unknown => UnknownPort
    }

    /** `get_target_edge_id`; aggregation ids are never below their offset. */
    function TargetEdge(aggr: int, ifIndex: int): int
      requires Half() > 0 && aggr >= OffsetAggr()
    {
      OffsetEdge() + ((aggr - OffsetAggr()) / Half()) * Half() + (ifIndex - 1)
    }
  }

  /** The constructor refuses an odd k. */
  function MakeClassifier(k: nat): Option<Classifier> {
    if k % 2 != 0 then None else Some(Classifier(k))
  }

  lemma RefusesOddOnly(k: nat)
    ensures MakeClassifier(k) == None <==> forall half: nat :: k != 2 * half
  {
    assert k % 2 == 0 ==> k == 2 * (k / 2);
  }

  function TrueKind(t: Params, node: int): Kind {
    if t.IsServer(node) then Server
    else if t.IsTor(node) then Edge
    else if t.IsAgg(node) then Aggr
    else if t.IsCore(node) then Core
    else Unknown
  }

  function TruePort(t: Params, node: int, other: int): PortType {
    match (TrueKind(t, node), TrueKind(t, other))
    case (Edge, Server) => EdgeToServer
    case (Edge, Aggr) => EdgeToAggr
    case (Aggr, Edge) => AggrToEdge
    case (Aggr, Core) => AggrToCore
    case (Core, Aggr) => CoreToAggr
    case (_, _) => UnknownPort
  }

  /** Every interface is classified by its true two ends. */
  ghost predicate PortsTrue(t: Params) {
    forall node, i :: HasPort(Topology(t), node, i) ==>
      Classifier(t.K()).PortTypeOf(node, i) == TruePort(t, node, OtherEnd(Topology(t), node, i))
  }

  /** As many servers in a pod as the analysis expects. */
  predicate Standard(t: Params) {
    t.ServersPerPod() == t.half * t.half
  }

  /** In terms of the factor; then the ToRs have the expected number, too. */
  lemma StandardExactlyWhen(t: Params)
    requires t.half > 0
    ensures Standard(t) <==> 1.0 <= t.oversubscript < 1.0 + 1.0 / (t.half * t.half) as real
    ensures Standard(t) ==> t.ServersPerTor() == t.half
  {
    var h := t.half;
    var f: real := t.oversubscript;
    var s := (h * h) as real;
    var x := s * f;
    AtLeastSquare(h);
    QuotientCompare(1.0, s, 1.0 / s, f - 1.0, (f - 1.0) * s);
    assert (f - 1.0) * s == x - s;
    ProductSign(f - 1.0, s, x - s);
    if Standard(t) {
      TorFollows(h, f, x);
    }
  }

  lemma TorFollows(h: nat, f: real, x: real)
    requires h > 0 && f >= 1.0 && x == (h * h) as real * f && x < (h * h) as real + 1.0
    ensures (h as real * f).Floor == h
  {
    var y := h as real * f;
    assert h as real * y == x && h as real * h as real == (h * h) as real;
    ProductMonotone(1.0, f, h as real, h as real, y);
    var d := y - h as real;
    assert h as real * d == x - (h * h) as real;
    ProductMonotone(1.0, h as real, d, d, d * h as real);
  }

  /** In the standard tree the id ranges of both sides coincide. */
  lemma RangesAgree(t: Params, node: int)
    requires Standard(t)
    ensures MakeClassifier(t.K()) == Some(Classifier(t.K()))
    ensures Classifier(t.K()).NodeType(node) == TrueKind(t, node)
    ensures Classifier(t.K()).OffsetEdge() == t.FirstTor() && Classifier(t.K()).OffsetAggr() == t.FirstAgg()
  {
    hide RoundDown, Params.ServersPerTor;
    OffsetsAre(t);
  }

  /** The kinds of the two ends of every interface. */
  lemma KindOfNeighbour(t: Params, node: int, i: int)
    requires t.half > 0 && HasPort(Topology(t), node, i)
    ensures t.IsServer(node) || t.IsTor(node) || t.IsAgg(node) || t.IsCore(node)
    ensures t.IsServer(node) ==> t.IsTor(OtherEnd(Topology(t), node, i))
    ensures t.IsTor(node) && i <= t.ServersPerTor() ==> t.IsServer(OtherEnd(Topology(t), node, i))
    ensures t.IsTor(node) && i > t.ServersPerTor() ==> t.IsAgg(OtherEnd(Topology(t), node, i))
    ensures t.IsAgg(node) && i <= t.half ==> t.IsTor(OtherEnd(Topology(t), node, i))
    ensures t.IsAgg(node) && i > t.half ==> t.IsCore(OtherEnd(Topology(t), node, i))
    ensures t.IsCore(node) ==> t.IsAgg(OtherEnd(Topology(t), node, i))
  {
    hide Topology, OtherEnd, HasPort, Params.FirstTor, Params.ServersPerTor, Params.Cores;
    SomeKind(t, node, i);
    if t.IsServer(node) {
      ServerNeighbour(t, node, i);
    } else if t.IsTor(node) {
      TorNeighbour(t, node, i);
    } else if t.IsAgg(node) {
      AggNeighbour(t, node, i);
    } else if t.IsCore(node) {
      CoreNeighbour(t, node, i);
    }
  }

  lemma SomeKind(t: Params, node: int, i: int)
    requires t.half > 0 && HasPort(Topology(t), node, i)
    ensures t.IsServer(node) || t.IsTor(node) || t.IsAgg(node) || t.IsCore(node)
  {
    hide Neighbours, Topology, Params.FirstTor, Params.ServersPerTor, Params.Cores;
    AttachedFit(t);
    PortsOf(t, node);
  }

  lemma ServerNeighbour(t: Params, node: int, i: int)
    requires t.half > 0 && HasPort(Topology(t), node, i) && t.IsServer(node)
    ensures t.IsTor(OtherEnd(Topology(t), node, i))
  {
    hide Neighbours, Topology, Params.FirstTor, Params.ServersPerTor, Params.Cores;
    PortsOf(t, node);
    ServerTor(t, node);
  }

  lemma CoreNeighbour(t: Params, node: int, i: int)
    requires t.half > 0 && HasPort(Topology(t), node, i) && t.IsCore(node)
    ensures t.IsAgg(OtherEnd(Topology(t), node, i))
  {
    hide Neighbours, Topology, Params.FirstTor, Params.ServersPerTor, Params.Cores;
    PortsOf(t, node);
    CoreDigits(t, node);
    RowMajor(i - 1, (node - t.FirstCore()) / t.half, t.K(), t.half);
  }

  lemma TorNeighbour(t: Params, node: int, i: int)
    requires t.half > 0 && HasPort(Topology(t), node, i) && t.IsTor(node)
    ensures var other := OtherEnd(Topology(t), node, i);
      if i <= t.ServersPerTor() then t.IsServer(other) else t.IsAgg(other)
  {
    hide Neighbours, Topology, Params.FirstTor, Params.ServersPerTor, Params.Cores;
    PortsOf(t, node);
    AttachedRange(t, node);
    PodBounds(node - t.FirstTor(), t.half, t.K());
  }

  lemma AggNeighbour(t: Params, node: int, i: int)
    requires t.half > 0 && HasPort(Topology(t), node, i) && t.IsAgg(node)
    ensures var other := OtherEnd(Topology(t), node, i);
      if i <= t.half then t.IsTor(other) else t.IsCore(other)
  {
    hide Neighbours, Topology, Params.FirstTor, Params.ServersPerTor, Params.Cores;
    PortsOf(t, node);
    PodBounds(node - t.FirstAgg(), t.half, t.K());
    SplitBounds(node - t.FirstAgg(), t.half);
    CoresSquare(t);
  }

  lemma CoresSquare(t: Params)
    ensures t.Cores() == t.half * t.half
  {
  }

  lemma ServerTor(t: Params, node: int)
    requires t.Attached(node)
    ensures 0 <= Quot(node, t.ServersPerTor()) < t.Tors()
  {
    var w := t.ServersPerTor();
    hide Params.ServersPerTor, Params.Tors;
    assert 0 <= node < t.Tors() * w;
    if w > 0 {
      PodBounds(node, w, t.Tors());
    }
  }

  /** The script names the true ends of every interface of a fat tree exactly
      if its pods have the standard number of servers.  */
  lemma PortTypesAgree(t: Params)
    requires t.half > 0
    ensures PortsTrue(t) <==> Standard(t)
  {
    hide Topology;
    if Standard(t) {
      StandardExactlyWhen(t);
      forall node, i | HasPort(Topology(t), node, i)
        ensures Classifier(t.K()).PortTypeOf(node, i) == TruePort(t, node, OtherEnd(Topology(t), node, i))
      {
        PortTypeAgrees(t, node, i);
      }
    } else {
      CoresDisagree(t);
    }
  }

  lemma PortTypeAgrees(t: Params, node: int, i: int)
    requires t.half > 0 && Standard(t) && t.ServersPerTor() == t.half && HasPort(Topology(t), node, i)
    ensures Classifier(t.K()).PortTypeOf(node, i) == TruePort(t, node, OtherEnd(Topology(t), node, i))
  {
    RangesAgree(t, node);
    KindOfNeighbour(t, node, i);
    KindsExclusive(t, OtherEnd(Topology(t), node, i));
    KindsExclusive(t, node);
  }

  lemma KindsExclusive(t: Params, node: int)
    ensures t.IsServer(node) ==> TrueKind(t, node) == Server
    ensures t.IsTor(node) ==> TrueKind(t, node) == Edge
    ensures t.IsAgg(node) ==> TrueKind(t, node) == Aggr
    ensures t.IsCore(node) ==> TrueKind(t, node) == Core
  {
  }

  /** Otherwise the first or the last core switch is not taken for one. */
  lemma CoresDisagree(t: Params)
    requires t.half > 0 && !Standard(t)
    ensures !PortsTrue(t)
  {
    hide Neighbours, Topology, Params.FirstTor, RoundDown;
    var c := Classifier(t.K());
    var core := WrongCore(t);
    AtLeastSquare(t.half);
    CoreReachesEachPodOnce(t, core, 0);
    assert HasPort(Topology(t), core, 1);
    KindsExclusive(t, core);
    KindsExclusive(t, OtherEnd(Topology(t), core, 1));
    KindOfNeighbour(t, core, 1);
    assert TruePort(t, core, OtherEnd(Topology(t), core, 1)) == CoreToAggr;
  }

  lemma WrongCore(t: Params) returns (core: int)
    requires t.half > 0 && !Standard(t)
    ensures t.IsCore(core) && Classifier(t.K()).NodeType(core) != Core
  {
    hide RoundDown;
    var h, p := t.half, t.ServersPerPod();
    AtLeastSquare(h);
    OffsetsAre(t);
    if p < h * h {
      core := t.FirstCore();
      More(t.K(), p, h * h);
    } else {
      core := t.FirstCore() + h * h - 1;
      More(t.K(), h * h, p);
    }
  }

  lemma AtLeastSquare(h: nat)
    requires h > 0
    ensures h * h >= h && (2 * h) * h >= 2
  {
  }

  lemma More(m: nat, h: nat, w: nat)
    requires m > 0 && w > h
    ensures m * h < m * w
  {
    assert m * (w - h) > 0;
    assert m * (w - h) == m * w - m * h;
  }

  /** The script's offsets, in terms of the generator's. */
  lemma OffsetsAre(t: Params)
    ensures t.Tors() * t.half == t.K() * (t.half * t.half)
    ensures var c := Classifier(t.K());
      c.Half() == t.half && c.NumEdge() == t.Tors() && c.OffsetEdge() == t.Tors() * t.half
      && c.OffsetAggr() == c.OffsetEdge() + t.Tors()
  {
  }

  /** For the interfaces the script calls Aggr-to-Edge, `get_target_edge_id`
      is the true other end.  */
  lemma TargetEdgeAgrees(t: Params, aggr: int, i: int)
    requires t.half > 0 && Standard(t) && HasPort(Topology(t), aggr, i)
    requires Classifier(t.K()).PortTypeOf(aggr, i) == AggrToEdge
    ensures aggr >= Classifier(t.K()).OffsetAggr()
    ensures OtherEnd(Topology(t), aggr, i) == Classifier(t.K()).TargetEdge(aggr, i)
  {
    hide Neighbours, Topology, Params.FirstTor, Params.ServersPerTor, Params.Cores;
    hide Classifier.OffsetEdge, Classifier.OffsetAggr, Classifier.OffsetCore, Classifier.NodeType;
    RangesAgree(t, aggr);
    HalfIs(t);
    PortsOf(t, aggr);
  }

  lemma HalfIs(t: Params)
    ensures Classifier(t.K()).Half() == t.half
  {
  }
}
