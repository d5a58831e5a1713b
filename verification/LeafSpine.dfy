/** simulation/config/leaf_spine_topology_gen.py, and what the PFC scripts
    parse_pfc_batch.py and plot_analyze_pfc.py believe about its ports.  */
module LeafSpine {
  import opened Wrappers
  import opened Links
  import opened Arithmetic

  /** Node ids: servers, then leaves, then spines. */
  datatype Params = Params(leaves: nat, spines: nat, serversPerLeaf: nat) {
    function FirstLeaf(): nat { leaves * serversPerLeaf }
    function FirstSpine(): nat { FirstLeaf() + leaves }
    predicate IsServer(node: int) { 0 <= node < FirstLeaf() }
    predicate IsLeaf(node: int) { FirstLeaf() <= node < FirstSpine() }
    predicate IsSpine(node: int) { FirstSpine() <= node < FirstSpine() + spines }
  }

  /** The emitted links: servers to leaves, then leaves to spines. */
  function Topology(t: Params): seq<Link> {
    Attachments(t.FirstLeaf(), t.leaves, t.serversPerLeaf)
    + Fans(t.FirstLeaf(), t.FirstSpine(), 0, t.leaves, t.spines)
  }

  /** The two loop nests of the generator. */
  method Generate(t: Params) returns (links: seq<Link>)
    ensures links == Topology(t)
  {
    links := [];
    for leaf := 0 to t.leaves
      invariant links == Attachments(t.FirstLeaf(), leaf, t.serversPerLeaf)
    {
      ghost var before := links;
      for srv := 0 to t.serversPerLeaf
        invariant links == before + FanIn(leaf * t.serversPerLeaf, t.FirstLeaf() + leaf, srv)
      {
        links := links + [Link(leaf * t.serversPerLeaf + srv, t.FirstLeaf() + leaf)];
      }
    }
    ghost var attached := links;
    for leaf := 0 to t.leaves
      invariant links == attached + Fans(t.FirstLeaf(), t.FirstSpine(), 0, leaf, t.spines)
    {
      ghost var before := links;
      for spine := 0 to t.spines
        invariant links == before + FanOut(t.FirstLeaf() + leaf, t.FirstSpine(), spine)
      {
        links := links + [Link(t.FirstLeaf() + leaf, t.FirstSpine() + spine)];
      }
      FansUnfold(t.FirstLeaf(), t.FirstSpine(), 0, leaf + 1, t.spines, 0);
    }
  }

  /** Every interface of every node, in order. */
  lemma PortsOf(t: Params, node: int)
    ensures Neighbours(Topology(t), node) ==
      if t.IsServer(node) then [t.FirstLeaf() + node / t.serversPerLeaf]
      else if t.IsLeaf(node) then
        Run((node - t.FirstLeaf()) * t.serversPerLeaf, t.serversPerLeaf) + Run(t.FirstSpine(), t.spines)
      else if t.IsSpine(node) then Run(t.FirstLeaf(), t.leaves)
      else []
  {
    hide Neighbours, Attachments, Fans;
    NeighboursAppend(Attachments(t.FirstLeaf(), t.leaves, t.serversPerLeaf),
                     Fans(t.FirstLeaf(), t.FirstSpine(), 0, t.leaves, t.spines), node);
    NeighboursAttachments(t.FirstLeaf(), t.leaves, t.serversPerLeaf, node);
    NeighboursMesh(t.FirstLeaf(), t.FirstSpine(), t.leaves, t.spines, node);
  }

  /** A server of leaf `l` has an id in `l`'s block. */
  lemma ServersOfLeaf(t: Params, l: nat, i: nat)
    requires l < t.leaves && i < t.serversPerLeaf
    ensures t.IsServer(l * t.serversPerLeaf + i)
  {
    RowMajor(l, i, t.leaves, t.serversPerLeaf);
  }

  // ------------------------------------------------------------ the classifier

  datatype PortType = LeafToServer | LeafToSpine | SpineToLeaf | Unknown

  /** `classify_port_type` */
  function Classify(t: Params, node: int, ifIndex: int): (PortType, Option<int>) {
    if t.FirstLeaf() <= node < t.FirstSpine() then
      if ifIndex <= t.serversPerLeaf then (LeafToServer, None) else (LeafToSpine, None)
    else if t.FirstSpine() <= node < t.FirstSpine() + t.spines then
      (SpineToLeaf, Some(ifIndex - 1))
    else (Unknown, None)
  }

  /** What the classifier should say about a link from `node` to `other`. */
  function TrueType(t: Params, node: int, other: int): (PortType, Option<int>) {
    if t.IsLeaf(node) && t.IsServer(other) then (LeafToServer, None)
    else if t.IsLeaf(node) && t.IsSpine(other) then (LeafToSpine, None)
    else if t.IsSpine(node) && t.IsLeaf(other) then (SpineToLeaf, Some(other - t.FirstLeaf()))
    else (Unknown, None)
  }

  /** For every topology, the classifier names the true other end of every
      interface, and the target leaf of every spine interface.  */
  lemma ClassifierAgrees(t: Params, node: int, i: int)
    requires HasPort(Topology(t), node, i)
    ensures Classify(t, node, i) == TrueType(t, node, OtherEnd(Topology(t), node, i))
  {
    PortsOf(t, node);
    if t.IsLeaf(node) {
      if i <= t.serversPerLeaf {
        ServersOfLeaf(t, node - t.FirstLeaf(), i - 1);
      }
    }
  }

  /** Leaves have one interface per server and spine, spines one per leaf. */
  lemma PortCounts(t: Params, node: int)
    ensures t.IsServer(node) ==> |Neighbours(Topology(t), node)| == 1
    ensures t.IsLeaf(node) ==> |Neighbours(Topology(t), node)| == t.serversPerLeaf + t.spines
    ensures t.IsSpine(node) ==> |Neighbours(Topology(t), node)| == t.leaves
  {
    PortsOf(t, node);
  }

  /** The link count announced in the header. */
  lemma LinkCount(t: Params)
    ensures |Topology(t)| == t.leaves * t.serversPerLeaf + t.leaves * t.spines
  {
    AttachmentsSize(t.FirstLeaf(), t.leaves, t.serversPerLeaf);
    FansSize(t.FirstLeaf(), t.FirstSpine(), 0, t.leaves, t.spines);
  }

  /** Every line names the lower node first, and the lines are in order. */
  lemma LinesInOrder(t: Params)
    ensures Ordered(Topology(t), 0, t.FirstSpine())
  {
    hide Ordered, Attachments, Fans;
    AttachmentsOrdered(t.FirstLeaf(), t.leaves, t.serversPerLeaf);
    FansOrdered(t.FirstLeaf(), t.FirstSpine(), 0, t.leaves, t.spines);
    OrderedJoin(Attachments(t.FirstLeaf(), t.leaves, t.serversPerLeaf),
                Fans(t.FirstLeaf(), t.FirstSpine(), 0, t.leaves, t.spines), 0, t.FirstLeaf(), t.FirstSpine());
  }

  /** No two nodes are linked twice. */
  lemma NoDuplicates(t: Params)
    ensures forall i, j :: 0 <= i < j < |Topology(t)| ==> !SamePair(Topology(t)[i], Topology(t)[j])
  {
    forall node ensures NoRepeats(Neighbours(Topology(t), node)) {
      NeighboursDiffer(t, node);
    }
    NoParallelLinks(Topology(t));
  }

  lemma NeighboursDiffer(t: Params, node: int)
    ensures NoRepeats(Neighbours(Topology(t), node))
  {
    PortsOf(t, node);
    hide Neighbours, Topology;
    if t.IsLeaf(node) {
      var l := node - t.FirstLeaf();
      assert (l + 1) * t.serversPerLeaf == l * t.serversPerLeaf + t.serversPerLeaf;
      MulMonotone(l + 1, t.leaves, t.serversPerLeaf);
    }
  }

  // ------------------------------------------------------------ the port group

  /** Is interface `i` of `node` in the group, with the first `k` spines and
      these targets taken into account?  */
  predicate InGroup(t: Params, source: int, k: nat, targets: seq<int>, node: int, i: int) {
    || (node == t.FirstLeaf() + source && i == 1)
    || (t.FirstSpine() <= node < t.FirstSpine() + k && i == source + 1)
    || (node - t.FirstLeaf() in targets && t.serversPerLeaf < i <= t.serversPerLeaf + t.spines)
  }

  /** `generate_simplified_pfc_group` */
  method PortGroup(t: Params, source: int, targets: seq<int>) returns (group: set<(int, int)>)
    ensures forall node, i :: (node, i) in group <==> InGroup(t, source, t.spines, targets, node, i)
  {
    group := {(t.FirstLeaf() + source, 1)};
    for k := 0 to t.spines
      invariant forall node, i :: (node, i) in group <==> InGroup(t, source, k, [], node, i)
    {
      group := group + {(t.FirstSpine() + k, source + 1)};
    }
    for j := 0 to |targets|
      invariant forall node, i :: (node, i) in group <==> InGroup(t, source, t.spines, targets[..j], node, i)
    {
      group := AddUplinks(t, group, t.FirstLeaf() + targets[j]);
      assert targets[..j + 1] == targets[..j] + [targets[j]];
    }
    assert targets[..|targets|] == targets;
  }

  method AddUplinks(t: Params, group: set<(int, int)>, leaf: int) returns (r: set<(int, int)>)
    ensures forall node, i :: (node, i) in r <==>
      (node, i) in group || (node == leaf && t.serversPerLeaf < i <= t.serversPerLeaf + t.spines)
  {
    r := group;
    for k := 0 to t.spines
      invariant forall node, i :: (node, i) in r <==>
        (node, i) in group || (node == leaf && t.serversPerLeaf < i <= t.serversPerLeaf + k)
    {
      r := r + {(leaf, t.serversPerLeaf + k + 1)};
    }
  }

  /** The group consists of the source leaf's first interface, of the spine
      interfaces that face the source leaf, and of the target leaves' interfaces
      that face a spine, and of nothing else.  */
  lemma GroupIsThePath(t: Params, source: int, targets: seq<int>, node: int, i: int)
    requires 0 <= source < t.leaves && forall j :: 0 <= j < |targets| ==> 0 <= targets[j] < t.leaves
    ensures InGroup(t, source, t.spines, targets, node, i) <==>
      || (node == t.FirstLeaf() + source && i == 1)
      || (HasPort(Topology(t), node, i)
          && var other := OtherEnd(Topology(t), node, i);
             || (t.IsSpine(node) && other == t.FirstLeaf() + source)
             || (node - t.FirstLeaf() in targets && t.IsSpine(other)))
  {
    PortsOf(t, node);
    if t.IsLeaf(node) && 1 <= i <= t.serversPerLeaf {
      ServersOfLeaf(t, node - t.FirstLeaf(), i - 1);
    }
  }

  /** The source leaf's first interface leads to a server exactly if leaves
      have servers at all.  */
  lemma FirstInterfaceIsServer(t: Params, source: nat)
    requires source < t.leaves
    ensures HasPort(Topology(t), t.FirstLeaf() + source, 1)
            && t.IsServer(OtherEnd(Topology(t), t.FirstLeaf() + source, 1))
            <==> t.serversPerLeaf > 0
  {
    PortsOf(t, t.FirstLeaf() + source);
    if t.serversPerLeaf > 0 {
      ServersOfLeaf(t, source, 0);
    }
  }
}
