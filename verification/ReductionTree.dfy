/** The reduction tree of simulation/analysis/optimal_jct_analyzer.py, built
    bottom-up, and the completion times derived from it.  */
module ReductionTree {
  import opened Wrappers
  import opened Arithmetic
  import opened RealArithmetic
  import Sorting

  datatype Node = Node(level: nat, children: seq<int>, parent: Option<int>, isLeaf: bool, isRoot: bool)

  datatype Tree = Tree(nodes: map<int, Node>, levels: map<nat, seq<int>>, rootId: int, height: nat)

  datatype Result<T> = Ok(value: T) | KeyError

  // ------------------------------------------------------------ the expected shape

  /** Number of nodes at a level: halved, rounding up, from level to level. */
  function Size(n: nat, level: nat): nat {
    if level == 0 then n else (Size(n, level - 1) + 1) / 2
  }

  /** First id at a level. */
  function Start(n: nat, level: nat): nat {
    if level == 0 then 0 else Start(n, level - 1) + Size(n, level - 1)
  }

  function IdRun(first: int, n: nat): (r: seq<int>)
    ensures |r| == n && forall i :: 0 <= i < n ==> r[i] == first + i
  {
    seq(n, i => first + i)
  }

  /** The children of node `j` of a level above the leaves. */
  function ChildrenAt(n: nat, level: nat, j: nat): seq<int>
    requires level > 0
  {
    [Start(n, level - 1) + 2 * j]
    + (if 2 * j + 1 < Size(n, level - 1) then [Start(n, level - 1) + 2 * j + 1] else [])
  }

  function NodeAt(n: nat, level: nat, j: nat, linked: bool, isRoot: bool): Node {
    Node(level, if level == 0 then [] else ChildrenAt(n, level, j),
         if linked then Some(Start(n, level + 1) + j / 2) else None, level == 0, isRoot)
  }

  // ------------------------------------------------------------ the loops

  function MaxOf(s: set<int>): (m: int)
    requires s != {}
    ensures m in s && forall x :: x in s ==> x <= m
  {
    assert exists m :: m in s && forall x :: x in s ==> x <= m by {
      var w := GreatestOf(s);
    }
    var m :| m in s && forall x :: x in s ==> x <= m;
    m
  }

  ghost function GreatestOf(s: set<int>): (m: int)
    requires s != {}
    ensures m in s && forall x :: x in s ==> x <= m
  {
    Sorting.SomeMember(s);
    var x :| x in s;
    if s == {x} then x
    else
      var n := GreatestOf(s - {x});
      assert forall y :: y in s ==> y == x || y in s - {x};
      if n > x then n else x
  }

  function IdAt(n: nat, level: nat, j: nat): int {
    Start(n, level) + j
  }

  predicate Has(nodes: map<int, Node>, id: int, node: Node) {
    id in nodes && nodes[id] == node
  }

  /** Levels below `level` are complete and linked to their parents. */
  ghost predicate LowerOk(n: nat, nodes: map<int, Node>, level: nat) {
    forall l: nat, j: nat :: l < level && j < Size(n, l) ==> Has(nodes, IdAt(n, l, j), NodeAt(n, l, j, true, false))
  }

  /** The first `linked` nodes of the level have their parents, ... */
  ghost predicate RowLinked(n: nat, nodes: map<int, Node>, level: nat, linked: nat) {
    forall j: nat :: j < linked ==> Has(nodes, IdAt(n, level, j), NodeAt(n, level, j, true, false))
  }

  /** ... the others wait for theirs; leaves do not exist until then. */
  ghost predicate RowWaiting(n: nat, nodes: map<int, Node>, level: nat, linked: nat) {
    forall j: nat :: linked <= j < Size(n, level) ==>
      if level == 0 then IdAt(n, level, j) !in nodes
      else Has(nodes, IdAt(n, level, j), NodeAt(n, level, j, false, false))
  }

  /** The first `count` parents exist. */
  ghost predicate ParentsOk(n: nat, nodes: map<int, Node>, above: nat, count: nat) {
    forall j: nat :: j < count ==> Has(nodes, IdAt(n, above, j), NodeAt(n, above, j, false, false))
  }

  ghost predicate KeysOk(n: nat, nodes: map<int, Node>, level: nat, count: nat) {
    forall x :: x in nodes ==> 0 <= x < IdAt(n, level + 1, count)
  }

  ghost predicate BuiltUpTo(n: nat, nodes: map<int, Node>, level: nat, linked: nat) {
    && LowerOk(n, nodes, level)
    && RowLinked(n, nodes, level, linked)
    && RowWaiting(n, nodes, level, linked)
    && ParentsOk(n, nodes, level + 1, (linked + 1) / 2)
    && KeysOk(n, nodes, level, (linked + 1) / 2)
  }

  lemma {:induction false} StartsGrow(n: nat, a: nat, b: nat)
    requires a < b
    ensures Start(n, a) + Size(n, a) <= Start(n, b)
  {
    if a == b - 1 {
    } else {
      StartsGrow(n, a, b - 1);
    }
  }

  /** Sets a child's parent, inserting the child first if it is new. */
  function Adopt(nodes: map<int, Node>, child: int, level: nat, parentId: int): map<int, Node> {
    var node := if child in nodes then nodes[child] else Node(level, [], Some(parentId), true, false);
    nodes[child := node.(parent := Some(parentId))]
  }

  /** One iteration of the inner loop, for the pair starting at position `i`. */
  method LinkPair(n: nat, nodes: map<int, Node>, level: nat, remaining: seq<int>, i: nat)
    returns (r: map<int, Node>, parentId: int)
    requires remaining == IdRun(Start(n, level), Size(n, level)) && i < |remaining| && i % 2 == 0
    requires BuiltUpTo(n, nodes, level, i)
    ensures parentId == IdAt(n, level + 1, i / 2)
    ensures BuiltUpTo(n, r, level, if i + 1 < |remaining| then i + 2 else i + 1)
  {
    var left := remaining[i];
    var right := if i + 1 < |remaining| then Some(remaining[i + 1]) else None;
    NextId(n, nodes, level, i);
    parentId := if nodes.Keys != {} then MaxOf(nodes.Keys) + 1 else n;
    var children := [left] + (if right.Some? then [right.value] else []);
    r := nodes[parentId := Node(level + 1, children, None, false, false)];
    r := Adopt(r, left, level, parentId);
    if right.Some? {
      r := Adopt(r, right.value, level, parentId);
    }
    LinkPairOk(n, nodes, r, level, i);
  }

  /** The next id is the first one not yet used at the level above. */
  lemma NextId(n: nat, nodes: map<int, Node>, level: nat, i: nat)
    requires BuiltUpTo(n, nodes, level, i) && i < Size(n, level) && i % 2 == 0
    ensures (if nodes.Keys != {} then MaxOf(nodes.Keys) + 1 else n) == IdAt(n, level + 1, i / 2)
  {
    StartStep(n, level);
    if i > 0 {
      assert Has(nodes, IdAt(n, level + 1, i / 2 - 1), NodeAt(n, level + 1, i / 2 - 1, false, false));
    } else if level > 0 {
      var j: nat := Size(n, level) - 1;
      assert Has(nodes, IdAt(n, level, j), NodeAt(n, level, j, false, false));
    } else {
      NoLeafYet(n, nodes);
    }
  }

  lemma StartStep(n: nat, level: nat)
    ensures Start(n, level + 1) == Start(n, level) + Size(n, level)
    ensures Start(n, 0) == 0 && Size(n, 0) == n
  {
  }

  lemma NoLeafYet(n: nat, nodes: map<int, Node>)
    requires RowWaiting(n, nodes, 0, 0) && KeysOk(n, nodes, 0, 0)
    ensures nodes.Keys == {}
  {
    forall x: nat | x < Size(n, 0) ensures x !in nodes {
      assert IdAt(n, 0, x) == x;
    }
    StartStep(n, 0);
  }

  /** The map after one iteration, spelt out. */
  ghost predicate PairUpdate(n: nat, nodes: map<int, Node>, r: map<int, Node>, level: nat, i: nat) {
    var p := IdAt(n, level + 1, i / 2);
    var left := IdAt(n, level, i);
    var both := i + 1 < Size(n, level);
    && Has(r, p, NodeAt(n, level + 1, i / 2, false, false))
    && Has(r, left, NodeAt(n, level, i, true, false))
    && (both ==> Has(r, left + 1, NodeAt(n, level, i + 1, true, false)))
    && (forall x :: x in nodes && x != p && x != left && (both ==> x != left + 1) ==> Has(r, x, nodes[x]))
    && (forall x :: x in r ==> x in nodes || x == p || x == left || (both && x == left + 1))
  }

  lemma AdoptIs(nodes: map<int, Node>, child: int, level: nat, parentId: int, expected: Node)
    requires expected == if child in nodes then nodes[child].(parent := Some(parentId))
                         else Node(level, [], Some(parentId), true, false)
    ensures Adopt(nodes, child, level, parentId) == nodes[child := expected]
  {
  }

  lemma PairUpdated(n: nat, nodes: map<int, Node>, r: map<int, Node>, level: nat, i: nat)
    requires i < Size(n, level) && i % 2 == 0 && RowWaiting(n, nodes, level, i)
    requires var p := IdAt(n, level + 1, i / 2);
      var left := IdAt(n, level, i);
      var both := i + 1 < Size(n, level);
      var children := [left] + (if both then [left + 1] else []);
      var a := Adopt(nodes[p := Node(level + 1, children, None, false, false)], left, level, p);
      r == if both then Adopt(a, left + 1, level, p) else a
    ensures PairUpdate(n, nodes, r, level, i)
  {
    hide NodeAt, RowWaiting, Size, Start, Adopt;
    var p := IdAt(n, level + 1, i / 2);
    var left := IdAt(n, level, i);
    var both := i + 1 < Size(n, level);
    ParentNode(n, level, i);
    AdoptedChild(n, nodes, level, i, i);
    var start := nodes[p := NodeAt(n, level + 1, i / 2, false, false)];
    var first := NodeAt(n, level, i, true, false);
    AdoptIs(start, left, level, p, first);
    if both {
      AdoptedChild(n, nodes, level, i, i + 1);
      assert IdAt(n, level, i + 1) == left + 1;
      AdoptIs(start[left := first], left + 1, level, p, NodeAt(n, level, i + 1, true, false));
    }
    ThreeUpdates(n, nodes, r, level, i);
  }

  lemma ThreeUpdates(n: nat, nodes: map<int, Node>, r: map<int, Node>, level: nat, i: nat)
    requires i < Size(n, level)
    requires var p := IdAt(n, level + 1, i / 2);
      var left := IdAt(n, level, i);
      var both := i + 1 < Size(n, level);
      var two := nodes[p := NodeAt(n, level + 1, i / 2, false, false)][left := NodeAt(n, level, i, true, false)];
      p > left && (both ==> p > left + 1)
      && r == if both then two[left + 1 := NodeAt(n, level, i + 1, true, false)] else two
    ensures PairUpdate(n, nodes, r, level, i)
  {
    hide NodeAt, Size, IdAt;
  }

  lemma ParentNode(n: nat, level: nat, i: nat)
    requires i < Size(n, level) && i % 2 == 0
    ensures var left := IdAt(n, level, i);
      Node(level + 1, [left] + (if i + 1 < Size(n, level) then [left + 1] else []), None, false, false)
      == NodeAt(n, level + 1, i / 2, false, false)
  {
    hide Size, Start;
    var j := i / 2;
    assert 2 * j == i;
    var left := Start(n, level) + i;
    assert ChildrenAt(n, level + 1, j) == [left] + (if i + 1 < Size(n, level) then [left + 1] else []);
  }

  /** A waiting child that is given its parent becomes the expected node. */
  lemma AdoptedChild(n: nat, nodes: map<int, Node>, level: nat, i: nat, j: nat)
    requires i <= j < Size(n, level) && j / 2 == i / 2 && RowWaiting(n, nodes, level, i)
    ensures var p := IdAt(n, level + 1, i / 2); var c := IdAt(n, level, j);
      c < p && NodeAt(n, level, j, true, false)
        == if c in nodes then nodes[c].(parent := Some(p)) else Node(level, [], Some(p), true, false)
  {
  }

  lemma LinkPairOk(n: nat, nodes: map<int, Node>, r: map<int, Node>, level: nat, i: nat)
    requires BuiltUpTo(n, nodes, level, i) && i < Size(n, level) && i % 2 == 0
    requires var p := IdAt(n, level + 1, i / 2);
      var left := IdAt(n, level, i);
      var both := i + 1 < Size(n, level);
      var children := [left] + (if both then [left + 1] else []);
      var a := Adopt(nodes[p := Node(level + 1, children, None, false, false)], left, level, p);
      r == if both then Adopt(a, left + 1, level, p) else a
    ensures BuiltUpTo(n, r, level, if i + 1 < Size(n, level) then i + 2 else i + 1)
  {
    PairUpdated(n, nodes, r, level, i);
    PairKeepsLower(n, nodes, r, level, i);
    PairKeepsRow(n, nodes, r, level, i);
  }

  lemma PairKeepsLower(n: nat, nodes: map<int, Node>, r: map<int, Node>, level: nat, i: nat)
    requires LowerOk(n, nodes, level) && i < Size(n, level) && PairUpdate(n, nodes, r, level, i)
    ensures LowerOk(n, r, level)
  {
    forall l: nat, j: nat | l < level && j < Size(n, l)
      ensures Has(r, IdAt(n, l, j), NodeAt(n, l, j, true, false))
    {
      StartsGrow(n, l, level);
      assert Has(nodes, IdAt(n, l, j), NodeAt(n, l, j, true, false));
    }
  }

  lemma PairKeepsRow(n: nat, nodes: map<int, Node>, r: map<int, Node>, level: nat, i: nat)
    requires BuiltUpTo(n, nodes, level, i) && i < Size(n, level) && i % 2 == 0
    requires PairUpdate(n, nodes, r, level, i)
    ensures var linked := if i + 1 < Size(n, level) then i + 2 else i + 1;
      && RowLinked(n, r, level, linked) && RowWaiting(n, r, level, linked)
      && ParentsOk(n, r, level + 1, (linked + 1) / 2) && KeysOk(n, r, level, (linked + 1) / 2)
  {
    hide NodeAt, RowLinked, RowWaiting, ParentsOk, KeysOk, PairUpdate, LowerOk, Size;
    PairKeepsLevel(n, nodes, r, level, i);
    PairAddsParent(n, nodes, r, level, level + 1, i);
  }

  lemma PairKeepsLevel(n: nat, nodes: map<int, Node>, r: map<int, Node>, level: nat, i: nat)
    requires RowLinked(n, nodes, level, i) && RowWaiting(n, nodes, level, i)
    requires i < Size(n, level) && i % 2 == 0 && PairUpdate(n, nodes, r, level, i)
    ensures var linked := if i + 1 < Size(n, level) then i + 2 else i + 1;
      RowLinked(n, r, level, linked) && RowWaiting(n, r, level, linked)
  {
    hide NodeAt, Size, Start;
    StartStep(n, level);
    var linked := if i + 1 < Size(n, level) then i + 2 else i + 1;
    forall j: nat | j < linked ensures Has(r, IdAt(n, level, j), NodeAt(n, level, j, true, false)) {
      if j < i {
        assert Has(nodes, IdAt(n, level, j), NodeAt(n, level, j, true, false));
      }
    }
    forall j: nat | linked <= j < Size(n, level)
      ensures if level == 0 then IdAt(n, level, j) !in r
              else Has(r, IdAt(n, level, j), NodeAt(n, level, j, false, false))
    {
      assert level > 0 ==> Has(nodes, IdAt(n, level, j), NodeAt(n, level, j, false, false));
      assert level == 0 ==> IdAt(n, level, j) !in nodes;
    }
  }

  lemma PairAddsParent(n: nat, nodes: map<int, Node>, r: map<int, Node>, level: nat, above: nat, i: nat)
    requires ParentsOk(n, nodes, above, i / 2) && KeysOk(n, nodes, level, i / 2) && above == level + 1
    requires i < Size(n, level) && i % 2 == 0 && PairUpdate(n, nodes, r, level, i)
    ensures ParentsOk(n, r, above, i / 2 + 1) && KeysOk(n, r, level, i / 2 + 1)
  {
    hide NodeAt;
    forall j: nat | j < i / 2 + 1 ensures Has(r, IdAt(n, above, j), NodeAt(n, above, j, false, false)) {
      if j < i / 2 {
        assert Has(nodes, IdAt(n, above, j), NodeAt(n, above, j, false, false));
      }
    }
  }

  /** When all pairs are linked, the parents are the next level. */
  lemma NextLevel(n: nat, nodes: map<int, Node>, level: nat, above: nat)
    requires BuiltUpTo(n, nodes, level, Size(n, level)) && above == level + 1
    ensures BuiltUpTo(n, nodes, above, 0)
  {
    hide NodeAt;
    forall l: nat, j: nat | l < above && j < Size(n, l)
      ensures Has(nodes, IdAt(n, l, j), NodeAt(n, l, j, true, false))
    {
    }
    forall j: nat | 0 <= j < Size(n, above)
      ensures Has(nodes, IdAt(n, above, j), NodeAt(n, above, j, false, false))
    {
    }
    StartStep(n, above);
  }

  /** The finished tree, node by node. */
  ghost predicate Shape(n: nat, tree: Tree) {
    var h := tree.height;
    && Size(n, h) == 1 && (forall l: nat :: l < h ==> Size(n, l) > 1)
    && LowerOk(n, tree.nodes, h)
    && tree.rootId == IdAt(n, h, 0)
    && Has(tree.nodes, tree.rootId, NodeAt(n, h, 0, false, true))
    && (forall x :: x in tree.nodes ==> 0 <= x <= tree.rootId)
    && (forall l: nat :: l in tree.levels <==> l < h)
    && (forall l: nat :: l < h ==> tree.levels[l] == IdRun(Start(n, l), Size(n, l)))
  }

  /** `build_binary_tree`: a key error for a group of one. */
  method BuildTree(n: nat) returns (r: Result<Tree>)
    ensures r.KeyError? <==> n == 1
    ensures n == 0 ==> r == Ok(Tree(map[], map[], 0, 0))
    ensures n > 1 ==> Shape(n, r.value)
  {
    hide BuiltUpTo, NodeAt, LowerOk, Size, Start;
    EmptyStart(n);
    var nodes: map<int, Node> := map[];
    var levels: map<nat, seq<int>> := map[];
    var level: nat := 0;
    var remaining := IdRun(0, n);
    while |remaining| > 1
      invariant remaining == IdRun(Start(n, level), Size(n, level))
      invariant n > 1 ==> Size(n, level) >= 1
      invariant n <= 1 ==> level == 0 && nodes == map[] && levels == map[]
      invariant BuiltUpTo(n, nodes, level, 0)
      invariant forall l: nat :: l < level ==> Size(n, l) > 1
      invariant forall l: nat :: l in levels <==> l < level
      invariant forall l: nat :: l < level ==> levels[l] == IdRun(Start(n, l), Size(n, l))
      decreases |remaining|
    {
      levels := levels[level := remaining];
      SizeStep(n, level);
      var parents;
      nodes, parents := LinkLevel(n, nodes, level, remaining);
      NextLevel(n, nodes, level, level + 1);
      remaining := parents;
      level := level + 1;
    }
    if remaining == [] {
      return Ok(Tree(nodes, levels, 0, 0));
    }
    var rootId := remaining[0];
    if rootId !in nodes {
      RootPresent(n, nodes, level);
      return KeyError;
    }
    RootPresent(n, nodes, level);
    r := Ok(Tree(nodes[rootId := nodes[rootId].(isRoot := true)], levels, rootId, level));
    FinishedShape(n, nodes, r.value);
  }

  lemma EmptyStart(n: nat)
    ensures BuiltUpTo(n, map[], 0, 0) && Size(n, 0) == n && Start(n, 0) == 0
  {
  }

  lemma SizeStep(n: nat, level: nat)
    ensures Size(n, level) > 1 ==> 1 <= Size(n, level + 1) < Size(n, level)
  {
  }

  /** The inner loop: one level of parents. */
  method LinkLevel(n: nat, before: map<int, Node>, level: nat, remaining: seq<int>)
    returns (nodes: map<int, Node>, parents: seq<int>)
    requires remaining == IdRun(Start(n, level), Size(n, level)) && BuiltUpTo(n, before, level, 0)
    ensures BuiltUpTo(n, nodes, level, Size(n, level))
    ensures parents == IdRun(Start(n, level + 1), Size(n, level + 1))
  {
    hide BuiltUpTo;
    nodes, parents := before, [];
    var i := 0;
    while i < |remaining|
      invariant i % 2 == 0 && i <= |remaining| + 1
      invariant BuiltUpTo(n, nodes, level, if i < |remaining| then i else |remaining|)
      invariant parents == IdRun(Start(n, level + 1), i / 2)
    {
      var parentId;
      nodes, parentId := LinkPair(n, nodes, level, remaining, i);
      parents := parents + [parentId];
      i := i + 2;
    }
  }

  /** A group of one never gets a node; otherwise the root is there. */
  lemma RootPresent(n: nat, nodes: map<int, Node>, level: nat)
    requires BuiltUpTo(n, nodes, level, 0) && Size(n, level) == 1
    requires n <= 1 ==> level == 0
    requires forall l: nat :: l < level ==> Size(n, l) > 1
    ensures IdAt(n, level, 0) == Start(n, level)
    ensures Start(n, level) in nodes <==> n > 1
    ensures n > 1 ==> Has(nodes, IdAt(n, level, 0), NodeAt(n, level, 0, false, false))
  {
    assert IdAt(n, level, 0) == Start(n, level);
  }

  lemma FinishedShape(n: nat, nodes: map<int, Node>, tree: Tree)
    requires BuiltUpTo(n, nodes, tree.height, 0) && Size(n, tree.height) == 1
    requires tree.rootId == IdAt(n, tree.height, 0)
    requires Has(nodes, tree.rootId, NodeAt(n, tree.height, 0, false, false))
    requires tree.nodes == nodes[tree.rootId := nodes[tree.rootId].(isRoot := true)]
    ensures LowerOk(n, tree.nodes, tree.height)
    ensures Has(tree.nodes, tree.rootId, NodeAt(n, tree.height, 0, false, true))
    ensures forall x :: x in tree.nodes ==> 0 <= x <= tree.rootId
  {
    var h := tree.height;
    forall l: nat, j: nat | l < h && j < Size(n, l)
      ensures Has(tree.nodes, IdAt(n, l, j), NodeAt(n, l, j, true, false))
    {
      StartsGrow(n, l, h);
      assert Has(nodes, IdAt(n, l, j), NodeAt(n, l, j, true, false));
    }
    StartStep(n, h);
  }

  // ------------------------------------------------------------ what the shape means

  /** Every id below the start of level `h` belongs to exactly one place. */
  lemma {:induction false} Locate(n: nat, h: nat, x: int) returns (l: nat, j: nat)
    requires 0 <= x < Start(n, h)
    ensures l < h && j < Size(n, l) && x == IdAt(n, l, j)
  {
    StartStep(n, h - 1);
    if x >= Start(n, h - 1) {
      l, j := h - 1, x - Start(n, h - 1);
    } else {
      l, j := Locate(n, h - 1, x);
    }
  }

  /** Parents and children agree; the leaves are the group; levels go up by one. */
  ghost predicate TreeOk(n: nat, tree: Tree) {
    && tree.rootId in tree.nodes
    && (forall x :: x in tree.nodes <==> 0 <= x <= tree.rootId)
    && (forall x :: x in tree.nodes ==> NodeOk(n, tree, x))
  }

  ghost predicate NodeOk(n: nat, tree: Tree, x: int)
    requires x in tree.nodes
  {
    DownOk(n, tree, x) && UpOk(tree, x)
  }

  /** The node at each place of the finished tree, root included. */
  lemma NodeIs(n: nat, tree: Tree, l: nat, j: nat)
    requires Shape(n, tree) && l <= tree.height && j < Size(n, l)
    ensures Has(tree.nodes, IdAt(n, l, j), NodeAt(n, l, j, l < tree.height, l == tree.height))
  {
    hide Size, Start, IdAt, NodeAt, Has;
    if l < tree.height {
      assert LowerOk(n, tree.nodes, tree.height);
    } else {
      assert j == 0;
    }
  }

  /** The part of `NodeOk` about the node itself and its children ... */
  ghost predicate DownOk(n: nat, tree: Tree, x: int)
    requires x in tree.nodes
  {
    var node := tree.nodes[x];
    && (node.isLeaf <==> x < n) && (node.isLeaf <==> node.level == 0) && (node.isLeaf <==> node.children == [])
    && |node.children| <= 2
    && (forall i :: 0 <= i < |node.children| ==>
          var c := node.children[i];
          c in tree.nodes && c < x && tree.nodes[c].parent == Some(x) && tree.nodes[c].level + 1 == node.level)
    && (forall i, j :: 0 <= i < j < |node.children| ==> node.children[i] != node.children[j])
  }

  /** ... and the part about its parent. */
  ghost predicate UpOk(tree: Tree, x: int)
    requires x in tree.nodes
  {
    var node := tree.nodes[x];
    && (node.isRoot <==> x == tree.rootId)
    && (x == tree.rootId ==> node.parent.None? && node.level == tree.height)
    && (x != tree.rootId ==>
          && node.parent.Some? && node.parent.value in tree.nodes
          && x in tree.nodes[node.parent.value].children)
  }

  /** Child number `i` of place (l, j) sits at place (l - 1, 2j + i). */
  lemma ChildAt(n: nat, tree: Tree, l: nat, j: nat, i: nat)
    requires Shape(n, tree) && 0 < l <= tree.height && j < Size(n, l) && i < |ChildrenAt(n, l, j)|
    ensures var c := ChildrenAt(n, l, j)[i];
      && c == IdAt(n, l - 1, 2 * j + i) && c < IdAt(n, l, j)
      && Has(tree.nodes, c, NodeAt(n, l - 1, 2 * j + i, true, false))
      && NodeAt(n, l - 1, 2 * j + i, true, false).parent == Some(IdAt(n, l, j))
  {
    hide Shape, Has, Size, Start;
    ChildPlace(n, l - 1, l, j, i);
    NodeIs(n, tree, l - 1, 2 * j + i);
    assert (2 * j + i) / 2 == j;
  }

  lemma ChildPlace(n: nat, below: nat, l: nat, j: nat, i: nat)
    requires l == below + 1 && j < Size(n, l) && i < |ChildrenAt(n, l, j)|
    ensures 2 * j + i < Size(n, below) && (2 * j + i) / 2 == j
    ensures ChildrenAt(n, l, j)[i] == IdAt(n, below, 2 * j + i) < IdAt(n, l, j)
  {
  }

  lemma DownPlace(n: nat, tree: Tree, l: nat, j: nat)
    requires Shape(n, tree) && l <= tree.height && j < Size(n, l)
    ensures IdAt(n, l, j) in tree.nodes && DownOk(n, tree, IdAt(n, l, j))
  {
    hide Shape, Size, Start, ChildrenAt, IdAt;
    NodeIs(n, tree, l, j);
    PlaceFacts(n, l, j);
    if l > 0 {
      forall i: nat | i < |ChildrenAt(n, l, j)|
        ensures var c := ChildrenAt(n, l, j)[i];
          c in tree.nodes && c < IdAt(n, l, j) && tree.nodes[c].parent == Some(IdAt(n, l, j))
          && tree.nodes[c].level + 1 == l
      {
        ChildAt(n, tree, l, j, i);
      }
    }
  }

  lemma PlaceFacts(n: nat, l: nat, j: nat)
    requires j < Size(n, l)
    ensures l == 0 ==> IdAt(n, l, j) < n
    ensures l > 0 ==> n <= IdAt(n, l, j) && 0 < |ChildrenAt(n, l, j)| <= 2
    ensures l > 0 && |ChildrenAt(n, l, j)| == 2 ==> ChildrenAt(n, l, j)[0] != ChildrenAt(n, l, j)[1]
  {
    if l > 0 {
      StartsGrow(n, 0, l);
    }
    StartStep(n, 0);
  }

  lemma RootFacts(n: nat, tree: Tree, l: nat, j: nat)
    requires Shape(n, tree) && l <= tree.height && j < Size(n, l)
    ensures l < tree.height ==> IdAt(n, l, j) < tree.rootId
    ensures l == tree.height ==> IdAt(n, l, j) == tree.rootId
  {
    if l < tree.height {
      StartsGrow(n, l, tree.height);
    }
  }

  lemma UpPlace(n: nat, tree: Tree, l: nat, j: nat)
    requires Shape(n, tree) && l <= tree.height && j < Size(n, l)
    ensures IdAt(n, l, j) in tree.nodes && UpOk(tree, IdAt(n, l, j))
  {
    hide Shape, Size, Start, ChildrenAt;
    NodeIs(n, tree, l, j);
    RootFacts(n, tree, l, j);
    if l < tree.height {
      ChildListed(n, l, j);
      NodeIs(n, tree, l + 1, j / 2);
      assert NodeAt(n, l, j, true, false).parent == Some(IdAt(n, l + 1, j / 2));
      assert NodeAt(n, l + 1, j / 2, l + 1 < tree.height, l + 1 == tree.height).children == ChildrenAt(n, l + 1, j / 2);
    }
  }

  lemma PlaceOk(n: nat, tree: Tree, l: nat, j: nat)
    requires Shape(n, tree) && l <= tree.height && j < Size(n, l)
    ensures IdAt(n, l, j) in tree.nodes && NodeOk(n, tree, IdAt(n, l, j))
  {
    DownPlace(n, tree, l, j);
    UpPlace(n, tree, l, j);
  }

  lemma ChildListed(n: nat, l: nat, j: nat)
    requires j < Size(n, l)
    ensures j / 2 < Size(n, l + 1) && IdAt(n, l, j) in ChildrenAt(n, l + 1, j / 2)
  {
    var cs := ChildrenAt(n, l + 1, j / 2);
    assert cs[j % 2] == IdAt(n, l, j);
  }

  /** The tree is consistent for every group of at least two. */
  lemma TreeIsOk(n: nat, tree: Tree)
    requires n > 1 && Shape(n, tree)
    ensures TreeOk(n, tree)
  {
    forall x | 0 <= x <= tree.rootId ensures x in tree.nodes && NodeOk(n, tree, x) {
      if x == tree.rootId {
        PlaceOk(n, tree, tree.height, 0);
      } else {
        var l, j := Locate(n, tree.height, x);
        PlaceOk(n, tree, l, j);
      }
    }
  }

  /** A node is listed by its parent and by no other node. */
  lemma ListedOnce(n: nat, tree: Tree, x: int, y: int)
    requires TreeOk(n, tree) && x in tree.nodes && y in tree.nodes && x != tree.rootId
    ensures x in tree.nodes[y].children <==> tree.nodes[x].parent == Some(y)
  {
    assert NodeOk(n, tree, x) && NodeOk(n, tree, y);
    if x in tree.nodes[y].children {
      var i :| 0 <= i < |tree.nodes[y].children| && tree.nodes[y].children[i] == x;
    }
  }

  /** Entry `j` of the list of a level; the root is alone on its level. */
  function Listed(tree: Tree, l: nat, j: nat): int
    requires l < tree.height ==> l in tree.levels && j < |tree.levels[l]|
  {
    if l < tree.height then tree.levels[l][j] else tree.rootId
  }

  /** The tree from its level lists: the leaves are 0 to n-1; nodes two by two,
      in order, have the nodes of the next level for parents, in order; and the
      children of a parent are its one or two nodes of the list, in order.  */
  ghost predicate PairedUp(n: nat, tree: Tree) {
    && tree.height > 0
    && (forall l: nat :: l < tree.height ==> l in tree.levels)
    && |tree.levels[0]| == n && (forall j :: 0 <= j < n ==> tree.levels[0][j] == j)
    && (forall l: nat :: l + 1 < tree.height ==> |tree.levels[l + 1]| == (|tree.levels[l]| + 1) / 2)
    && |tree.levels[tree.height - 1]| == 2
    && forall l: nat, j: nat :: l < tree.height && j < |tree.levels[l]| ==> PairOk(tree, l, j)
  }

  ghost predicate PairOk(tree: Tree, l: nat, j: nat)
    requires l < tree.height && l in tree.levels && j < |tree.levels[l]|
  {
    && (l + 1 < tree.height ==> l + 1 in tree.levels && j / 2 < |tree.levels[l + 1]|)
    && var x, y := tree.levels[l][j], Listed(tree, l + 1, j / 2);
       && x in tree.nodes && tree.nodes[x].parent == Some(y)
       && y in tree.nodes && tree.nodes[y].children == PairAt(tree.levels[l], j / 2)
  }

  /** Entries 2k and 2k+1 of a list, as far as there are any. */
  function PairAt(list: seq<int>, k: nat): seq<int>
    requires 2 * k < |list|
  {
    if 2 * k + 1 < |list| then [list[2 * k], list[2 * k + 1]] else [list[2 * k]]
  }

  lemma TreeIsPairedUp(n: nat, tree: Tree)
    requires n > 1 && Shape(n, tree)
    ensures PairedUp(n, tree)
  {
    hide Shape, Size, Start, PairOk;
    ShapeSizes(n, tree);
    Halved(n, tree);
    LeavesFirst(n);
    forall l: nat | l < tree.height ensures l in tree.levels && |tree.levels[l]| == Size(n, l) {
      LevelIs(n, tree, l);
    }
    LevelIs(n, tree, 0);
    forall l: nat, j: nat | l < tree.height && j < |tree.levels[l]| ensures PairOk(tree, l, j) {
      PairIsOk(n, tree, l, j);
    }
  }

  lemma LeavesFirst(n: nat)
    ensures Size(n, 0) == n && Start(n, 0) == 0
  {
  }

  lemma Halved(n: nat, tree: Tree)
    requires n > 1 && Shape(n, tree) && tree.height > 0
    ensures forall l: nat :: Size(n, l + 1) == (Size(n, l) + 1) / 2
    ensures Size(n, tree.height - 1) == 2
  {
    hide Shape;
    ShapeSizes(n, tree);
    var h: nat := tree.height - 1;
    SizeHalves(n, h);
    forall l: nat ensures Size(n, l + 1) == (Size(n, l) + 1) / 2 {
      SizeHalves(n, l);
    }
  }

  lemma SizeHalves(n: nat, l: nat)
    ensures Size(n, l + 1) == (Size(n, l) + 1) / 2
  {
  }

  lemma LevelIs(n: nat, tree: Tree, l: nat)
    requires Shape(n, tree) && l < tree.height
    ensures l in tree.levels && tree.levels[l] == IdRun(Start(n, l), Size(n, l))
  {
    hide Size, Start, LowerOk, Has, NodeAt, IdAt;
  }

  lemma PairIsOk(n: nat, tree: Tree, l: nat, j: nat)
    requires n > 1 && Shape(n, tree) && l < tree.height && l in tree.levels && j < |tree.levels[l]|
    ensures PairOk(tree, l, j)
  {
    hide Shape, Size, Start, ChildrenAt, PairAt;
    LevelIs(n, tree, l);
    ChildListed(n, l, j);
    NodeIs(n, tree, l, j);
    NodeIs(n, tree, l + 1, j / 2);
    RootFacts(n, tree, l + 1, j / 2);
    ChildrenArePair(n, l, j / 2, tree.levels[l]);
    if l + 1 < tree.height {
      LevelIs(n, tree, l + 1);
    }
  }

  lemma ChildrenArePair(n: nat, l: nat, k: nat, list: seq<int>)
    requires list == IdRun(Start(n, l), Size(n, l)) && k < Size(n, l + 1)
    ensures 2 * k < |list| && ChildrenAt(n, l + 1, k) == PairAt(list, k)
  {
    hide Start;
    assert Size(n, l + 1) == (Size(n, l) + 1) / 2;
  }

  /** `steps` moves to the parent, starting at `x`. */
  ghost predicate Climbs(tree: Tree, x: int, steps: nat, y: int)
    decreases steps
  {
    if steps == 0 then x == y
    else x in tree.nodes && tree.nodes[x].parent.Some? && Climbs(tree, tree.nodes[x].parent.value, steps - 1, y)
  }

  /** From a node at level `l` the root is exactly `height - l` moves away. */
  lemma {:induction false} ClimbToRoot(n: nat, tree: Tree, x: int, steps: nat)
    requires TreeOk(n, tree) && x in tree.nodes && tree.nodes[x].level <= tree.height
    ensures Climbs(tree, x, steps, tree.rootId) <==> steps == tree.height - tree.nodes[x].level
    decreases steps
  {
    hide TreeOk;
    LevelBound(n, tree, x);
    if x == tree.rootId {
      RootHasNoParent(n, tree);
    } else {
      ParentAbove(n, tree, x);
      if steps > 0 {
        var y := tree.nodes[x].parent.value;
        LevelBound(n, tree, y);
        ClimbToRoot(n, tree, y, steps - 1);
      }
    }
  }

  lemma RootHasNoParent(n: nat, tree: Tree)
    requires TreeOk(n, tree)
    ensures tree.rootId in tree.nodes && tree.nodes[tree.rootId].parent.None?
  {
    assert NodeOk(n, tree, tree.rootId);
  }

  lemma ParentAbove(n: nat, tree: Tree, x: int)
    requires TreeOk(n, tree) && x in tree.nodes && x != tree.rootId
    ensures tree.nodes[x].parent.Some?
    ensures var y := tree.nodes[x].parent.value;
      y in tree.nodes && x < y <= tree.rootId && tree.nodes[y].level == tree.nodes[x].level + 1
  {
    assert NodeOk(n, tree, x);
    var y := tree.nodes[x].parent.value;
    assert NodeOk(n, tree, y);
    var i :| 0 <= i < |tree.nodes[y].children| && tree.nodes[y].children[i] == x;
  }

  /** Only the root is at the top level. */
  lemma {:induction false} LevelBound(n: nat, tree: Tree, x: int)
    requires TreeOk(n, tree) && x in tree.nodes
    ensures tree.nodes[x].level <= tree.height
    ensures tree.nodes[x].level == tree.height <==> x == tree.rootId
    decreases tree.rootId - x
  {
    assert NodeOk(n, tree, x);
    if x == tree.rootId {
    } else {
      ParentAbove(n, tree, x);
      LevelBound(n, tree, tree.nodes[x].parent.value);
    }
  }

  /** Every leaf is exactly `height` parent moves below the root. */
  lemma LeafDepth(n: nat, tree: Tree, leaf: int, steps: nat)
    requires TreeOk(n, tree) && 0 <= leaf < n && leaf in tree.nodes
    ensures Climbs(tree, leaf, steps, tree.rootId) <==> steps == tree.height
  {
    assert NodeOk(n, tree, leaf);
    LevelBound(n, tree, leaf);
    ClimbToRoot(n, tree, leaf, steps);
  }

  // ------------------------------------------------------------ height and completion times

  /** A level's size is the group size divided by 2^level, rounded up. */
  lemma {:induction false} SizeIsCeiling(n: nat, l: nat)
    requires n > 0
    ensures n <= Size(n, l) * Pow2(l) && (Size(n, l) - 1) * Pow2(l) < n && Pow2(l) > 0
  {
    if l == 0 {
    } else {
      SizeIsCeiling(n, l - 1);
      CeilingStep(n, Size(n, l - 1), Size(n, l), Pow2(l - 1));
    }
  }

  lemma CeilingStep(n: nat, s: nat, half: nat, p: nat)
    requires n <= s * p && (s - 1) * p < n && half == (s + 1) / 2
    ensures n <= half * (2 * p) && (half - 1) * (2 * p) < n
  {
    ScaleLe(s, 2 * half, p);
    ScaleLe(2 * (half - 1), s - 1, p);
    assert half * (2 * p) == (2 * half) * p;
    assert (half - 1) * (2 * p) == (2 * (half - 1)) * p;
  }

  lemma ScaleLe(a: int, b: int, p: nat)
    requires a <= b
    ensures a * p <= b * p
  {
    assert (b - a) * p >= 0;
  }

  /** The height is the base-two logarithm of the group size, rounded up. */
  lemma HeightIsLog(n: nat, tree: Tree)
    requires n > 1 && Shape(n, tree)
    ensures tree.height > 0 && Pow2(tree.height - 1) < n <= Pow2(tree.height)
  {
    hide *;
    var h := tree.height;
    ShapeSizes(n, tree);
    SizeIsCeiling(n, h);
    SizeIsCeiling(n, h - 1);
    ScaleLe(1, Size(n, h - 1) - 1, Pow2(h - 1));
  }

  lemma ShapeSizes(n: nat, tree: Tree)
    requires n > 1 && Shape(n, tree)
    ensures Size(n, tree.height) == 1 && tree.height > 0 && Size(n, tree.height - 1) > 1
  {
    assert Size(n, 0) == n;
  }
}
