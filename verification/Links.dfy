/** Topology files as link lists, and the interface numbering derived from
    them: the interfaces of a node are numbered 1, 2, ... in the order in which
    its links are emitted.  */
module Links {
  import opened Arithmetic

  datatype Link = Link(src: int, dst: int)

  /** The other ends of a node's links, in emission order. */
  function Neighbours(links: seq<Link>, node: int): seq<int> {
    if links == [] then []
    else
      var l := links[|links| - 1];
      Neighbours(links[..|links| - 1], node)
      + (if l.src == node then [l.dst] else if l.dst == node then [l.src] else [])
  }

  /** Interface `i` of `node` exists. */
  predicate HasPort(links: seq<Link>, node: int, i: int) {
    1 <= i <= |Neighbours(links, node)|
  }

  /** The node at the other end of interface `i`. */
  function OtherEnd(links: seq<Link>, node: int, i: int): int
    requires HasPort(links, node, i)
  {
    Neighbours(links, node)[i - 1]
  }

  lemma {:induction false} NeighboursAppend(a: seq<Link>, b: seq<Link>, node: int)
    ensures Neighbours(a + b, node) == Neighbours(a, node) + Neighbours(b, node)
  {
    if b == [] {
      assert a + b == a;
      assert Neighbours(a, node) + [] == Neighbours(a, node);
    } else {
      NeighboursAppend(a, b[..|b| - 1], node);
      assert (a + b)[..|a + b| - 1] == a + b[..|b| - 1];
    }
  }

  lemma NoLinks(node: int)
    ensures Neighbours([], node) == []
  {
  }

  /** One more link at the end. */
  lemma NeighboursLast(links: seq<Link>, l: Link, node: int)
    ensures Neighbours(links + [l], node)
      == Neighbours(links, node) + (if l.src == node then [l.dst] else if l.dst == node then [l.src] else [])
  {
    assert (links + [l])[..|links|] == links;
  }

  // ------------------------------------------------------------ arithmetic progressions

  function Run(base: int, n: nat): (r: seq<int>)
    ensures |r| == n
    ensures forall i :: 0 <= i < n ==> r[i] == base + i
  {
    seq(n, i => base + i)
  }

  function Strided(base: int, step: int, n: nat): (r: seq<int>)
    ensures |r| == n
    ensures forall i :: 0 <= i < n ==> r[i] == base + i * step
  {
    seq(n, i => base + i * step)
  }

  // ------------------------------------------------------------ the loop bodies

  /** Node `x` to `base`, `base + 1`, ... */
  function FanOut(x: int, base: int, n: nat): seq<Link> {
    if n == 0 then [] else FanOut(x, base, n - 1) + [Link(x, base + n - 1)]
  }

  /** `base`, `base + 1`, ... to node `x`. */
  function FanIn(base: int, x: int, n: nat): seq<Link> {
    if n == 0 then [] else FanIn(base, x, n - 1) + [Link(base + n - 1, x)]
  }

  lemma RunStep(base: int, n: nat)
    ensures Run(base, n) + [base + n] == Run(base, n + 1) && Run(base, 0) == []
  {
  }

  lemma {:induction false} NeighboursFanOut(x: int, base: int, n: nat, y: int)
    requires x < base
    ensures Neighbours(FanOut(x, base, n), y)
         == if y == x then Run(base, n) else if base <= y < base + n then [x] else []
  {
    hide Neighbours, Run;
    if n == 0 {
      NoLinks(y);
      RunStep(base, 0);
    } else {
      var k: nat := n - 1;
      NeighboursFanOut(x, base, k, y);
      NeighboursLast(FanOut(x, base, k), Link(x, base + k), y);
      RunStep(base, k);
    }
  }

  lemma {:induction false} NeighboursFanIn(base: int, x: int, n: nat, y: int)
    requires base + n <= x
    ensures Neighbours(FanIn(base, x, n), y)
         == if y == x then Run(base, n) else if base <= y < base + n then [x] else []
  {
    hide Neighbours, Run;
    if n == 0 {
      NoLinks(y);
      RunStep(base, 0);
    } else {
      var k: nat := n - 1;
      NeighboursFanIn(base, x, k, y);
      NeighboursLast(FanIn(base, x, k), Link(base + k, x), y);
      RunStep(base, k);
    }
  }

  /** `m` groups of `w` servers, group `p` attached to switch `first + p`. */
  function Attachments(first: int, m: nat, w: nat): seq<Link> {
    if m == 0 then [] else Attachments(first, m - 1, w) + FanIn((m - 1) * w, first + (m - 1), w)
  }

  lemma AttachmentsUnfold(first: int, m: nat, w: nat, y: int)
    ensures m == 0 ==> Neighbours(Attachments(first, m, w), y) == []
    ensures m > 0 ==>
      Attachments(first, m, w) == Attachments(first, m - 1, w) + FanIn((m - 1) * w, first + (m - 1), w)
  {
  }

  lemma {:induction false} NeighboursAttachments(first: int, m: nat, w: nat, y: int)
    requires m * w <= first
    ensures first <= y < first + m ==> Neighbours(Attachments(first, m, w), y) == Run((y - first) * w, w)
    ensures 0 <= y < m * w ==> Neighbours(Attachments(first, m, w), y) == [first + Quot(y, w)]
    ensures !(first <= y < first + m) && !(0 <= y < m * w) ==> Neighbours(Attachments(first, m, w), y) == []
  {
    hide Neighbours, Attachments, FanIn;
    AttachmentsUnfold(first, m, w, y);
    if m == 0 {
    } else {
      var k: nat := m - 1;
      var done := k * w;
      assert done + w == m * w && done >= 0;
      NeighboursAttachments(first, k, w, y);
      NeighboursAppend(Attachments(first, k, w), FanIn(done, first + k, w), y);
      NeighboursFanIn(done, first + k, w, y);
      if done <= y < done + w {
        DivModUnique(y, w, k, y - done);
      }
    }
  }

  function Quot(a: int, b: int): int {
    if b == 0 then 0 else a / b
  }

  /** `m` nodes from `x` on, node `x + j` fanning out from `base + j * stride`. */
  function Fans(x: int, base: int, stride: nat, m: nat, n: nat): seq<Link> {
    if m == 0 then []
    else Fans(x, base, stride, m - 1, n) + FanOut(x + (m - 1), base + (m - 1) * stride, n)
  }

  lemma FansUnfold(x: int, base: int, stride: nat, m: nat, n: nat, y: int)
    ensures m == 0 ==> Fans(x, base, stride, m, n) == [] && Neighbours(Fans(x, base, stride, m, n), y) == []
    ensures m > 0 ==>
      Fans(x, base, stride, m, n)
      == Fans(x, base, stride, m - 1, n) + FanOut(x + (m - 1), base + (m - 1) * stride, n)
  {
  }

  /** All nodes fan out to the same range. */
  lemma {:induction false} NeighboursMesh(x: int, base: int, m: nat, n: nat, y: int)
    requires x + m <= base
    ensures x <= y < x + m ==> Neighbours(Fans(x, base, 0, m, n), y) == Run(base, n)
    ensures base <= y < base + n ==> Neighbours(Fans(x, base, 0, m, n), y) == Run(x, m)
    ensures !(x <= y < x + m) && !(base <= y < base + n) ==> Neighbours(Fans(x, base, 0, m, n), y) == []
  {
    hide *;
    FansUnfold(x, base, 0, m, n, y);
    if m == 0 {
    } else {
      var k: nat := m - 1;
      NeighboursMesh(x, base, k, n, y);
      NeighboursAppend(Fans(x, base, 0, k, n), FanOut(x + k, base, n), y);
      NeighboursFanOut(x + k, base, n, y);
    }
  }

  /** The ranges follow one another. */
  lemma {:induction false} NeighboursSplit(x: int, base: int, m: nat, n: nat, y: int)
    requires x + m <= base && n > 0
    ensures x <= y < x + m ==> Neighbours(Fans(x, base, n, m, n), y) == Run(base + (y - x) * n, n)
    ensures base <= y < base + m * n ==> Neighbours(Fans(x, base, n, m, n), y) == [x + (y - base) / n]
    ensures !(x <= y < x + m) && !(base <= y < base + m * n) ==> Neighbours(Fans(x, base, n, m, n), y) == []
  {
    hide *;
    FansUnfold(x, base, n, m, n, y);
    if m == 0 {
    } else {
      var k: nat := m - 1;
      var done := k * n;
      assert done + n == m * n && done >= 0;
      NeighboursSplit(x, base, k, n, y);
      NeighboursAppend(Fans(x, base, n, k, n), FanOut(x + k, base + done, n), y);
      NeighboursFanOut(x + k, base + done, n, y);
      if base + done <= y < base + done + n {
        DivModUnique(y - base, n, k, y - base - done);
      }
    }
  }

  lemma {:induction false} AttachmentsSize(first: int, m: nat, w: nat)
    ensures |Attachments(first, m, w)| == m * w
  {
    if m == 0 {
    } else {
      AttachmentsSize(first, m - 1, w);
      FanInSize((m - 1) * w, first + (m - 1), w);
      assert (m - 1) * w + w == m * w;
    }
  }

  lemma {:induction false} FanInSize(base: int, x: int, n: nat)
    ensures |FanIn(base, x, n)| == n
  {
    if n == 0 {
    } else {
      FanInSize(base, x, n - 1);
    }
  }

  lemma {:induction false} FanOutSize(x: int, base: int, n: nat)
    ensures |FanOut(x, base, n)| == n
  {
    if n == 0 {
    } else {
      FanOutSize(x, base, n - 1);
    }
  }

  lemma {:induction false} FansSize(x: int, base: int, stride: nat, m: nat, n: nat)
    ensures |Fans(x, base, stride, m, n)| == m * n
  {
    if m == 0 {
    } else {
      FansSize(x, base, stride, m - 1, n);
      FanOutSize(x + (m - 1), base + (m - 1) * stride, n);
      assert (m - 1) * n + n == m * n;
    }
  }

  // ------------------------------------------------------------ no parallel links

  predicate NoRepeats(s: seq<int>) {
    forall i, j :: 0 <= i < j < |s| ==> s[i] != s[j]
  }

  predicate SamePair(a: Link, b: Link) {
    (a.src == b.src && a.dst == b.dst) || (a.src == b.dst && a.dst == b.src)
  }

  lemma {:induction false} SeesNeighbour(links: seq<Link>, i: nat, node: int)
    requires i < |links|
    ensures links[i].src == node ==> links[i].dst in Neighbours(links, node)
    ensures links[i].dst == node && links[i].src != node ==> links[i].src in Neighbours(links, node)
  {
    if i == |links| - 1 {
    } else {
      SeesNeighbour(links[..|links| - 1], i, node);
    }
  }

  /** A pair of nodes that is linked twice sees each other twice. */
  lemma {:induction false} ParallelLinksSeen(links: seq<Link>, i: nat, j: nat)
    requires i < j < |links| && SamePair(links[i], links[j])
    ensures !NoRepeats(Neighbours(links, links[j].src))
  {
    var n := |links| - 1;
    var node := links[j].src;
    var part, all := Neighbours(links[..n], node), Neighbours(links, node);
    if j < n {
      ParallelLinksSeen(links[..n], i, j);
      var p, q :| 0 <= p < q < |part| && part[p] == part[q];
      assert all[p] == part[p] && all[q] == part[q];
    } else {
      SeesNeighbour(links[..n], i, node);
      var p :| 0 <= p < |part| && part[p] == links[j].dst;
      assert all[p] == part[p] && all[|part|] == links[j].dst;
    }
  }

  /** If no node sees a neighbour twice, no pair of nodes is linked twice. */
  lemma NoParallelLinks(links: seq<Link>)
    requires forall node :: NoRepeats(Neighbours(links, node))
    ensures forall i, j :: 0 <= i < j < |links| ==> !SamePair(links[i], links[j])
  {
    forall i, j | 0 <= i < j < |links| ensures !SamePair(links[i], links[j]) {
      if SamePair(links[i], links[j]) {
        ParallelLinksSeen(links, i, j);
      }
    }
  }

  // ------------------------------------------------------------ the order of the lines

  predicate Before(a: Link, b: Link) {
    a.src < b.src || (a.src == b.src && a.dst < b.dst)
  }

  /** The links of the nodes from `lo` up to `hi`, each to a larger node, ordered
      by their first and then by their second end.  */
  ghost predicate Ordered(links: seq<Link>, lo: int, hi: int) {
    && (forall i :: 0 <= i < |links| ==> lo <= links[i].src < hi && links[i].src < links[i].dst)
    && forall i, j :: 0 <= i < j < |links| ==> Before(links[i], links[j])
  }

  lemma OrderedJoin(a: seq<Link>, b: seq<Link>, lo: int, mid: int, hi: int)
    requires lo <= mid <= hi && Ordered(a, lo, mid) && Ordered(b, mid, hi)
    ensures Ordered(a + b, lo, hi)
  {
  }

  lemma {:induction false} FanOutOrdered(x: int, base: int, n: nat)
    requires x < base
    ensures Ordered(FanOut(x, base, n), x, x + 1)
    ensures forall i :: 0 <= i < |FanOut(x, base, n)| ==> FanOut(x, base, n)[i].dst < base + n
  {
    if n == 0 {
    } else {
      FanOutOrdered(x, base, n - 1);
    }
  }

  lemma LastOrdered(links: seq<Link>, lo: int, src: int, dst: int)
    requires Ordered(links, lo, src) && lo <= src < dst
    ensures Ordered(links + [Link(src, dst)], lo, src + 1)
  {
  }

  lemma {:induction false} FanInOrdered(base: int, x: int, n: nat)
    requires base + n <= x
    ensures Ordered(FanIn(base, x, n), base, base + n)
  {
    hide Ordered;
    if n == 0 {
      NothingOrdered(base, base);
    } else {
      FanInOrdered(base, x, n - 1);
      LastOrdered(FanIn(base, x, n - 1), base, base + n - 1, x);
    }
  }

  lemma {:induction false} AttachmentsOrdered(first: int, m: nat, w: nat)
    requires m * w <= first
    ensures Ordered(Attachments(first, m, w), 0, m * w)
  {
    hide FanIn, Ordered;
    AttachmentsUnfold(first, m, w, 0);
    if m == 0 {
      NothingOrdered(0, 0);
      assert m * w == 0;
    } else {
      var k: nat := m - 1;
      assert k * w + w == m * w && k * w >= 0;
      AttachmentsOrdered(first, k, w);
      FanInOrdered(k * w, first + k, w);
      OrderedJoin(Attachments(first, k, w), FanIn(k * w, first + k, w), 0, k * w, m * w);
    }
  }

  lemma NothingOrdered(lo: int, hi: int)
    ensures Ordered([], lo, hi)
  {
  }

  lemma {:induction false} FansOrdered(x: int, base: int, stride: nat, m: nat, n: nat)
    requires x + m <= base
    ensures Ordered(Fans(x, base, stride, m, n), x, x + m)
  {
    hide FanOut, Ordered;
    FansUnfold(x, base, stride, m, n, 0);
    if m == 0 {
      NothingOrdered(x, x);
    } else {
      var k: nat := m - 1;
      assert k * stride >= 0;
      FansOrdered(x, base, stride, k, n);
      FanOutOrdered(x + k, base + k * stride, n);
      OrderedJoin(Fans(x, base, stride, k, n), FanOut(x + k, base + k * stride, n), x, x + k, x + m);
    }
  }
}
