/** The reordering of flows in simulation/parser/parse_dcn_fct_rto.py (and its
    twin in parse_fct_split.py): flows are grouped by size, each group is
    sorted by slowdown and dealt round-robin into a fixed number of internal
    buckets, which are then concatenated.  Slowdowns are exact reals.  */
module FlowReorder {
  import opened Arithmetic
  import opened Sorting

  const INTERNAL_BUCKETS := 100

  // ------------------------------------------------------------ dealing one group

  /** Internal bucket `j` after all of `q` has been dealt into `k` buckets. */
  function Column<T>(q: seq<T>, k: nat, j: nat): seq<T>
    requires k > 0
  {
    if q == [] then []
    else
      var n := |q| - 1;
      Column(q[..n], k, j) + (if n % k == j then [q[n]] else [])
  }

  /** The first `c` buckets one after the other. */
  function Columns<T>(q: seq<T>, k: nat, c: nat): seq<T>
    requires k > 0
  {
    if c == 0 then [] else Columns(q, k, c - 1) + Column(q, k, c - 1)
  }

  function Deal<T>(q: seq<T>, k: nat): seq<T>
    requires k > 0
  {
    Columns(q, k, k)
  }

  /** Size of bucket `j` when `n` elements are dealt. */
  function Share(n: nat, k: nat, j: nat): nat
    requires k > 0
  {
    n / k + (if j < n % k then 1 else 0)
  }

  /** Where the element of rank `i` out of `n` ends up. */
  function Position(i: nat, n: nat, k: nat): int
    requires k > 0
  {
    (i % k) * (n / k) + Min(i % k, n % k) + i / k
  }

  function Min(a: int, b: int): int {
    if a <= b then a else b
  }

  lemma {:induction false} ColumnSize<T>(q: seq<T>, k: nat, j: nat)
    requires j < k
    ensures |Column(q, k, j)| == Share(|q|, k, j)
  {
    if q == [] {
      DivModUnique(0, k, 0, 0);
    } else {
      ColumnSize(q[..|q| - 1], k, j);
      DivModStep(|q| - 1, k);
    }
  }

  /** Rank `i` is entry `i / k` of bucket `i % k`. */
  lemma {:induction false} ColumnEntry<T>(q: seq<T>, k: nat, i: nat)
    requires k > 0 && i < |q|
    ensures i / k < |Column(q, k, i % k)| && Column(q, k, i % k)[i / k] == q[i]
  {
    var n := |q| - 1;
    if i < n {
      ColumnEntry(q[..n], k, i);
    } else {
      ColumnSize(q[..n], k, i % k);
    }
  }

  lemma {:induction false} ColumnsSize<T>(q: seq<T>, k: nat, c: nat)
    requires c <= k && k > 0
    ensures |Columns(q, k, c)| == c * (|q| / k) + Min(c, |q| % k)
  {
    hide Column;
    if c == 0 {
    } else {
      var j: nat, d := c - 1, |q| / k;
      ColumnsSize(q, k, j);
      ColumnSize(q, k, j);
      assert j * d + d == c * d;
    }
  }

  /** Bucket `j` stays where it is when later buckets are appended. */
  lemma {:induction false} ColumnsBlock<T>(q: seq<T>, k: nat, c: nat, j: nat, x: nat)
    requires j < c <= k && x < |Column(q, k, j)|
    ensures |Columns(q, k, j)| + x < |Columns(q, k, c)|
    ensures Columns(q, k, c)[|Columns(q, k, j)| + x] == Column(q, k, j)[x]
  {
    hide Column;
    if j == c - 1 {
    } else {
      ColumnsBlock(q, k, c - 1, j, x);
    }
  }

  /** The closed form of the permutation. */
  lemma DealtPosition<T>(q: seq<T>, k: nat, i: nat)
    requires k > 0 && i < |q|
    ensures |Deal(q, k)| == |q|
    ensures 0 <= Position(i, |q|, k) < |q| && Deal(q, k)[Position(i, |q|, k)] == q[i]
  {
    DealtSize(q, k);
    var j := i % k;
    ColumnEntry(q, k, i);
    ColumnsBlock(q, k, k, j, i / k);
    ColumnsSize(q, k, j);
    assert |Columns(q, k, j)| + i / k == Position(i, |q|, k);
  }

  lemma DealtSize<T>(q: seq<T>, k: nat)
    requires k > 0
    ensures |Deal(q, k)| == |q|
  {
    ColumnsSize(q, k, k);
    assert k * (|q| / k) + |q| % k == |q|;
  }

  /** Every rank in bucket `j`, in turn: the inverse of the closed form. */
  lemma RankAtPosition(n: nat, k: nat, j: nat, x: nat)
    requires j < k && x < Share(n, k, j)
    ensures x * k + j < n && Position(x * k + j, n, k) == j * (n / k) + Min(j, n % k) + x
  {
    DivModUnique(x * k + j, k, x, j);
    assert n == (n / k) * k + n % k;
    if j < n % k {
      MulMonotone(x, n / k, k);
    } else {
      MulMonotone(x + 1, n / k, k);
      assert (x + 1) * k == x * k + k;
    }
  }

  /** Different ranks land at different positions. */
  lemma PositionInjective(n: nat, k: nat, a: nat, b: nat)
    requires k > 0 && a < n && b < n && Position(a, n, k) == Position(b, n, k)
    ensures a == b
  {
    var q := seq(n, i => i);
    DealtPosition(q, k, a);
    DealtPosition(q, k, b);
  }

  /** Every position is taken. */
  lemma {:induction false} PositionSurjective(n: nat, k: nat, c: nat, p: nat) returns (i: nat)
    requires c <= k && k > 0 && p < c * (n / k) + Min(c, n % k)
    ensures i < n && Position(i, n, k) == p
  {
    hide Position;
    FirstBlockIsEmpty(n, k);
    if c == 0 {
    } else {
      var j: nat, d := c - 1, n / k;
      var start := j * d + Min(j, n % k);
      assert j * d + d == c * d;
      if p < start {
        i := PositionSurjective(n, k, j, p);
      } else {
        i := Restore(n, k, j, p - start);
      }
    }
  }

  /** The rank that lands at entry `x` of bucket `j`. */
  lemma Restore(n: nat, k: nat, j: nat, x: nat) returns (i: nat)
    requires j < k && x < Share(n, k, j)
    ensures i < n && Position(i, n, k) == j * (n / k) + Min(j, n % k) + x
  {
    hide Position;
    i := x * k + j;
    RankAtPosition(n, k, j, x);
  }

  lemma FirstBlockIsEmpty(n: nat, k: nat)
    requires k > 0
    ensures 0 * (n / k) + Min(0, n % k) == 0
  {
  }

  predicate LandsAt(i: nat, n: nat, k: nat, p: int)
    requires k > 0
  {
    i < n && Position(i, n, k) == p
  }

  ghost predicate Taken(p: int, n: nat, k: nat)
    requires k > 0
  {
    exists i: nat :: LandsAt(i, n, k, p)
  }

  /** The closed form is a bijection of the ranks onto the positions. */
  lemma PositionBijective(n: nat, k: nat)
    requires k > 0
    ensures forall i: nat, p: int :: LandsAt(i, n, k, p) ==> 0 <= p < n
    ensures forall a: nat, b: nat, p: int :: LandsAt(a, n, k, p) && LandsAt(b, n, k, p) ==> a == b
    ensures forall p: nat :: p < n ==> Taken(p, n, k)
  {
    var q := seq(n, i => i);
    forall i: nat, p: int | LandsAt(i, n, k, p) ensures 0 <= p < n {
      DealtPosition(q, k, i);
    }
    forall a: nat, b: nat, p: int | LandsAt(a, n, k, p) && LandsAt(b, n, k, p) ensures a == b {
      PositionInjective(n, k, a, b);
    }
    forall p: nat | p < n ensures Taken(p, n, k) {
      assert k * (n / k) + n % k == n;
      var i := PositionSurjective(n, k, k, p);
      assert LandsAt(i, n, k, p);
    }
  }

  /** One more element goes to one bucket. */
  lemma ColumnStep<T>(q: seq<T>, x: T, k: nat, j: nat)
    requires k > 0
    ensures Column(q + [x], k, j) == Column(q, k, j) + (if |q| % k == j then [x] else [])
  {
    assert (q + [x])[..|q|] == q;
  }

  lemma MultisetStep<T>(a: seq<T>, b: seq<T>, x: T)
    ensures multiset(a + (b + [x])) == multiset(a + b) + multiset{x}
  {
    assert a + (b + [x]) == (a + b) + [x];
  }

  lemma {:induction false} ColumnsMultiset<T>(q: seq<T>, x: T, k: nat, c: nat)
    requires k > 0
    ensures multiset(Columns(q + [x], k, c))
         == multiset(Columns(q, k, c)) + (if |q| % k < c then multiset{x} else multiset{})
  {
    hide Column;
    if c == 0 {
    } else {
      var j: nat := c - 1;
      ColumnsMultiset(q, x, k, j);
      ColumnStep(q, x, k, j);
      var a, b := Columns(q, k, j), Column(q, k, j);
      var l := Columns(q + [x], k, j);
      if |q| % k == j {
        MultisetStep(l, b, x);
      }
      assert multiset(l + b) == multiset(l) + multiset(b) && multiset(a + b) == multiset(a) + multiset(b);
    }
  }

  /** Dealing neither loses nor invents an element. */
  lemma {:induction false} DealPermutes<T>(q: seq<T>, k: nat)
    requires k > 0
    ensures multiset(Deal(q, k)) == multiset(q)
  {
    hide Columns;
    if q == [] {
      NothingToDeal<T>(k, k);
    } else {
      var p, x := q[..|q| - 1], q[|q| - 1];
      DealPermutes(p, k);
      assert q == p + [x];
      ColumnsMultiset(p, x, k, k);
      Remainder(|p|, k);
    }
  }

  lemma Remainder(n: nat, k: nat)
    requires k > 0
    ensures n % k < k
  {
  }

  lemma {:induction false} NothingToDeal<T>(k: nat, c: nat)
    requires k > 0
    ensures Columns<T>([], k, c) == []
  {
    if c == 0 {
    } else {
      NothingToDeal<T>(k, c - 1);
    }
  }

  // ------------------------------------------------------------ balance

  /** In a sorted group the elements below `x` are its first `Below(q, x)`. */
  lemma {:induction false} BelowPrefix(q: seq<real>, x: real)
    requires Ascending(q)
    ensures Below(q, x) <= |q|
    ensures forall i :: 0 <= i < |q| ==> (q[i] < x <==> i < Below(q, x))
  {
    if q == [] {
    } else {
      BelowPrefix(q[..|q| - 1], x);
    }
  }

  /** The elements below `x` are spread over the buckets as evenly as if they
      had been dealt alone.  */
  lemma {:induction false} ColumnBelow(q: seq<real>, x: real, k: nat, j: nat)
    requires Ascending(q) && j < k
    ensures Below(Column(q, k, j), x) == Share(Below(q, x), k, j)
    decreases |q|, 1
  {
    if q == [] {
      DivModUnique(0, k, 0, 0);
    } else {
      ColumnBelowStep(q, x, k, j);
    }
  }

  lemma {:induction false} ColumnBelowStep(q: seq<real>, x: real, k: nat, j: nat)
    requires Ascending(q) && j < k && q != []
    ensures Below(Column(q, k, j), x) == Share(Below(q, x), k, j)
    decreases |q|, 0
  {
    hide Column, Below, Ascending, Share;
    var n := |q| - 1;
    var p := q[..n];
    AscendingPrefix(q);
    ColumnBelow(p, x, k, j);
    assert q == p + [q[n]];
    ColumnStep(p, q[n], k, j);
    BelowStep(Column(p, k, j), q[n], x);
    BelowStep(p, q[n], x);
    if q[n] < x {
      AllBelow(q, x);
      ShareStep(n, k, j);
    }
  }

  /** The next element dealt goes to bucket n % k. */
  lemma ShareStep(n: nat, k: nat, j: nat)
    requires j < k
    ensures Share(n + 1, k, j) == Share(n, k, j) + if n % k == j then 1 else 0
  {
    DivModStep(n, k);
  }

  lemma AscendingPrefix(q: seq<real>)
    requires Ascending(q) && q != []
    ensures Ascending(q[..|q| - 1])
  {
  }

  lemma BelowStep(q: seq<real>, y: real, x: real)
    ensures Below(q + [y], x) == Below(q, x) + if y < x then 1 else 0
    ensures q + [] == q
  {
    assert (q + [y])[..|q|] == q;
  }

  /** If the greatest element is below `x`, all are. */
  lemma AllBelow(q: seq<real>, x: real)
    requires Ascending(q) && q != [] && q[|q| - 1] < x
    ensures Below(q, x) == |q| && Below(q[..|q| - 1], x) == |q| - 1
  {
    BelowPrefix(q, x);
    assert |q| - 1 < Below(q, x);
  }

  /** For every threshold, any two buckets hold the same number of elements
      below it, give or take one.  */
  lemma BucketsBalanced(q: seq<real>, x: real, k: nat, i: nat, j: nat)
    requires Ascending(q) && i < k && j < k
    ensures -1 <= Below(Column(q, k, i), x) - Below(Column(q, k, j), x) <= 1
  {
    ColumnBelow(q, x, k, i);
    ColumnBelow(q, x, k, j);
  }

  // ------------------------------------------------------------ all sizes

  datatype Flow = Flow(slowdown: real, size: int)

  /** The slowdowns of the flows of one size, in input order. */
  function GroupOf(flows: seq<Flow>, size: int): seq<real> {
    if flows == [] then []
    else
      var f := flows[|flows| - 1];
      GroupOf(flows[..|flows| - 1], size) + (if f.size == size then [f.slowdown] else [])
  }

  function SizesOf(flows: seq<Flow>): set<int> {
    set i | 0 <= i < |flows| :: flows[i].size
  }

  function Label(slowdowns: seq<real>, size: int): (r: seq<Flow>)
    ensures |r| == |slowdowns|
    ensures forall i :: 0 <= i < |r| ==> r[i] == Flow(slowdowns[i], size)
  {
    seq(|slowdowns|, i requires 0 <= i < |slowdowns| => Flow(slowdowns[i], size))
  }

  function Block(flows: seq<Flow>, size: int): seq<Flow> {
    Label(Deal(Sort(GroupOf(flows, size)), INTERNAL_BUCKETS), size)
  }

  function Blocks(flows: seq<Flow>, sizes: seq<int>): seq<Flow> {
    if sizes == [] then []
    else Blocks(flows, sizes[..|sizes| - 1]) + Block(flows, sizes[|sizes| - 1])
  }

  function Reordered(flows: seq<Flow>): seq<Flow> {
    Blocks(flows, SortedKeys(SizesOf(flows)))
  }

  // how often a flow occurs
  function Occurrences(flows: seq<Flow>, f: Flow): nat {
    if flows == [] then 0
    else Occurrences(flows[..|flows| - 1], f) + (if flows[|flows| - 1] == f then 1 else 0)
  }

  lemma {:induction false} OccurrencesAppend(a: seq<Flow>, b: seq<Flow>, f: Flow)
    ensures Occurrences(a + b, f) == Occurrences(a, f) + Occurrences(b, f)
  {
    if b == [] {
      assert a + b == a;
    } else {
      OccurrencesAppend(a, b[..|b| - 1], f);
      assert (a + b)[..|a + b| - 1] == a + b[..|b| - 1];
    }
  }

  lemma {:induction false} OccurrencesInGroup(flows: seq<Flow>, f: Flow)
    ensures Occurrences(flows, f) == multiset(GroupOf(flows, f.size))[f.slowdown]
  {
    if flows == [] {
    } else {
      OccurrencesInGroup(flows[..|flows| - 1], f);
    }
  }

  lemma {:induction false} OccurrencesInLabel(q: seq<real>, size: int, f: Flow)
    ensures Occurrences(Label(q, size), f) == if f.size == size then multiset(q)[f.slowdown] else 0
  {
    if q == [] {
    } else {
      var n := |q| - 1;
      OccurrencesInLabel(q[..n], size, f);
      assert Label(q, size)[..n] == Label(q[..n], size);
      assert q == q[..n] + [q[n]];
    }
  }

  lemma OccurrencesInBlock(flows: seq<Flow>, size: int, f: Flow)
    ensures Occurrences(Block(flows, size), f) == if f.size == size then Occurrences(flows, f) else 0
  {
    var g := GroupOf(flows, size);
    SortSorts(g);
    DealPermutes(Sort(g), INTERNAL_BUCKETS);
    OccurrencesInLabel(Deal(Sort(g), INTERNAL_BUCKETS), size, f);
    OccurrencesInGroup(flows, f);
  }

  lemma {:induction false} OccurrencesInBlocks(flows: seq<Flow>, sizes: seq<int>, f: Flow)
    requires forall i, j :: 0 <= i < j < |sizes| ==> sizes[i] < sizes[j]
    ensures Occurrences(Blocks(flows, sizes), f) == if f.size in sizes then Occurrences(flows, f) else 0
  {
    if sizes == [] {
    } else {
      var n := |sizes| - 1;
      OccurrencesInBlocks(flows, sizes[..n], f);
      OccurrencesInBlock(flows, sizes[n], f);
      OccurrencesAppend(Blocks(flows, sizes[..n]), Block(flows, sizes[n]), f);
      assert f.size in sizes <==> f.size in sizes[..n] || f.size == sizes[n];
    }
  }

  lemma {:induction false} NoOccurrence(flows: seq<Flow>, f: Flow)
    requires f.size !in SizesOf(flows)
    ensures Occurrences(flows, f) == 0
  {
    if flows == [] {
    } else {
      var n := |flows| - 1;
      assert flows[n].size in SizesOf(flows);
      forall i | 0 <= i < n ensures flows[i].size in SizesOf(flows) {
      }
      NoOccurrence(flows[..n], f);
    }
  }

  /** The reordered list has every flow exactly as often as the input. */
  lemma ReorderPermutes(flows: seq<Flow>, f: Flow)
    ensures Occurrences(Reordered(flows), f) == Occurrences(flows, f)
  {
    OccurrencesInBlocks(flows, SortedKeys(SizesOf(flows)), f);
    if f.size !in SizesOf(flows) {
      NoOccurrence(flows, f);
    }
  }

  lemma {:induction false} OccurrencesCount(flows: seq<Flow>, f: Flow)
    ensures Occurrences(flows, f) == multiset(flows)[f]
  {
    if flows == [] {
    } else {
      var n := |flows| - 1;
      OccurrencesCount(flows[..n], f);
      assert flows == flows[..n] + [flows[n]];
    }
  }

  /** So it has the same flows, and as many. */
  lemma ReorderKeepsAll(flows: seq<Flow>)
    ensures multiset(Reordered(flows)) == multiset(flows) && |Reordered(flows)| == |flows|
  {
    hide Reordered, Occurrences;
    var r := Reordered(flows);
    forall f: Flow ensures multiset(r)[f] == multiset(flows)[f] {
      ReorderPermutes(flows, f);
      OccurrencesCount(r, f);
      OccurrencesCount(flows, f);
    }
    assert multiset(r) == multiset(flows);
    assert |multiset(r)| == |r| && |multiset(flows)| == |flows|;
  }

  predicate SizesAscend(r: seq<Flow>) {
    forall i, j :: 0 <= i < j < |r| ==> r[i].size <= r[j].size
  }

  lemma BlockSize(flows: seq<Flow>, size: int)
    ensures forall i :: 0 <= i < |Block(flows, size)| ==> Block(flows, size)[i].size == size
  {
    hide Deal, Sort, GroupOf;
  }

  lemma {:induction false} BlocksAscend(flows: seq<Flow>, sizes: seq<int>)
    requires forall i, j :: 0 <= i < j < |sizes| ==> sizes[i] < sizes[j]
    ensures SizesAscend(Blocks(flows, sizes))
    ensures forall f :: f in Blocks(flows, sizes) ==> f.size in sizes
  {
    hide Block;
    if sizes == [] {
    } else {
      var n := |sizes| - 1;
      BlocksAscend(flows, sizes[..n]);
      BlockSize(flows, sizes[n]);
      var a, b := Blocks(flows, sizes[..n]), Block(flows, sizes[n]);
      forall i | 0 <= i < |a| ensures a[i].size in sizes[..n] && a[i].size < sizes[n] {
        assert a[i] in a;
      }
      assert sizes[n] in sizes;
    }
  }

  /** Sizes never decrease along the reordered list. */
  lemma ReorderAscends(flows: seq<Flow>)
    ensures SizesAscend(Reordered(flows))
  {
    BlocksAscend(flows, SortedKeys(SizesOf(flows)));
  }

  /** Within one size, the flow of rank `i` by slowdown is dealt to the bucket
      `i` mod 100, behind the buckets before that one.  */
  lemma RankInBlock(flows: seq<Flow>, size: int, i: nat)
    requires i < |GroupOf(flows, size)|
    ensures |Sort(GroupOf(flows, size))| == |Block(flows, size)| == |GroupOf(flows, size)|
    ensures var n := |Block(flows, size)|;
      var p := (i % 100) * (n / 100) + (if i % 100 <= n % 100 then i % 100 else n % 100) + i / 100;
      0 <= p < n && Block(flows, size)[p] == Flow(Sort(GroupOf(flows, size))[i], size)
  {
    hide Deal, Sort, GroupOf;
    var g := GroupOf(flows, size);
    SortSorts(g);
    DealtPosition(Sort(g), INTERNAL_BUCKETS, i);
  }

  /** The block of a size is a stretch of the reordered list. */
  lemma BlockIsStretch(flows: seq<Flow>, size: int) returns (before: seq<Flow>, after: seq<Flow>)
    requires size in SizesOf(flows)
    ensures Reordered(flows) == before + Block(flows, size) + after
    ensures forall f :: f in before ==> f.size < size
    ensures forall f :: f in after ==> f.size > size
  {
    var sizes := SortedKeys(SizesOf(flows));
    var k :| 0 <= k < |sizes| && sizes[k] == size;
    before, after := BlocksAround(flows, sizes, k);
  }

  lemma {:induction false} BlocksAround(flows: seq<Flow>, sizes: seq<int>, k: nat)
    returns (before: seq<Flow>, after: seq<Flow>)
    requires k < |sizes| && forall i, j :: 0 <= i < j < |sizes| ==> sizes[i] < sizes[j]
    ensures Blocks(flows, sizes) == before + Block(flows, sizes[k]) + after
    ensures forall f :: f in before ==> f.size < sizes[k]
    ensures forall f :: f in after ==> f.size > sizes[k]
  {
    hide Block;
    var n := |sizes| - 1;
    BlocksAscend(flows, sizes[..n]);
    BlockSize(flows, sizes[n]);
    if k == n {
      before, after := Blocks(flows, sizes[..n]), [];
      assert before + Block(flows, sizes[k]) + after == before + Block(flows, sizes[k]);
    } else {
      var rest;
      before, rest := BlocksAround(flows, sizes[..n], k);
      after := rest + Block(flows, sizes[n]);
      assert before + Block(flows, sizes[k]) + rest + Block(flows, sizes[n])
          == before + Block(flows, sizes[k]) + (rest + Block(flows, sizes[n]));
    }
  }

  // ------------------------------------------------------------ the loops

  lemma EmptyColumns(k: nat)
    requires k > 0
    ensures forall j: nat :: j < k ==> Column<real>([], k, j) == []
  {
  }

  /** Deals a list into buckets and strings the buckets together, as the
      scripts do.  */
  method DealIntoBuckets(q: seq<real>, k: nat) returns (r: seq<real>)
    requires k > 0
    ensures r == Deal(q, k)
  {
    hide Column;
    var buckets := new seq<real>[k](_ => []);
    EmptyColumns(k);
    for i := 0 to |q|
      invariant forall j :: 0 <= j < k ==> buckets[j] == Column(q[..i], k, j)
    {
      forall j | 0 <= j < k
        ensures Column(q[..i + 1], k, j) == Column(q[..i], k, j) + (if i % k == j then [q[i]] else [])
      {
        assert q[..i + 1] == q[..i] + [q[i]];
        ColumnStep(q[..i], q[i], k, j);
      }
      var j := i % k;
      buckets[j] := buckets[j] + [q[i]];
    }
    assert q[..|q|] == q;
    r := [];
    for j := 0 to k
      invariant forall j :: 0 <= j < k ==> buckets[j] == Column(q, k, j)
      invariant r == Columns(q, k, j)
    {
      r := r + buckets[j];
    }
  }

  /** Groups the flows by size, in input order. */
  method GroupBySize(flows: seq<Flow>) returns (groups: map<int, seq<real>>)
    ensures forall size :: size in groups <==> size in SizesOf(flows)
    ensures forall size :: size in groups ==> groups[size] == GroupOf(flows, size)
  {
    groups := map[];
    for i := 0 to |flows|
      invariant forall size :: size in groups <==> size in SizesOf(flows[..i])
      invariant forall size :: size in groups ==> groups[size] == GroupOf(flows[..i], size)
    {
      var f := flows[i];
      assert flows[..i + 1][..i] == flows[..i];
      SizesStep(flows, i);
      if f.size !in groups {
        NewSize(flows[..i], f.size);
      }
      groups := groups[f.size := (if f.size in groups then groups[f.size] else []) + [f.slowdown]];
    }
    assert flows[..|flows|] == flows;
  }

  lemma SizesStep(flows: seq<Flow>, i: nat)
    requires i < |flows|
    ensures SizesOf(flows[..i + 1]) == SizesOf(flows[..i]) + {flows[i].size}
  {
    var a, b := flows[..i + 1], flows[..i];
    forall x | x in SizesOf(b) ensures x in SizesOf(a) {
      var j :| 0 <= j < |b| && b[j].size == x;
      assert a[j].size == x;
    }
    assert a[i].size in SizesOf(a);
  }

  lemma {:induction false} NewSize(flows: seq<Flow>, size: int)
    requires size !in SizesOf(flows)
    ensures GroupOf(flows, size) == []
  {
    if flows == [] {
    } else {
      var n := |flows| - 1;
      assert flows[n].size in SizesOf(flows);
      SizesStep(flows, n);
      assert flows[..n + 1] == flows;
      NewSize(flows[..n], size);
    }
  }

  lemma NoBlocks(flows: seq<Flow>)
    ensures Blocks(flows, []) == []
  {
  }

  lemma BlocksStep(flows: seq<Flow>, sizes: seq<int>, s: nat)
    requires s < |sizes|
    ensures Blocks(flows, sizes[..s + 1]) == Blocks(flows, sizes[..s]) + Block(flows, sizes[s])
  {
    assert sizes[..s + 1][..s] == sizes[..s];
  }

  /** One size: its group sorted, dealt and labelled. */
  method ReorderGroup(flows: seq<Flow>, group: seq<real>, size: int) returns (r: seq<Flow>)
    requires group == GroupOf(flows, size)
    ensures r == Block(flows, size)
  {
    hide Deal, Sort, GroupOf, Label;
    var dealt := DealIntoBuckets(Sort(group), INTERNAL_BUCKETS);
    r := Label(dealt, size);
  }

  lemma SameKeys(groups: map<int, seq<real>>, sizes: set<int>)
    requires forall size :: size in groups <==> size in sizes
    ensures groups.Keys == sizes
  {
    forall size: int ensures size in groups.Keys <==> size in sizes {
      assert size in groups <==> size in groups.Keys;
    }
  }

  /** The whole reordering loop. */
  method Reorder(flows: seq<Flow>) returns (r: seq<Flow>)
    ensures r == Reordered(flows)
  {
    hide GroupOf, SizesOf, Block, SortedKeys, Blocks;
    NoBlocks(flows);
    var groups := GroupBySize(flows);
    SameKeys(groups, SizesOf(flows));
    var sizes := SortedKeys(groups.Keys);
    r := [];
    for s := 0 to |sizes|
      invariant r == Blocks(flows, sizes[..s])
    {
      var size := sizes[s];
      assert size in sizes;
      var block := ReorderGroup(flows, groups[size], size);
      r := r + block;
      BlocksStep(flows, sizes, s);
    }
    assert sizes[..|sizes|] == sizes;
  }
}
