/** The percentile rows of simulation/parser/parse_dcn_fct_rto.py: the reordered
    flows are cut into contiguous buckets, and each bucket is summarised by
    its size, mean, percentiles and tail.  */
module FctPercentiles {
  import opened Arithmetic
  import opened RealArithmetic
  import opened Sorting
  import opened FlowReorder
  import opened RealSums

  // ------------------------------------------------------------ cut points

  /** `int(i * (100 / buckets) * n / 100)` in exact arithmetic. */
  function Cut(i: nat, buckets: nat, n: nat): int
    requires buckets > 0
  {
    ((i as real) * (100.0 / (buckets as real)) * (n as real) / 100.0).Floor
  }

  function ChunkStart(i: nat, buckets: nat, n: nat): int
    requires i < buckets
  {
    Cut(i, buckets, n)
  }

  function ChunkEnd(i: nat, buckets: nat, n: nat): int
    requires i < buckets
  {
    if i == buckets - 1 then n else Cut(i + 1, buckets, n)
  }

  /** The percentages cancel: the cut is a rounded-down proportion. */
  lemma CutIsProportion(i: nat, buckets: nat, n: nat)
    requires buckets > 0
    ensures Cut(i, buckets, n) == (i * n) / buckets
  {
    var b := buckets as real;
    var x := (i as real) * (100.0 / b) * (n as real) / 100.0;
    var q := (i * n) / buckets;
    assert x * b == (i * n) as real by {
      assert (100.0 / b) * b == 100.0;
      assert x * 100.0 == (i as real) * (100.0 / b) * (n as real);
      ProductOfRatios(i as real, 100.0 / b, n as real, b);
    }
    assert i * n == q * buckets + (i * n) % buckets;
    Bracket(x, b, q, (i * n) % buckets, buckets);
  }

  lemma ProductOfRatios(i: real, c: real, n: real, b: real)
    requires c * b == 100.0
    ensures (i * c * n) * b == (i * n) * 100.0
  {
    assert (i * c * n) * b == (i * n) * (c * b);
  }

  lemma Bracket(x: real, b: real, q: int, r: int, buckets: int)
    requires buckets > 0 && b == buckets as real && 0 <= r < buckets
    requires x * b == (q * buckets + r) as real
    ensures x.Floor == q
  {
    var d := x - q as real;
    assert d * b == r as real;
    RealTimesPositive(d, b);
  }

  lemma RealTimesPositive(d: real, b: real)
    requires b > 0.0
    ensures d < 0.0 ==> d * b < 0.0
    ensures d >= 1.0 ==> d * b >= b
  {
    if d >= 1.0 {
      assert (d - 1.0) * b >= 0.0;
    }
  }

  lemma CutEnds(buckets: nat, n: nat)
    requires buckets > 0
    ensures Cut(0, buckets, n) == 0 && Cut(buckets, buckets, n) == n
  {
    CutIsProportion(0, buckets, n);
    CutIsProportion(buckets, buckets, n);
    DivModUnique(buckets * n, buckets, n, 0);
    DivModUnique(0, buckets, 0, 0);
  }

  lemma CutMonotone(i: nat, j: nat, buckets: nat, n: nat)
    requires i <= j && buckets > 0
    ensures 0 <= Cut(i, buckets, n) <= Cut(j, buckets, n)
  {
    CutIsProportion(i, buckets, n);
    CutIsProportion(j, buckets, n);
    MulMonotone(i, j, n);
    QuotientMonotone(i * n, j * n, buckets);
  }

  lemma CutsOrdered(i: nat, j: nat, buckets: nat, n: nat)
    requires i <= j <= buckets && buckets > 0
    ensures 0 <= Cut(i, buckets, n) <= Cut(j, buckets, n) <= n
  {
    CutMonotone(i, j, buckets, n);
    CutMonotone(j, buckets, buckets, n);
    CutEnds(buckets, n);
  }

  lemma CutStrict(i: nat, buckets: nat, n: nat)
    requires buckets > 0 && n >= buckets
    ensures Cut(i, buckets, n) < Cut(i + 1, buckets, n)
  {
    CutIsProportion(i, buckets, n);
    CutIsProportion(i + 1, buckets, n);
    var p := i * n;
    assert (i + 1) * n == p + n;
    DivModUnique(p + buckets, buckets, p / buckets + 1, p % buckets);
    QuotientMonotone(p + buckets, p + n, buckets);
  }

  lemma QuotientMonotone(a: nat, b: nat, k: nat)
    requires a <= b && k > 0
    ensures a / k <= b / k
  {
    assert a == (a / k) * k + a % k && b == (b / k) * k + b % k;
    if a / k > b / k {
      MulAtLeast(a / k - b / k, k);
    }
  }

  // ------------------------------------------------------------ one bucket

  datatype Row = Row(end: real, size: int, avg: real, p50: real, p80: real, p90: real, p95: real,
                     p99: real, p999: real, tail: real)

  function PctlIndex(n: nat, p: real): (i: int)
    ensures i < n
  {
    var i := Truncate(n as real * p);
    if i >= n then n - 1 else i
  }

  /** `get_pctl` */
  function Pctl(a: seq<real>, p: real): real {
    var i := PctlIndex(|a|, p);
    if i < 0 then 0.0 else a[i]
  }

  function Mean(a: seq<real>): real
    requires a != []
  {
    Sum(a) / |a| as real
  }

  function Slowdowns(flows: seq<Flow>): (r: seq<real>)
    ensures |r| == |flows|
    ensures forall i :: 0 <= i < |r| ==> r[i] == flows[i].slowdown
  {
    seq(|flows|, i requires 0 <= i < |flows| => flows[i].slowdown)
  }

  function Summary(end: real, chunk: seq<Flow>): Row {
    if chunk == [] then Row(end, 0, 0.0, 0.0, 0.0, 0.0, 0.0, 0.0, 0.0, 0.0)
    else
      var fct := Sort(Slowdowns(chunk));
      Sorting.SortSorts(Slowdowns(chunk));
      Row(end, chunk[|chunk| - 1].size, Mean(fct),
          Pctl(fct, 0.5), Pctl(fct, 0.8), Pctl(fct, 0.9), Pctl(fct, 0.95), Pctl(fct, 0.99),
          Pctl(fct, 0.999), fct[|fct| - 1])
  }

  function Chunk(flows: seq<Flow>, i: nat, buckets: nat): seq<Flow>
    requires i < buckets
  {
    CutsOrdered(i, i + 1, buckets, |flows|);
    flows[ChunkStart(i, buckets, |flows|)..ChunkEnd(i, buckets, |flows|)]
  }

  function RowEnd(i: nat, buckets: nat): real
    requires buckets > 0
  {
    (i + 1) as real * (100.0 / buckets as real) / 100.0
  }

  function RowAt(flows: seq<Flow>, i: nat, buckets: nat): Row
    requires i < buckets
  {
    Summary(RowEnd(i, buckets), Chunk(flows, i, buckets))
  }

  /** `v` is a `p`-percentile of the values, in whatever order: one of them, at
      most a fraction `p` of them is below it and more than a fraction `p` is
      not above it.  For `p` from 1 on it is the greatest.  */
  ghost predicate IsPercentile(v: real, values: seq<real>, p: real) {
    && v in values
    && Below(values, v) as real <= |values| as real * p
    && (p < 1.0 ==> AtMost(values, v) as real > |values| as real * p)
    && (p >= 1.0 ==> forall x :: x in values ==> x <= v)
  }

  /** The percentile of a sorted list is one, and grows with `p`. */
  lemma PctlMeaning(a: seq<real>, p: real, q: real)
    requires Ascending(a) && a != [] && 0.0 <= p <= q
    ensures IsPercentile(Pctl(a, p), a, p)
    ensures a[0] <= Pctl(a, p) <= Pctl(a, q) <= a[|a| - 1]
  {
    hide PctlIndex, Below, AtMost, Ascending;
    IndexMonotone(|a|, p, q);
    var i := PctlIndex(|a|, p);
    AscendingAt(a, 0, i);
    AscendingAt(a, i, PctlIndex(|a|, q));
    AscendingAt(a, PctlIndex(|a|, q), |a| - 1);
    BelowAt(a, i);
    AtMostAt(a, i);
    assert Pctl(a, p) == a[i];
    assert Pctl(a, q) == a[PctlIndex(|a|, q)];
    IndexHigh(|a|, p);
    if p >= 1.0 {
      forall x | x in a ensures x <= a[i] {
        var k :| 0 <= k < |a| && a[k] == x;
        AscendingAt(a, k, |a| - 1);
      }
    }
  }

  /** The index is large enough, too. */
  lemma IndexHigh(n: nat, p: real)
    requires n > 0 && 0.0 <= p
    ensures p < 1.0 ==> (PctlIndex(n, p) + 1) as real > n as real * p
    ensures p >= 1.0 ==> PctlIndex(n, p) == n - 1
  {
    var m := n as real;
    var x := m * p;
    NonNegativeProduct(m, p, x);
    var y := m * (1.0 - p);
    assert y == m - x;
    ProductSign(1.0 - p, m, y);
  }

  /** At least the first `i + 1` of a sorted list are at most its element `i`. */
  lemma AtMostAt(a: seq<real>, i: nat)
    requires Ascending(a) && i < |a|
    ensures AtMost(a, a[i]) >= i + 1
  {
    forall k: nat | k <= i ensures a[k] <= a[i] {
    }
    ManyAtMost(a, a[i], i + 1);
  }

  lemma {:induction false} ManyAtMost(a: seq<real>, x: real, n: nat)
    requires n <= |a| && forall k :: 0 <= k < n ==> a[k] <= x
    ensures AtMost(a, x) >= n
  {
    if a == [] {
    } else {
      ManyAtMost(a[..|a| - 1], x, if n < |a| then n else n - 1);
    }
  }

  lemma AscendingAt(a: seq<real>, i: nat, j: nat)
    requires Ascending(a) && i <= j < |a|
    ensures a[i] <= a[j]
  {
  }

  lemma BelowAt(a: seq<real>, i: nat)
    requires Ascending(a) && i < |a|
    ensures Below(a, a[i]) <= i
  {
    BelowPrefix(a, a[i]);
  }

  lemma IndexMonotone(n: nat, p: real, q: real)
    requires n > 0 && 0.0 <= p <= q
    ensures 0 <= PctlIndex(n, p) <= PctlIndex(n, q) < n
    ensures PctlIndex(n, p) as real <= n as real * p
  {
    var m := n as real;
    assert 0.0 <= m * p;
    assert m * q == m * p + m * (q - p);
    assert m * (q - p) >= 0.0;
    TruncateMonotone(m * p, m * q);
  }

  lemma TruncateMonotone(x: real, y: real)
    requires 0.0 <= x <= y
    ensures 0 <= Truncate(x) <= Truncate(y) && Truncate(x) as real <= x
  {
  }

  lemma SortedMembers(s: seq<real>)
    ensures |Sort(s)| == |s| && forall x :: x in Sort(s) <==> x in s
  {
    SortSorts(s);
    forall x: real ensures x in Sort(s) <==> x in s {
      assert x in multiset(Sort(s)) <==> x in multiset(s);
    }
  }

  /** A percentile of the sorted list is one of the list as it was. */
  lemma PercentileOfSort(s: seq<real>, p: real)
    requires s != [] && 0.0 <= p
    ensures IsPercentile(Pctl(Sort(s), p), s, p)
  {
    hide Below, AtMost, Sort, Pctl;
    SortSorts(s);
    SortedMembers(s);
    PctlMeaning(Sort(s), p, p);
    CountsOfSort(s, Pctl(Sort(s), p));
  }

  /** Percentiles of a row are ordered and never exceed its tail. */
  lemma RowOrdered(end: real, chunk: seq<Flow>)
    requires chunk != []
    ensures var r := Summary(end, chunk); r.p50 <= r.p80 <= r.p90 <= r.p95 <= r.p99 <= r.p999 <= r.tail
    ensures forall f :: f in chunk ==> f.slowdown <= Summary(end, chunk).tail
  {
    hide Sort, Pctl, Below, Ascending;
    var s := Slowdowns(chunk);
    var fct := Sort(s);
    SortSorts(s);
    PctlMeaning(fct, 0.5, 0.8);
    PctlMeaning(fct, 0.8, 0.9);
    PctlMeaning(fct, 0.9, 0.95);
    PctlMeaning(fct, 0.95, 0.99);
    PctlMeaning(fct, 0.99, 0.999);
    forall f | f in chunk ensures f.slowdown <= fct[|fct| - 1] {
      var i :| 0 <= i < |chunk| && chunk[i] == f;
      assert s[i] in multiset(s);
      var j :| 0 <= j < |fct| && fct[j] == s[i];
    }
  }

  /** What a row says about the flows of its bucket: the size of the last one,
      the mean, six percentiles and the greatest slowdown; zeros if there are none.  */
  ghost predicate Describes(r: Row, chunk: seq<Flow>) {
    var xs := Slowdowns(chunk);
    if chunk == [] then r == Row(r.end, 0, 0.0, 0.0, 0.0, 0.0, 0.0, 0.0, 0.0, 0.0)
    else
      && r.size == chunk[|chunk| - 1].size && |xs| as real * r.avg == Sum(xs)
      && IsPercentile(r.p50, xs, 0.5) && IsPercentile(r.p80, xs, 0.8) && IsPercentile(r.p90, xs, 0.9)
      && IsPercentile(r.p95, xs, 0.95) && IsPercentile(r.p99, xs, 0.99) && IsPercentile(r.p999, xs, 0.999)
      && r.tail in xs && forall x :: x in xs ==> x <= r.tail
  }

  lemma SummaryDescribes(end: real, chunk: seq<Flow>)
    ensures Summary(end, chunk).end == end && Describes(Summary(end, chunk), chunk)
  {
    hide Pctl, IsPercentile, Sort, Sum, Mean, Ascending;
    if chunk == [] {
    } else {
      var xs := Slowdowns(chunk);
      PercentileOfSort(xs, 0.5);
      PercentileOfSort(xs, 0.8);
      PercentileOfSort(xs, 0.9);
      PercentileOfSort(xs, 0.95);
      PercentileOfSort(xs, 0.99);
      PercentileOfSort(xs, 0.999);
      SortedMembers(xs);
      SummaryShare(end, chunk);
      GreatestLast(xs);
    }
  }

  lemma GreatestLast(s: seq<real>)
    requires s != []
    ensures |Sort(s)| == |s| && Sort(s)[|s| - 1] in s
    ensures forall x :: x in s ==> x <= Sort(s)[|s| - 1]
  {
    hide Sort;
    SortSorts(s);
    SortedMembers(s);
    var t := Sort(s);
    assert t[|t| - 1] in t;
    forall x | x in s ensures x <= t[|t| - 1] {
      var k :| 0 <= k < |t| && t[k] == x;
    }
  }

  // ------------------------------------------------------------ all buckets

  /** Bucket `i` of the reordered flows. */
  function Bucket(flows: seq<Flow>, i: nat, buckets: nat): seq<Flow>
    requires i < buckets
  {
    BucketBounds(|flows|, i, buckets);
    flows[i * |flows| / buckets..(i + 1) * |flows| / buckets]
  }

  lemma BucketBounds(n: nat, i: nat, buckets: nat)
    requires i < buckets
    ensures 0 <= i * n / buckets <= (i + 1) * n / buckets <= n
  {
    CutsOrdered(i, i + 1, buckets, n);
    CutIsProportion(i, buckets, n);
    CutIsProportion(i + 1, buckets, n);
  }

  /** The source's cut points delimit exactly these buckets. */
  lemma ChunkIsBucket(flows: seq<Flow>, i: nat, buckets: nat)
    requires i < buckets
    ensures Chunk(flows, i, buckets) == Bucket(flows, i, buckets)
  {
    hide Cut;
    CutsOrdered(i, i + 1, buckets, |flows|);
    CutIsProportion(i, buckets, |flows|);
    CutIsProportion(i + 1, buckets, |flows|);
    CutEnds(buckets, |flows|);
  }

  function Chunks(flows: seq<Flow>, buckets: nat, c: nat): seq<Flow>
    requires c <= buckets
  {
    if c == 0 then [] else Chunks(flows, buckets, c - 1) + Chunk(flows, c - 1, buckets)
  }

  /** Contiguous and disjoint: the first `c` buckets are exactly a prefix. */
  lemma {:induction false} ChunksArePrefix(flows: seq<Flow>, buckets: nat, c: nat)
    requires c <= buckets && buckets > 0
    ensures var cut := if c == buckets then |flows| else Cut(c, buckets, |flows|);
      0 <= cut <= |flows| && Chunks(flows, buckets, c) == flows[..cut]
  {
    CutEnds(buckets, |flows|);
    CutsOrdered(c, c, buckets, |flows|);
    if c == 0 {
    } else {
      ChunksArePrefix(flows, buckets, c - 1);
      CutsOrdered(c - 1, c, buckets, |flows|);
    }
  }

  /** Nothing is lost or counted twice by the cutting. */
  lemma ChunksCoverAll(flows: seq<Flow>, buckets: nat)
    requires buckets > 0
    ensures Chunks(flows, buckets, buckets) == flows
  {
    ChunksArePrefix(flows, buckets, buckets);
  }

  /** Means weighted by the lengths of the buckets, for the first `c` buckets. */
  function WeightedSum(means: seq<real>, n: nat, c: nat): real
    requires c <= |means|
  {
    if c == 0 then 0.0
    else
      var i, buckets := c - 1, |means|;
      WeightedSum(means, n, i) + (ChunkEnd(i, buckets, n) - ChunkStart(i, buckets, n)) as real * means[i]
  }

  /** A mean times the length is the sum. */
  lemma MeanTimesLength(a: seq<real>)
    requires a != []
    ensures |a| as real * Mean(a) == Sum(a)
  {
  }

  lemma ChunkShare(flows: seq<Flow>, i: nat, buckets: nat)
    requires i < buckets
    ensures |Chunk(flows, i, buckets)| as real * RowAt(flows, i, buckets).avg
         == Sum(Slowdowns(Chunk(flows, i, buckets)))
  {
    hide Summary, Chunk;
    SummaryShare(RowEnd(i, buckets), Chunk(flows, i, buckets));
  }

  lemma SummaryShare(end: real, chunk: seq<Flow>)
    ensures |chunk| as real * Summary(end, chunk).avg == Sum(Slowdowns(chunk))
  {
    hide Pctl;
    if chunk != [] {
      var s := Slowdowns(chunk);
      SortSorts(s);
      SumOfPermutation(Sort(s), s);
      MeanTimesLength(Sort(s));
      assert Summary(end, chunk).avg == Mean(Sort(s));
    }
  }

  ghost predicate MeansOf(means: seq<real>, flows: seq<Flow>, buckets: nat) {
    |means| == buckets && forall i: nat :: i < buckets ==> means[i] == RowAt(flows, i, buckets).avg
  }

  /** The bucket means, weighted by bucket length, give back the total. */
  lemma {:induction false} MeansRecombine(flows: seq<Flow>, buckets: nat, c: nat, means: seq<real>)
    requires c <= buckets && MeansOf(means, flows, buckets)
    ensures WeightedSum(means, |flows|, c) == Sum(Slowdowns(Chunks(flows, buckets, c)))
  {
    hide RowAt, Chunk, Sum, ChunkStart, ChunkEnd;
    if c == 0 {
      NothingSummed();
    } else {
      MeansRecombine(flows, buckets, c - 1, means);
      var before, chunk := Chunks(flows, buckets, c - 1), Chunk(flows, c - 1, buckets);
      assert Slowdowns(before + chunk) == Slowdowns(before) + Slowdowns(chunk);
      SumAppend(Slowdowns(before), Slowdowns(chunk));
      ChunkShare(flows, c - 1, buckets);
      ChunkLength(flows, c - 1, buckets);
    }
  }

  lemma ChunkLength(flows: seq<Flow>, i: nat, buckets: nat)
    requires i < buckets
    ensures |Chunk(flows, i, buckets)| == ChunkEnd(i, buckets, |flows|) - ChunkStart(i, buckets, |flows|)
  {
    hide Cut;
    CutsOrdered(i, i + 1, buckets, |flows|);
  }

  lemma NothingSummed()
    ensures Sum(Slowdowns([])) == 0.0
  {
  }

  /** The means of all rows recombine to the sum over all flows. */
  lemma AllMeansRecombine(flows: seq<Flow>, buckets: nat, means: seq<real>)
    requires buckets > 0 && MeansOf(means, flows, buckets)
    ensures WeightedSum(means, |flows|, buckets) == Sum(Slowdowns(flows))
  {
    MeansRecombine(flows, buckets, buckets, means);
    ChunksCoverAll(flows, buckets);
  }

  /** With at least as many flows as buckets no bucket is empty, and the size
      axis of the plot never goes back.  */
  lemma SizeAxis(flows: seq<Flow>, buckets: nat, i: nat, j: nat)
    requires SizesAscend(flows) && |flows| >= buckets && i <= j < buckets
    ensures Chunk(flows, i, buckets) != [] && Chunk(flows, j, buckets) != []
    ensures RowAt(flows, i, buckets).size <= RowAt(flows, j, buckets).size
  {
    hide RowAt, Chunk, Cut;
    RowSize(flows, buckets, i);
    RowSize(flows, buckets, j);
    CutEnds(buckets, |flows|);
    CutsOrdered(i + 1, j + 1, buckets, |flows|);
  }

  lemma SummarySize(end: real, chunk: seq<Flow>)
    requires chunk != []
    ensures Summary(end, chunk).size == chunk[|chunk| - 1].size
  {
  }

  /** A row is labelled with the size of its last flow. */
  lemma RowSize(flows: seq<Flow>, buckets: nat, i: nat)
    requires |flows| >= buckets && i < buckets
    ensures Chunk(flows, i, buckets) != [] && 0 < ChunkEnd(i, buckets, |flows|) <= |flows|
    ensures RowAt(flows, i, buckets).size == flows[ChunkEnd(i, buckets, |flows|) - 1].size
  {
    hide Summary, Cut;
    CutEnds(buckets, |flows|);
    CutStrict(i, buckets, |flows|);
    CutsOrdered(i, i + 1, buckets, |flows|);
    SummarySize(RowEnd(i, buckets), Chunk(flows, i, buckets));
  }

  // ------------------------------------------------------------ the whole run

  /** What the script returns: empty lists if there are no flows, otherwise one
      column for each figure.  */
  datatype Series =
    | NoFlows
    | Series(avg: seq<real>, p50: seq<real>, p80: seq<real>, p90: seq<real>, p95: seq<real>,
             p99: seq<real>, p999: seq<real>, tail: seq<real>, size: seq<int>)

  /** Entry `i` of every column. */
  function RowOf(s: Series, i: nat, end: real): Row
    requires s.Series? && i < |s.avg| && i < |s.p50| && i < |s.p80| && i < |s.p90| && i < |s.p95|
    requires i < |s.p99| && i < |s.p999| && i < |s.tail| && i < |s.size|
  {
    Row(end, s.size[i], s.avg[i], s.p50[i], s.p80[i], s.p90[i], s.p95[i], s.p99[i], s.p999[i], s.tail[i])
  }

  /** All columns have `n` entries. */
  predicate Long(s: Series, n: nat) {
    && s.Series? && |s.avg| == |s.p50| == |s.p80| == |s.p90| == |s.p95| == n
    && |s.p99| == |s.p999| == |s.tail| == |s.size| == n
  }

  /** The columns hold the first `c` rows of the reordered flows. */
  ghost predicate Holds(s: Series, flows: seq<Flow>, buckets: nat, c: nat) {
    && c <= buckets && Long(s, c)
    && forall i: nat :: i < c ==> RowOf(s, i, RowEnd(i, buckets)) == RowAt(flows, i, buckets)
  }

  /** The slowdowns are summed up the same in every order of the flows. */
  lemma {:induction false} SumOfFlows(a: seq<Flow>, b: seq<Flow>)
    requires multiset(a) == multiset(b)
    ensures Sum(Slowdowns(a)) == Sum(Slowdowns(b))
    decreases |a|
  {
    hide Sum;
    if a == [] {
      assert |multiset(b)| == 0;
    } else {
      var n := |a| - 1;
      var p, f := a[..n], a[n];
      assert a == p + [f];
      assert f in multiset(b);
      var j :| 0 <= j < |b| && b[j] == f;
      var l, r := b[..j], b[j + 1..];
      assert b == l + ([f] + r);
      Without(p, l, r, f);
      SumOfFlows(p, l + r);
      SlowdownsAppend(p, [f]);
      SlowdownsAppend(l, [f] + r);
      SlowdownsAppend([f], r);
      SlowdownsAppend(l, r);
    }
  }

  lemma Without<T>(p: seq<T>, l: seq<T>, r: seq<T>, x: T)
    requires multiset(p + [x]) == multiset(l + ([x] + r))
    ensures multiset(p) == multiset(l + r)
  {
    assert multiset(p + [x]) == multiset(p) + multiset{x};
    assert multiset(l + ([x] + r)) == multiset(l + r) + multiset{x};
    assert multiset(p) == multiset(p + [x]) - multiset{x};
    assert multiset(l + r) == multiset(l + ([x] + r)) - multiset{x};
  }

  lemma SlowdownsAppend(a: seq<Flow>, b: seq<Flow>)
    ensures Sum(Slowdowns(a + b)) == Sum(Slowdowns(a)) + Sum(Slowdowns(b))
  {
    assert Slowdowns(a + b) == Slowdowns(a) + Slowdowns(b);
    SumAppend(Slowdowns(a), Slowdowns(b));
  }

  /** What the columns say about the flows that went in: the means, weighted by
      the numbers of flows, recombine to the sum of all slowdowns; with at least
      as many flows as buckets the size column never falls and in every entry
      the percentiles are ordered; and every entry describes its bucket.  */
  lemma SeriesMeaning(raw: seq<Flow>, buckets: nat, s: Series)
    requires buckets > 0 && Holds(s, Reordered(raw), buckets, buckets)
    ensures WeightedSum(s.avg, |raw|, buckets) == Sum(Slowdowns(raw))
    ensures |raw| >= buckets ==> forall i, j :: 0 <= i <= j < buckets ==> s.size[i] <= s.size[j]
    ensures |raw| >= buckets ==>
      forall i :: 0 <= i < buckets ==>
        s.p50[i] <= s.p80[i] <= s.p90[i] <= s.p95[i] <= s.p99[i] <= s.p999[i] <= s.tail[i]
    ensures ColumnsDescribe(s, Reordered(raw), buckets)
  {
    hide Sum, Slowdowns, Chunk, RowAt, Reordered, WeightedSum, ColumnsDescribe;
    var flows := Reordered(raw);
    ColumnsAreTrue(flows, buckets, s);
    ReorderKeepsAll(raw);
    ReorderAscends(raw);
    SumOfFlows(flows, raw);
    forall i: nat | i < buckets ensures s.avg[i] == RowAt(flows, i, buckets).avg {
      assert RowOf(s, i, RowEnd(i, buckets)) == RowAt(flows, i, buckets);
    }
    AllMeansRecombine(flows, buckets, s.avg);
    if |raw| >= buckets {
      forall i, j | 0 <= i <= j < buckets ensures s.size[i] <= s.size[j] {
        assert RowOf(s, i, RowEnd(i, buckets)) == RowAt(flows, i, buckets);
        assert RowOf(s, j, RowEnd(j, buckets)) == RowAt(flows, j, buckets);
        SizeAxis(flows, buckets, i, j);
      }
      forall i | 0 <= i < buckets
        ensures s.p50[i] <= s.p80[i] <= s.p90[i] <= s.p95[i] <= s.p99[i] <= s.p999[i] <= s.tail[i]
      {
        assert RowOf(s, i, RowEnd(i, buckets)) == RowAt(flows, i, buckets);
        SizeAxis(flows, buckets, i, i);
        OrderedRow(flows, i, buckets);
      }
    }
  }

  /** Every entry of the columns describes its bucket. */
  ghost predicate ColumnsDescribe(s: Series, flows: seq<Flow>, buckets: nat) {
    Long(s, buckets) && forall i: nat :: i < buckets ==> Describes(RowOf(s, i, 0.0), Bucket(flows, i, buckets))
  }

  lemma ColumnsAreTrue(flows: seq<Flow>, buckets: nat, s: Series)
    requires Holds(s, flows, buckets, buckets)
    ensures ColumnsDescribe(s, flows, buckets)
  {
    hide RowAt, Bucket, Describes;
    forall i: nat | i < buckets ensures Describes(RowOf(s, i, 0.0), Bucket(flows, i, buckets)) {
      assert RowOf(s, i, RowEnd(i, buckets)) == RowAt(flows, i, buckets);
      RowDescribes(flows, i, buckets);
      EndDoesNotMatter(RowAt(flows, i, buckets), 0.0, Bucket(flows, i, buckets));
    }
  }

  lemma RowDescribes(flows: seq<Flow>, i: nat, buckets: nat)
    requires i < buckets
    ensures Describes(RowAt(flows, i, buckets), Bucket(flows, i, buckets))
  {
    hide Summary, Describes, Bucket, Chunk;
    ChunkIsBucket(flows, i, buckets);
    SummaryDescribes(RowEnd(i, buckets), Chunk(flows, i, buckets));
  }

  lemma EndDoesNotMatter(r: Row, end: real, chunk: seq<Flow>)
    requires Describes(r, chunk)
    ensures Describes(r.(end := end), chunk)
  {
    hide IsPercentile, Sum;
  }

  lemma OrderedRow(flows: seq<Flow>, i: nat, buckets: nat)
    requires i < buckets && Chunk(flows, i, buckets) != []
    ensures var r := RowAt(flows, i, buckets); r.p50 <= r.p80 <= r.p90 <= r.p95 <= r.p99 <= r.p999 <= r.tail
  {
    hide Chunk, Summary;
    RowOrdered(RowEnd(i, buckets), Chunk(flows, i, buckets));
  }

  method ComputeRow(flows: seq<Flow>, i: nat, buckets: nat) returns (row: Row)
    requires i < buckets
    ensures row == RowAt(flows, i, buckets)
  {
    CutsOrdered(i, i + 1, buckets, |flows|);
    var end := (i + 1) as real * (100.0 / buckets as real);
    var l := Cut(i, buckets, |flows|);
    var r := Cut(i + 1, buckets, |flows|);
    if i == buckets - 1 {
      r := |flows|;
    }
    row := Summary(end / 100.0, flows[l..r]);
  }

  /** The loop over the buckets. */
  method ComputeRows(flows: seq<Flow>, buckets: nat) returns (rows: seq<Row>)
    requires buckets > 0
    ensures |rows| == buckets && forall k: nat :: k < buckets ==> rows[k] == RowAt(flows, k, buckets)
  {
    hide RowAt;
    rows := [];
    for i := 0 to buckets
      invariant |rows| == i
      invariant forall k: nat :: k < i ==> rows[k] == RowAt(flows, k, buckets)
    {
      var row := ComputeRow(flows, i, buckets);
      rows := rows + [row];
    }
  }

  lemma EndOfRow(flows: seq<Flow>, i: nat, buckets: nat)
    requires i < buckets
    ensures RowAt(flows, i, buckets).end == RowEnd(i, buckets)
  {
    hide Chunk;
  }

  /** The loop over the rows that fills the columns. */
  method FillColumns(ghost flows: seq<Flow>, ghost buckets: nat, rows: seq<Row>) returns (s: Series)
    requires |rows| == buckets && forall k: nat :: k < buckets ==> rows[k] == RowAt(flows, k, buckets)
    ensures Holds(s, flows, buckets, buckets)
  {
    hide RowAt;
    s := Series([], [], [], [], [], [], [], [], []);
    for i := 0 to |rows|
      invariant Holds(s, flows, buckets, i)
    {
      var item := rows[i];
      EndOfRow(flows, i, buckets);
      s := Series(s.avg + [item.avg], s.p50 + [item.p50], s.p80 + [item.p80], s.p90 + [item.p90],
                  s.p95 + [item.p95], s.p99 + [item.p99], s.p999 + [item.p999], s.tail + [item.tail],
                  s.size + [item.size]);
    }
  }

  /** The whole of `get_steps_from_raw`: the rows, then the columns. */
  method GetSteps(raw: seq<Flow>, buckets: nat) returns (s: Series)
    requires buckets > 0
    ensures raw == [] <==> s.NoFlows?
    ensures raw != [] ==> Holds(s, Reordered(raw), buckets, buckets)
    ensures raw != [] ==> ColumnsDescribe(s, Reordered(raw), buckets)
  {
    hide RowAt, Reordered, RowOf, ColumnsDescribe;
    if raw == [] {
      return NoFlows;
    }
    var flows := Reorder(raw);
    var rows := ComputeRows(flows, buckets);
    s := FillColumns(flows, buckets, rows);
    ColumnsAreTrue(flows, buckets, s);
  }
}
