/** `getCdfFromArray` of simulation/fctAnalysis.py: a sorted list turned into
    one bucket per distinct value.  Values are exact reals.  */
module Cdf {
  import opened Sorting

  /** numpy's `i / (n - 1)`: 0/0 for a single value. */
  datatype Probability = NotANumber | P(value: real)

  datatype Bucket = Bucket(key: real, count: nat, upTo: nat, prob: Probability)

  datatype Outcome = Table(buckets: seq<Bucket>) | IndexError

  const EMPTY := Bucket(0.0, 0, 0, P(0.0))

  function Position(i: nat, n: nat): Probability
    requires n > 0
  {
    if n == 1 then NotANumber else P(i as real / (n - 1) as real)
  }

  /** One more value, the `len`-th: in the last bucket if it has that key,
      otherwise in a new one.  */
  function Extend(r: seq<Bucket>, x: real, len: nat, n: nat): (e: seq<Bucket>)
    requires 0 < len <= n
    ensures e != [] && e[|e| - 1].key == x
  {
    var p := Position(len - 1, n);
    if r != [] && r[|r| - 1].key == x then r[..|r| - 1] + [Bucket(x, r[|r| - 1].count + 1, len, p)]
    else r + [Bucket(x, 1, len, p)]
  }

  /** One bucket for every run of equal values, of a list that is the start of
      one with `n` values.  */
  function Runs(s: seq<real>, n: nat): (r: seq<Bucket>)
    requires |s| <= n
    ensures r == [] <==> s == []
    ensures r != [] ==> r[|r| - 1].key == s[|s| - 1]
  {
    if s == [] then [] else Extend(Runs(s[..|s| - 1], n), s[|s| - 1], |s|, n)
  }

  // ------------------------------------------------------------ what the buckets mean

  function Repeated(x: real, k: nat): (r: seq<real>)
    ensures |r| == k && forall i :: 0 <= i < k ==> r[i] == x
  {
    seq(k, _ => x)
  }

  /** Every key as often as its count says. */
  function Expand(r: seq<Bucket>): seq<real> {
    if r == [] then []
    else Expand(r[..|r| - 1]) + Repeated(r[|r| - 1].key, r[|r| - 1].count)
  }

  lemma ExpandExtend(r: seq<Bucket>, x: real, len: nat, n: nat)
    requires 0 < len <= n
    ensures Expand(Extend(r, x, len, n)) == Expand(r) + [x]
  {
    var e := Extend(r, x, len, n);
    var m := |r| - 1;
    if r != [] && r[m].key == x {
      assert e[..|e| - 1] == r[..m];
      assert Repeated(x, r[m].count + 1) == Repeated(x, r[m].count) + [x];
    } else {
      assert e[..|e| - 1] == r;
      assert Repeated(x, 1) == [x];
    }
  }

  /** The counts are a run-length encoding: expanding them gives the list back. */
  lemma {:induction false} ExpandRuns(s: seq<real>, n: nat)
    requires |s| <= n
    ensures Expand(Runs(s, n)) == s
  {
    hide Extend, Expand;
    if s == [] {
      NothingExpanded();
    } else {
      var m := |s| - 1;
      ExpandRuns(s[..m], n);
      ExpandExtend(Runs(s[..m], n), s[m], |s|, n);
      assert s == s[..m] + [s[m]];
    }
  }

  lemma NothingExpanded()
    ensures Expand([]) == []
  {
  }

  predicate KeysIncrease(r: seq<Bucket>) {
    forall i, j :: 0 <= i < j < |r| ==> r[i].key < r[j].key
  }

  lemma ExtendKeys(r: seq<Bucket>, x: real, len: nat, n: nat)
    requires 0 < len <= n && KeysIncrease(r) && (r == [] || r[|r| - 1].key <= x)
    ensures KeysIncrease(Extend(r, x, len, n))
  {
    if r != [] && r[|r| - 1].key < x {
      forall i | 0 <= i < |r| ensures r[i].key < x {
        assert i < |r| - 1 ==> r[i].key < r[|r| - 1].key;
      }
    }
  }

  lemma {:induction false} RunKeys(s: seq<real>, n: nat)
    requires |s| <= n && Ascending(s)
    ensures KeysIncrease(Runs(s, n))
  {
    hide Extend, KeysIncrease;
    if s == [] {
      NoKeys();
    } else {
      var m := |s| - 1;
      RunKeys(s[..m], n);
      ExtendKeys(Runs(s[..m], n), s[m], |s|, n);
    }
  }

  lemma NoKeys()
    ensures KeysIncrease([])
  {
  }

  lemma {:induction false} AllAtMost(s: seq<real>, x: real)
    requires forall k :: 0 <= k < |s| ==> s[k] <= x
    ensures AtMost(s, x) == |s|
  {
    if s == [] {
    } else {
      AllAtMost(s[..|s| - 1], x);
    }
  }

  /** The place of the `k`-th of `n` values: 0 for the first, 1 for the last. */
  ghost predicate OnScale(p: Probability, k: nat, n: nat) {
    if n == 1 then p == NotANumber else p.P? && p.value * (n - 1) as real == (k - 1) as real
  }

  lemma PositionOnScale(i: nat, n: nat)
    requires n > 0
    ensures OnScale(Position(i, n), i + 1, n)
  {
  }

  /** The third column counts the values up to the key, and the fourth is the
      place of the last of them on the scale from 0 to 1.  */
  ghost predicate Describes(b: Bucket, s: seq<real>, n: nat)
    requires n > 0
  {
    b.upTo == AtMost(s, b.key) && b.upTo > 0 && b.count > 0 && OnScale(b.prob, b.upTo, n)
  }

  /** Values after the last one with its key change nothing for a bucket. */
  lemma DescribesLonger(b: Bucket, s: seq<real>, n: nat)
    requires n > 0 && s != [] && b.key < s[|s| - 1] && Describes(b, s[..|s| - 1], n)
    ensures Describes(b, s, n)
  {
  }

  lemma ExtendShape(r: seq<Bucket>, x: real, len: nat, n: nat)
    requires 0 < len <= n
    ensures var e := Extend(r, x, len, n); var l := e[|e| - 1];
      && l.key == x && l.upTo == len && l.count > 0 && OnScale(l.prob, len, n)
      && (forall k :: 0 <= k < |e| - 1 ==> k < |r| && e[k] == r[k])
  {
    hide Position, OnScale;
    PositionOnScale(len - 1, n);
  }

  lemma {:induction false} RunCounts(s: seq<real>, n: nat)
    requires |s| <= n && Ascending(s) && n > 0
    ensures forall k :: 0 <= k < |Runs(s, n)| ==> Describes(Runs(s, n)[k], s, n)
    ensures s != [] ==> Runs(s, n)[|Runs(s, n)| - 1].upTo == |s|
  {
    if s == [] {
    } else {
      hide Extend, AtMost, OnScale;
      var m := |s| - 1;
      RunCounts(s[..m], n);
      RunKeys(s, n);
      AllAtMost(s, s[m]);
      var r, b := Runs(s[..m], n), Runs(s, n);
      ExtendShape(r, s[m], |s|, n);
      forall k | 0 <= k < |b| - 1 ensures Describes(b[k], s, n) {
        assert b[k] == r[k];
        assert b[k].key < b[|b| - 1].key == s[m];
        DescribesLonger(b[k], s, n);
      }
    }
  }

  /** The whole table of a list: keys increase, the counts encode the sorted
      list, and the other columns describe the original one.  */
  lemma TableMeaning(data: seq<real>)
    requires data != []
    ensures |Sort(data)| == |data|
    ensures var r := Runs(Sort(data), |data|);
      && KeysIncrease(r) && Expand(r) == Sort(data)
      && (forall k :: 0 <= k < |r| ==> Describes(r[k], data, |data|))
      && r != [] && r[|r| - 1].upTo == |data|
      && (|data| >= 2 ==> r[|r| - 1].prob == P(1.0))
  {
    hide Sort, Runs, Expand, AtMost, Ascending, KeysIncrease, OnScale;
    var s, n := Sort(data), |data|;
    SortSorts(data);
    ExpandRuns(s, n);
    RunKeys(s, n);
    RunCounts(s, n);
    var r := Runs(s, n);
    forall k | 0 <= k < |r| ensures Describes(r[k], data, n) {
      assert Describes(r[k], s, n);
      CountsOfSort(data, r[k].key);
    }
    assert Describes(r[|r| - 1], s, n);
    LastIsOne(r[|r| - 1].prob, n);
  }

  lemma LastIsOne(p: Probability, n: nat)
    requires OnScale(p, n, n)
    ensures n >= 2 ==> p == P(1.0)
  {
  }

  // ------------------------------------------------------------ the loop

  /** `od` followed by the open bucket after reading `s`. */
  function Scan(s: seq<real>, n: nat): (r: seq<Bucket>)
    requires |s| <= n
    ensures r != []
  {
    if s == [] then [EMPTY] else Extend(Scan(s[..|s| - 1], n), s[|s| - 1], |s|, n)
  }

  lemma ExtendBehind(b: Bucket, r: seq<Bucket>, x: real, len: nat, n: nat)
    requires 0 < len <= n && r != []
    ensures Extend([b] + r, x, len, n) == [b] + Extend(r, x, len, n)
  {
    assert ([b] + r)[..|r|] == [b] + r[..|r| - 1];
  }

  /** The empty bucket is in front unless leading zeros were counted into it. */
  lemma {:induction false} ScanIsRuns(s: seq<real>, n: nat)
    requires 0 < |s| <= n
    ensures Scan(s, n) == if s[0] == 0.0 then Runs(s, n) else [EMPTY] + Runs(s, n)
  {
    var m := |s| - 1;
    if m == 0 {
      assert s[..0] == [];
      assert Runs(s[..0], n) == [] && Scan(s[..0], n) == [EMPTY];
    } else {
      hide Extend;
      ScanIsRuns(s[..m], n);
      ExtendBehind(EMPTY, Runs(s[..m], n), s[m], |s|, n);
    }
  }

  /** What the function returns. */
  function Result(data: seq<real>): Outcome {
    SortSorts(data);
    var s := Sort(data);
    if s == [] || s[|s| - 1] == s[0] == 0.0 then IndexError
    else if s[0] == 0.0 then Table(Runs(s, |data|)[1..])
    else Table(Runs(s, |data|))
  }

  /** What one more value does to the finished buckets and the open one. */
  lemma ExtendOpen(od: seq<Bucket>, bkt: Bucket, x: real, len: nat, n: nat)
    requires 0 < len <= n
    ensures Extend(od + [bkt], x, len, n)
      == if bkt.key == x then od + [Bucket(x, bkt.count + 1, len, Position(len - 1, n))]
         else (od + [bkt]) + [Bucket(x, 1, len, Position(len - 1, n))]
  {
    assert (od + [bkt])[..|od|] == od;
  }

  method GetCdfFromArray(data: seq<real>) returns (result: Outcome)
    ensures result == Result(data)
  {
    hide Sort, Runs, Ascending, Extend;
    SortSorts(data);
    var sorted := Sort(data);
    var n := |data|;
    var od: seq<Bucket> := [];
    var bkt := EMPTY;
    var accum := 0;
    for i := 0 to |sorted|
      invariant accum == i && od + [bkt] == Scan(sorted[..i], n)
    {
      assert sorted[..i + 1][..i] == sorted[..i];
      ExtendOpen(od, bkt, sorted[i], i + 1, n);
      var key := sorted[i];
      accum := accum + 1;
      if bkt.key == key {
        bkt := Bucket(key, bkt.count + 1, accum, Position(i, n));
      } else {
        od := od + [bkt];
        bkt := Bucket(key, 1, accum, Position(i, n));
      }
    }
    assert sorted[..|sorted|] == sorted;
    Finish(sorted, n, od, bkt);
    if od == [] {
      return IndexError;
    }
    if od[|od| - 1].key != bkt.key {
      od := od + [bkt];
    }
    result := Table(od[1..]);
  }

  /** The last bucket is never equal to the one before it. */
  lemma Finish(s: seq<real>, n: nat, od: seq<Bucket>, bkt: Bucket)
    requires |s| <= n && Ascending(s) && od + [bkt] == Scan(s, n)
    ensures od == [] <==> s == [] || s[|s| - 1] == s[0] == 0.0
    ensures od != [] ==> od[|od| - 1].key != bkt.key
    ensures od != [] ==> (od + [bkt])[1..] == if s[0] == 0.0 then Runs(s, n)[1..] else Runs(s, n)
  {
    if s != [] {
      ScanIsRuns(s, n);
      RunKeys(s, n);
      var r := Runs(s, n);
      var all := od + [bkt];
      assert bkt == all[|all| - 1] && bkt == r[|r| - 1];
      FirstRun(s, n);
      if od != [] {
        assert od[|od| - 1] == all[|all| - 2];
        if s[0] != 0.0 && |r| >= 2 {
          assert all[|all| - 2] == r[|r| - 2];
        }
      }
    }
  }

  /** The first key is the least value, and there is one bucket exactly if it
      is also the greatest.  */
  lemma {:induction false} FirstRun(s: seq<real>, n: nat)
    requires 0 < |s| <= n && Ascending(s)
    ensures Runs(s, n)[0].key == s[0]
    ensures |Runs(s, n)| == 1 <==> s[|s| - 1] == s[0]
  {
    var m := |s| - 1;
    if m == 0 {
      assert s[..0] == [];
    } else {
      FirstRun(s[..m], n);
      RunKeys(s, n);
    }
  }

  /** The table is complete exactly if the least value is not zero; otherwise
      the bucket of the zeros is lost.  */
  lemma CompleteExactlyWhen(data: seq<real>)
    requires data != []
    ensures |Sort(data)| == |data|
    ensures Result(data) == Table(Runs(Sort(data), |data|)) <==> Sort(data)[0] != 0.0
    ensures (forall k :: 0 <= k < |data| ==> data[k] > 0.0) ==> Sort(data)[0] != 0.0
  {
    SortSorts(data);
    var s := Sort(data);
    assert s[0] in multiset(s);
    assert s[0] in data;
    var r := Runs(s, |data|);
    assert |r[1..]| == |r| - 1;
  }
}
