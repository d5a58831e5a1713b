/** Python's `sorted` on the two kinds of values the analysis scripts sort. */
module Sorting {

  predicate Ascending(s: seq<real>) {
    forall i, j :: 0 <= i < j < |s| ==> s[i] <= s[j]
  }

  function Insert(x: real, s: seq<real>): seq<real> {
    if s == [] || x < s[0] then [x] + s else [s[0]] + Insert(x, s[1..])
  }

  lemma {:induction false} InsertPermutes(x: real, s: seq<real>)
    ensures multiset(Insert(x, s)) == multiset(s) + multiset{x}
  {
    if s == [] || x < s[0] {
    } else {
      InsertPermutes(x, s[1..]);
      assert s == [s[0]] + s[1..];
      assert multiset(s) == multiset{s[0]} + multiset(s[1..]);
    }
  }

  lemma {:induction false} InsertAscends(x: real, s: seq<real>)
    requires Ascending(s)
    ensures Ascending(Insert(x, s)) && |Insert(x, s)| == |s| + 1
    ensures Insert(x, s)[0] == if s == [] || x < s[0] then x else s[0]
  {
    if s == [] || x < s[0] {
    } else {
      InsertAscends(x, s[1..]);
      var r := Insert(x, s[1..]);
      forall i | 0 <= i < |r| ensures s[0] <= r[i] {
        assert r[0] <= r[i];
      }
    }
  }

  function Sort(s: seq<real>): seq<real> {
    if s == [] then [] else Insert(s[|s| - 1], Sort(s[..|s| - 1]))
  }

  /** Sorting orders the values and neither loses nor invents any. */
  lemma {:induction false} SortSorts(s: seq<real>)
    ensures Ascending(Sort(s)) && multiset(Sort(s)) == multiset(s) && |Sort(s)| == |s|
  {
    if s == [] {
    } else {
      var p := s[..|s| - 1];
      SortSorts(p);
      InsertPermutes(s[|s| - 1], Sort(p));
      InsertAscends(s[|s| - 1], Sort(p));
      assert s == p + [s[|s| - 1]];
    }
  }

  // ------------------------------------------------------------ counting

  /** How many elements lie below a threshold. */
  function Below(q: seq<real>, x: real): nat {
    if q == [] then 0 else Below(q[..|q| - 1], x) + (if q[|q| - 1] < x then 1 else 0)
  }

  /** How many elements are at most `x`. */
  function AtMost(q: seq<real>, x: real): nat {
    if q == [] then 0 else AtMost(q[..|q| - 1], x) + (if q[|q| - 1] <= x then 1 else 0)
  }

  lemma {:induction false} CountsAppend(a: seq<real>, b: seq<real>, x: real)
    ensures Below(a + b, x) == Below(a, x) + Below(b, x)
    ensures AtMost(a + b, x) == AtMost(a, x) + AtMost(b, x)
  {
    if b == [] {
      assert a + b == a;
    } else {
      CountsAppend(a, b[..|b| - 1], x);
      assert (a + b)[..|a + b| - 1] == a + b[..|b| - 1];
    }
  }

  lemma {:induction false} CountsOfInsert(y: real, s: seq<real>, x: real)
    ensures Below(Insert(y, s), x) == Below(s + [y], x) && AtMost(Insert(y, s), x) == AtMost(s + [y], x)
  {
    CountsAppend(s, [y], x);
    if s == [] || y < s[0] {
      CountsAppend([y], s, x);
      assert s == [] ==> [y] + s == s + [y];
    } else {
      CountsOfInsert(y, s[1..], x);
      CountsAppend(s[1..], [y], x);
      CountsAppend([s[0]], Insert(y, s[1..]), x);
      CountsAppend([s[0]], s[1..], x);
      assert s == [s[0]] + s[1..];
    }
  }

  lemma {:induction false} CountsOfSort(s: seq<real>, x: real)
    ensures Below(Sort(s), x) == Below(s, x) && AtMost(Sort(s), x) == AtMost(s, x)
  {
    if s == [] {
    } else {
      var p, y := s[..|s| - 1], s[|s| - 1];
      assert s == p + [y];
      CountsOfSort(p, x);
      CountsOfInsert(y, Sort(p), x);
      CountsAppend(Sort(p), [y], x);
      CountsAppend(p, [y], x);
    }
  }

  // ------------------------------------------------------------ sets of numbers

  /** The members of a set in increasing order. */
  function SortedKeys(s: set<int>): (r: seq<int>)
    ensures forall x :: x in r <==> x in s
    ensures forall i, j :: 0 <= i < j < |r| ==> r[i] < r[j]
  {
    if s == {} then []
    else
      var w := Least(s);
      [w] + SortedKeys(s - {w})
  }

  function Least(s: set<int>): (m: int)
    requires s != {}
    ensures m in s && forall x :: x in s ==> m <= x
  {
    assert exists m :: m in s && forall x :: x in s ==> m <= x by {
      var w := LeastOf(s);
    }
    var m :| m in s && forall x :: x in s ==> m <= x;
    m
  }

  lemma SomeMember(s: set<int>)
    ensures s == {} || exists x :: x in s
  {
    if forall x :: x !in s {
      assert s == {};
    }
  }

  ghost function LeastOf(s: set<int>): (m: int)
    requires s != {}
    ensures m in s && forall x :: x in s ==> m <= x
  {
    SomeMember(s);
    var x :| x in s;
    if s == {x} then x
    else
      var n := LeastOf(s - {x});
      assert forall y :: y in s ==> y == x || y in s - {x};
      if n < x then n else x
  }

  predicate Increasing(s: seq<int>) {
    forall i, j :: 0 <= i < j < |s| ==> s[i] < s[j]
  }

  lemma HeadIn(s: seq<int>)
    ensures s != [] ==> s[0] in s
  {
  }

  /** There is only one way to list a set in increasing order. */
  lemma {:induction false} OnlyOneOrder(a: seq<int>, b: seq<int>)
    requires Increasing(a) && Increasing(b) && forall x :: x in a <==> x in b
    ensures a == b
    decreases |a|
  {
    HeadIn(a);
    HeadIn(b);
    if a == [] {
    } else {
      assert a[0] == b[0];
      forall x ensures x in a[1..] <==> x in b[1..] {
        assert x in a[1..] <==> x in a && x != a[0];
        assert x in b[1..] <==> x in b && x != b[0];
      }
      OnlyOneOrder(a[1..], b[1..]);
    }
  }
}
