/** The files of split_history_by_topo_bufsz.py: the buckets are written one after
    another under names in which unusual characters are replaced.  */
module HistoryFiles {
  import opened Wrappers
  import opened Text
  import opened HistoryBlocks

  // ------------------------------------------------------------ file names

  /** A character that `sanitize` keeps. */
  predicate Tame(c: char) {
    'A' <= c <= 'Z' || 'a' <= c <= 'z' || IsDigit(c) || c == '.' || c == '_' || c == '-'
  }

  predicate AllTame(s: string) {
    forall k :: 0 <= k < |s| ==> Tame(s[k])
  }

  /** `sanitize(s)` */
  function Sanitize(s: string): (r: string)
    ensures |r| == |s| && AllTame(r) && (AllTame(s) ==> r == s)
    ensures forall k :: 0 <= k < |s| ==> r[k] == s[k] || (!Tame(s[k]) && r[k] == '_')
  {
    seq(|s|, k requires 0 <= k < |s| => if Tame(s[k]) then s[k] else '_')
  }

  function FlowControl(lossless: bool): string {
    if lossless then "Lossless" else "Lossy"
  }

  /** What follows the topology in a file's name. */
  function Suffix(key: Key): string {
    "__" + (Sanitize(FlowControl(key.lossless)) + ("__bufsz_" + (Sanitize(key.bufferSize) + ".txt")))
  }

  function FileName(key: Key): string {
    Sanitize(key.topology) + Suffix(key)
  }

  // ------------------------------------------------------------ the order of writing

  /** Python's order on strings. */
  predicate StringLess(a: string, b: string) {
    b != "" && (a == "" || a[0] < b[0] || (a[0] == b[0] && StringLess(a[1..], b[1..])))
  }

  /** Python's order on the tuples that name the buckets. */
  predicate KeyLess(a: Key, b: Key) {
    if a.topology != b.topology then StringLess(a.topology, b.topology)
    else if a.lossless != b.lossless then StringLess(FlowControl(a.lossless), FlowControl(b.lossless))
    else StringLess(a.bufferSize, b.bufferSize)
  }

  /** After `k` common characters `a` ends, or has the smaller character. */
  predicate LessAt(a: string, b: string, k: nat) {
    k <= |a| && k < |b| && a[..k] == b[..k] && (k == |a| || a[k] < b[k])
  }

  /** The order is that of the first difference. */
  lemma {:induction false} FirstDifferenceDecides(a: string, b: string)
    ensures StringLess(a, b) <==> exists k: nat :: LessAt(a, b, k)
  {
    if a == "" || b == "" {
      assert b != "" && a == "" ==> LessAt(a, b, 0);
    } else {
      FirstDifferenceDecides(a[1..], b[1..]);
      assert a[0] < b[0] ==> LessAt(a, b, 0);
      if a[0] == b[0] {
        if k: nat :| LessAt(a[1..], b[1..], k) {
          assert a[..k + 1] == [a[0]] + a[1..][..k] && b[..k + 1] == [b[0]] + b[1..][..k];
          assert LessAt(a, b, k + 1);
        }
      }
      if k: nat :| LessAt(a, b, k) {
        LessAtTail(a, b, k);
      }
    }
  }

  lemma LessAtTail(a: string, b: string, k: nat)
    requires a != "" && b != "" && LessAt(a, b, k)
    ensures k == 0 ==> a[0] < b[0]
    ensures k > 0 ==> a[0] == b[0] && LessAt(a[1..], b[1..], k - 1)
  {
    if k > 0 {
      assert a[0] == a[..k][0] && b[0] == b[..k][0];
      assert a[1..][..k - 1] == a[..k][1..] && b[1..][..k - 1] == b[..k][1..];
    }
  }

  lemma {:induction false} StringsAreOrdered(a: string, b: string)
    ensures StringLess(a, b) || a == b || StringLess(b, a)
    ensures !(StringLess(a, b) && StringLess(b, a)) && !StringLess(a, a)
    decreases |a|
  {
    if a == "" || b == "" {
      if a != "" {
        NotBefore(a);
      }
    } else {
      StringsAreOrdered(a[1..], b[1..]);
      NotBefore(a);
      if a[0] == b[0] && a[1..] == b[1..] {
        assert a == [a[0]] + a[1..] && b == [b[0]] + b[1..];
      }
    }
  }

  lemma {:induction false} NotBefore(a: string)
    ensures !StringLess(a, a)
  {
    if a == "" {
    } else {
      NotBefore(a[1..]);
    }
  }

  lemma {:induction false} StringsChain(a: string, b: string, c: string)
    requires StringLess(a, b) && StringLess(b, c)
    ensures StringLess(a, c)
  {
    if a == "" {
    } else if a[0] == b[0] == c[0] {
      StringsChain(a[1..], b[1..], c[1..]);
    }
  }

  lemma KeysAreOrdered(a: Key, b: Key)
    ensures KeyLess(a, b) || a == b || KeyLess(b, a)
    ensures !(KeyLess(a, b) && KeyLess(b, a)) && !KeyLess(a, a)
  {
    hide StringLess, FlowControl;
    StringsAreOrdered(a.topology, b.topology);
    StringsAreOrdered(FlowControl(a.lossless), FlowControl(b.lossless));
    StringsAreOrdered(a.bufferSize, b.bufferSize);
    StringsAreOrdered(a.bufferSize, a.bufferSize);
    FlowControls();
  }

  lemma FlowControls()
    ensures FlowControl(true) != FlowControl(false)
  {
  }

  lemma KeysChain(a: Key, b: Key, c: Key)
    requires KeyLess(a, b) && KeyLess(b, c)
    ensures KeyLess(a, c)
  {
    hide StringLess, FlowControl;
    KeysAreOrdered(a, b);
    KeysAreOrdered(b, c);
    StringsAreOrdered(a.topology, b.topology);
    if a.topology != b.topology && b.topology != c.topology {
      StringsChain(a.topology, b.topology, c.topology);
      StringsAreOrdered(a.topology, c.topology);
    } else if a.topology == b.topology == c.topology && a.lossless == b.lossless == c.lossless {
      StringsChain(a.bufferSize, b.bufferSize, c.bufferSize);
    }
    StringsAreOrdered(FlowControl(a.lossless), FlowControl(b.lossless));
  }

  // ------------------------------------------------------------ sorting the buckets

  predicate First(k: Key, s: set<Key>) {
    k in s && forall x :: x in s ==> x == k || KeyLess(k, x)
  }

  lemma SomeKey(s: set<Key>)
    ensures s == {} || exists k :: k in s
  {
    if forall k :: k !in s {
      assert s == {};
    }
  }

  lemma {:induction false} FirstExists(s: set<Key>)
    requires s != {}
    ensures exists k :: First(k, s)
  {
    hide KeyLess;
    SomeKey(s);
    var k :| k in s;
    var others := s - {k};
    assert s == others + {k};
    if others == {} {
      assert First(k, s);
    } else {
      FirstExists(others);
      var l :| First(l, others);
      KeysAreOrdered(k, l);
      if KeyLess(k, l) {
        forall x | x in others ensures KeyLess(k, x) {
          if x != l {
            KeysChain(k, l, x);
          }
        }
        assert First(k, s);
      } else {
        assert First(l, s);
      }
    }
  }

  lemma FirstIsOne(s: set<Key>, k: Key, l: Key)
    ensures First(k, s) && First(l, s) ==> k == l
  {
    hide KeyLess;
    KeysAreOrdered(k, l);
  }

  function FirstOf(s: set<Key>): (k: Key)
    requires s != {}
    ensures First(k, s)
  {
    FirstExists(s);
    assert forall k, l :: First(k, s) && First(l, s) ==> k == l by {
      forall k, l ensures First(k, s) && First(l, s) ==> k == l {
        FirstIsOne(s, k, l);
      }
    }
    var k :| First(k, s);
    k
  }

  /** `sorted(buckets.items())`, without the texts. */
  function SortedKeys(s: set<Key>): (r: seq<Key>)
    ensures forall k :: k in r <==> k in s
    ensures forall i, j :: 0 <= i < j < |r| ==> KeyLess(r[i], r[j])
  {
    hide KeyLess, FirstOf;
    if s == {} then []
    else
      var k := FirstOf(s);
      KeysAreOrdered(k, k);
      [k] + SortedKeys(s - {k})
  }

  // ------------------------------------------------------------ what the files hold

  /** The bucket of this key has blocks. */
  predicate Filled(bs: seq<Block>, key: Key) {
    InBucket(bs, key) != []
  }

  /** A later bucket is written to the same file. */
  ghost predicate Overwritten(bs: seq<Block>, key: Key) {
    exists later :: Filled(bs, later) && KeyLess(key, later) && FileName(later) == FileName(key)
  }

  /** The text of a bucket. */
  function BucketText(bs: seq<Block>, key: Key): string {
    Concat(Texts(InBucket(bs, key)))
  }

  /** The directory after the run, by file name: each file holds the text of the
      last bucket written to it.  */
  ghost predicate Written(files: map<string, string>, bs: seq<Block>) {
    && (forall name :: name in files ==>
         exists key :: Filled(bs, key) && !Overwritten(bs, key) && FileName(key) == name)
    && (forall key :: Filled(bs, key) && !Overwritten(bs, key) ==>
         FileName(key) in files && files[FileName(key)] == BucketText(bs, key))
  }

  /** No block is lost: every bucket can be read back from its file. */
  ghost predicate NothingLost(files: map<string, string>, bs: seq<Block>) {
    forall key :: Filled(bs, key) ==>
      FileName(key) in files && Blocks(Lines(files[FileName(key)])) == InBucket(bs, key)
  }

  ghost predicate NamesDiffer(bs: seq<Block>) {
    forall a, b :: Filled(bs, a) && Filled(bs, b) && a != b ==> FileName(a) != FileName(b)
  }

  /** Among the first `n` written, the last one with its name. */
  ghost predicate LastOfName(order: seq<Key>, n: nat, i: int) {
    && 0 <= i < n <= |order|
    && forall j :: i < j < n ==> FileName(order[j]) != FileName(order[i])
  }

  /** The directory after `n` files have been written. */
  ghost predicate WrittenUpTo(files: map<string, string>, order: seq<Key>, n: nat, buckets: Buckets) {
    && n <= |order|
    && (forall k :: k in order ==> k in buckets)
    && (forall name :: name in files ==>
         exists i :: 0 <= i < n && LastOfName(order, n, i) && FileName(order[i]) == name)
    && (forall i :: 0 <= i < n && LastOfName(order, n, i) ==>
         FileName(order[i]) in files && files[FileName(order[i])] == Concat(buckets[order[i]]))
  }

  lemma LastStep(order: seq<Key>, n: nat, i: int)
    requires n < |order|
    ensures 0 <= i < n ==>
      (LastOfName(order, n + 1, i) <==> LastOfName(order, n, i) && FileName(order[n]) != FileName(order[i]))
    ensures LastOfName(order, n + 1, n)
  {
  }

  lemma OneMoreFile(files: map<string, string>, order: seq<Key>, n: nat, buckets: Buckets)
    requires n < |order| && WrittenUpTo(files, order, n, buckets)
    ensures WrittenUpTo(files[FileName(order[n]) := Concat(buckets[order[n]])], order, n + 1, buckets)
  {
    hide FileName, Concat, LastOfName;
    var after := files[FileName(order[n]) := Concat(buckets[order[n]])];
    LastStep(order, n, n);
    forall name | name in after
      ensures exists i :: 0 <= i < n + 1 && LastOfName(order, n + 1, i) && FileName(order[i]) == name
    {
      if name != FileName(order[n]) {
        var i :| 0 <= i < n && LastOfName(order, n, i) && FileName(order[i]) == name;
        LastStep(order, n, i);
      }
    }
    forall i | 0 <= i < n + 1 && LastOfName(order, n + 1, i)
      ensures FileName(order[i]) in after && after[FileName(order[i])] == Concat(buckets[order[i]])
    {
      LastStep(order, n, i);
    }
  }

  ghost predicate InOrder(order: seq<Key>, bs: seq<Block>) {
    && (forall k :: k in order <==> Filled(bs, k))
    && forall i, j :: 0 <= i < j < |order| ==> KeyLess(order[i], order[j])
  }

  /** The last one with its name is the one that is not overwritten. */
  lemma LastIsKept(order: seq<Key>, bs: seq<Block>, i: nat)
    requires InOrder(order, bs) && i < |order|
    ensures LastOfName(order, |order|, i) <==> !Overwritten(bs, order[i])
  {
    hide FileName, KeyLess, Filled;
    if !LastOfName(order, |order|, i) {
      var j :| i < j < |order| && FileName(order[j]) == FileName(order[i]);
      assert order[j] in order && KeyLess(order[i], order[j]);
    }
    if later :| Filled(bs, later) && KeyLess(order[i], later) && FileName(later) == FileName(order[i]) {
      assert later in order;
      var j :| 0 <= j < |order| && order[j] == later;
      LaterPlace(order, bs, i, j);
    }
  }

  lemma LaterPlace(order: seq<Key>, bs: seq<Block>, i: nat, j: nat)
    requires InOrder(order, bs) && i < |order| && j < |order| && KeyLess(order[i], order[j])
    ensures i < j
  {
    hide KeyLess, Filled;
    KeysAreOrdered(order[i], order[j]);
  }

  lemma AllWritten(files: map<string, string>, order: seq<Key>, bs: seq<Block>, buckets: Buckets)
    requires Sorted(buckets, bs) && InOrder(order, bs) && WrittenUpTo(files, order, |order|, buckets)
    ensures Written(files, bs)
  {
    hide FileName, KeyLess, Overwritten, LastOfName, Concat, Texts;
    forall name | name in files
      ensures exists key :: Filled(bs, key) && !Overwritten(bs, key) && FileName(key) == name
    {
      var i :| 0 <= i < |order| && LastOfName(order, |order|, i) && FileName(order[i]) == name;
      LastIsKept(order, bs, i);
      assert order[i] in order;
    }
    forall key | Filled(bs, key) && !Overwritten(bs, key)
      ensures FileName(key) in files && files[FileName(key)] == BucketText(bs, key)
    {
      assert key in order;
      var i :| 0 <= i < |order| && order[i] == key;
      LastIsKept(order, bs, i);
    }
  }

  // ------------------------------------------------------------ which file a block is in

  /** The block has a bucket: columns enough, and a number in column 10. */
  predicate Counted(b: Block) {
    var columns := Fields(b.data);
    |columns| >= 25 && ParseInt(columns[10]).Some?
  }

  /** The file that is named after the columns of a block. */
  function NameFor(b: Block): string
    requires Counted(b)
  {
    var columns := Fields(b.data);
    Sanitize(columns[15])
    + (if ParseInt(columns[10]).value == 1 then "__Lossless__bufsz_" else "__Lossy__bufsz_")
    + Sanitize(columns[24]) + ".txt"
  }

  /** A block is counted exactly if it belongs to a bucket, and the bucket's file
      is the one named after its columns.  */
  lemma FileOfBlock(b: Block)
    ensures Counted(b) <==> KeyOf(b).Some?
    ensures Counted(b) ==> FileName(KeyOf(b).value) == NameFor(b)
  {
    hide Fields, ParseInt, FileName;
    if Counted(b) {
      NameInFull(KeyOf(b).value);
    }
  }

  /** The name of a file in one piece. */
  lemma NameInFull(key: Key)
    ensures FileName(key) == Sanitize(key.topology)
      + (if key.lossless then "__Lossless__bufsz_" else "__Lossy__bufsz_")
      + Sanitize(key.bufferSize) + ".txt"
  {
    hide Sanitize, AllTame, FlowControl;
    FlowControlIsTame(key.lossless);
    Middle(key.lossless);
    Join(Sanitize(key.topology), "__", FlowControl(key.lossless), "__bufsz_", Sanitize(key.bufferSize), ".txt");
  }

  lemma FlowControlIsTame(lossless: bool)
    ensures Sanitize(FlowControl(lossless)) == FlowControl(lossless)
  {
    assert AllTame("Lossless") && AllTame("Lossy");
  }

  lemma Middle(lossless: bool)
    ensures "__" + FlowControl(lossless) + "__bufsz_"
      == if lossless then "__Lossless__bufsz_" else "__Lossy__bufsz_"
  {
  }

  lemma Join<T>(a: seq<T>, b: seq<T>, c: seq<T>, d: seq<T>, e: seq<T>, f: seq<T>)
    ensures a + (b + (c + (d + (e + f)))) == a + (b + c + d) + e + f
  {
  }

  lemma {:induction false} OwnBucket(bs: seq<Block>, b: Block, key: Key)
    requires b in bs && KeyOf(b) == Some(key)
    ensures b in InBucket(bs, key)
  {
    hide KeyOf;
    if bs[|bs| - 1] == b {
    } else {
      OwnBucket(bs[..|bs| - 1], b, key);
    }
  }

  lemma {:induction false} BucketBlock(bs: seq<Block>, key: Key) returns (b: Block)
    requires Filled(bs, key)
    ensures b in bs && KeyOf(b) == Some(key)
  {
    hide KeyOf;
    if KeyOf(bs[|bs| - 1]) == Some(key) {
      b := bs[|bs| - 1];
    } else {
      b := BucketBlock(bs[..|bs| - 1], key);
    }
  }

  /** The files are exactly those named after the columns of the counted blocks,
      and if the names of the buckets differ, every counted block can be read
      back from the file named after its columns.  */
  ghost predicate FiledByColumns(files: map<string, string>, bs: seq<Block>) {
    && (forall b :: b in bs && Counted(b) ==> NameFor(b) in files)
    && (forall name :: name in files ==> exists b :: b in bs && Counted(b) && NameFor(b) == name)
    && (NamesDiffer(bs) ==> forall b :: b in bs && Counted(b) ==> b in Blocks(Lines(files[NameFor(b)])))
  }

  predicate Last(k: Key, s: set<Key>) {
    k in s && forall x :: x in s ==> x == k || KeyLess(x, k)
  }

  lemma {:induction false} LastExists(s: set<Key>)
    ensures s == {} || exists k :: Last(k, s)
  {
    hide KeyLess;
    SomeKey(s);
    if k :| k in s {
      var others := s - {k};
      assert s == others + {k};
      LastExists(others);
      if others == {} {
        assert Last(k, s);
      } else {
        var l :| Last(l, others);
        KeysAreOrdered(k, l);
        if KeyLess(k, l) {
          assert Last(l, s);
        } else {
          forall x | x in others ensures KeyLess(x, k) {
            if x != l {
              KeysChain(x, l, k);
            }
          }
          assert Last(k, s);
        }
      }
    }
  }

  /** Of the buckets with one file name, one is written last. */
  lemma SomeoneWritesLast(bs: seq<Block>, key: Key, keys: set<Key>) returns (last: Key)
    requires Filled(bs, key) && forall k :: k in keys <==> Filled(bs, k) && FileName(k) == FileName(key)
    ensures Filled(bs, last) && FileName(last) == FileName(key) && !Overwritten(bs, last)
  {
    hide FileName, KeyLess, Filled;
    LastExists(keys);
    assert key in keys;
    last :| Last(last, keys);
    forall later | Filled(bs, later) && FileName(later) == FileName(last) ensures !KeyLess(last, later) {
      assert later in keys;
      KeysAreOrdered(last, later);
    }
  }

  lemma AllFiled(files: map<string, string>, text: string, keys: set<Key>)
    requires Written(files, Blocks(Lines(text))) && forall k :: k in keys <==> Filled(Blocks(Lines(text)), k)
    ensures FiledByColumns(files, Blocks(Lines(text)))
  {
    hide Blocks, Lines, FileName, KeyLess, KeyOf, Counted, NameFor, NamesDiffer, InBucket, Concat, Texts;
    var bs := Blocks(Lines(text));
    NothingLostExactlyWhen(files, text);
    forall b | b in bs && Counted(b)
      ensures NameFor(b) in files && (NamesDiffer(bs) ==> b in Blocks(Lines(files[NameFor(b)])))
    {
      FileOfBlock(b);
      var key := KeyOf(b).value;
      OwnBucket(bs, b, key);
      var last := SomeoneWritesLast(bs, key, set k | k in keys && FileName(k) == FileName(key));
    }
    forall name | name in files ensures exists b :: b in bs && Counted(b) && NameFor(b) == name {
      var key :| Filled(bs, key) && !Overwritten(bs, key) && FileName(key) == name;
      var b := BucketBlock(bs, key);
      FileOfBlock(b);
    }
  }

  // ------------------------------------------------------------ the script

  /** The whole script. */
  method SplitHistory(text: string) returns (files: map<string, string>, buckets: Buckets, skipped: nat)
    ensures Sizes(buckets) + skipped == |Blocks(Lines(text))| && skipped == Skipped(Blocks(Lines(text)))
    ensures Sorted(buckets, Blocks(Lines(text)))
    ensures Written(files, Blocks(Lines(text)))
    ensures FiledByColumns(files, Blocks(Lines(text)))
    ensures NothingLost(files, Blocks(Lines(text))) <==> NamesDiffer(Blocks(Lines(text)))
  {
    hide FiledByColumns;
    hide Lines, Blocks, Texts, Concat, Skipped, FileName, KeyLess, WrittenUpTo, Written, NothingLost, NamesDiffer;
    var blocks := IterBlocks(Lines(text));
    buckets, skipped := SortIntoBuckets(blocks);
    var order := SortedKeys(buckets.Keys);
    files := map[];
    NothingWritten(order, buckets);
    for i := 0 to |order|
      invariant WrittenUpTo(files, order, i, buckets)
    {
      assert order[i] in order;
      OneMoreFile(files, order, i, buckets);
      files := files[FileName(order[i]) := Concat(buckets[order[i]])];
    }
    AllWritten(files, order, blocks, buckets);
    NothingLostExactlyWhen(files, text);
    AllFiled(files, text, buckets.Keys);
  }

  lemma NothingWritten(order: seq<Key>, buckets: Buckets)
    requires forall k :: k in order ==> k in buckets
    ensures WrittenUpTo(map[], order, 0, buckets)
  {
  }

  // ------------------------------------------------------------ when no block is lost

  lemma {:induction false} OwnKey(bs: seq<Block>, key: Key)
    requires Filled(bs, key)
    ensures KeyOf(InBucket(bs, key)[0]) == Some(key)
  {
    hide KeyOf;
    var before, b := bs[..|bs| - 1], bs[|bs| - 1];
    if InBucket(before, key) == [] {
    } else {
      OwnKey(before, key);
    }
  }

  /** Different buckets hold different blocks. */
  lemma BucketsDiffer(bs: seq<Block>, a: Key, b: Key)
    requires Filled(bs, a) && Filled(bs, b) && a != b
    ensures InBucket(bs, a) != InBucket(bs, b)
  {
    hide KeyOf, InBucket;
    OwnKey(bs, a);
    OwnKey(bs, b);
  }

  /** Every bucket can be read back from its file if and only if no two buckets
      with blocks have the same file name.  */
  lemma NothingLostExactlyWhen(files: map<string, string>, text: string)
    requires Written(files, Blocks(Lines(text)))
    ensures NothingLost(files, Blocks(Lines(text))) <==> NamesDiffer(Blocks(Lines(text)))
  {
    hide Lines, Blocks, Texts, Concat, FileName, KeyLess, Filled, InBucket;
    var bs := Blocks(Lines(text));
    if NamesDiffer(bs) {
      forall key | Filled(bs, key)
        ensures FileName(key) in files && Blocks(Lines(files[FileName(key)])) == InBucket(bs, key)
      {
        NotOverwritten(bs, key);
        BucketReadsBack(text, key);
      }
    }
    if NothingLost(files, bs) {
      forall a, b | Filled(bs, a) && Filled(bs, b) && a != b ensures FileName(a) != FileName(b) {
        BucketsDiffer(bs, a, b);
      }
    }
  }

  lemma NotOverwritten(bs: seq<Block>, key: Key)
    requires NamesDiffer(bs) && Filled(bs, key)
    ensures !Overwritten(bs, key)
  {
    hide FileName, KeyLess, Filled;
    forall later ensures KeyLess(key, later) ==> later != key {
      KeysAreOrdered(key, key);
    }
  }

  /** No underscore in `t` is followed by another or by the end. */
  predicate SingleUnderscores(t: string) {
    forall k :: 0 <= k < |t| && t[k] == '_' ==> k + 1 < |t| && t[k + 1] != '_'
  }

  predicate Plain(key: Key) {
    AllTame(key.topology) && AllTame(key.bufferSize) && SingleUnderscores(key.topology)
  }

  /** Among buckets of this kind the file name tells the bucket. */
  lemma PlainNamesDiffer(a: Key, b: Key)
    requires Plain(a) && Plain(b) && FileName(a) == FileName(b)
    ensures a == b
  {
    hide Suffix, AllTame, SingleUnderscores;
    var name := FileName(a);
    NameBegins(a);
    NameBegins(b);
    NotEarlier(name, a.topology, b.topology);
    NotEarlier(name, b.topology, a.topology);
    assert name[|a.topology|..] == Suffix(a) && name[|b.topology|..] == Suffix(b);
    SuffixTells(a, b);
  }

  /** `name` starts with `t` and two underscores. */
  predicate Begins(name: string, t: string) {
    |name| > |t| + 1 && name[..|t|] == t && name[|t|] == '_' && name[|t| + 1] == '_'
  }

  lemma NameBegins(key: Key)
    requires AllTame(key.topology)
    ensures Begins(FileName(key), key.topology)
  {
    var n := |key.topology|;
    assert FileName(key)[n] == Suffix(key)[0] && FileName(key)[n + 1] == Suffix(key)[1];
  }

  lemma NotEarlier(name: string, t: string, u: string)
    requires Begins(name, t) && Begins(name, u) && SingleUnderscores(u)
    ensures |t| >= |u|
  {
    assert forall k :: 0 <= k < |u| ==> name[..|u|][k] == name[k];
  }

  lemma SuffixTells(a: Key, b: Key)
    requires AllTame(a.bufferSize) && AllTame(b.bufferSize) && Suffix(a) == Suffix(b)
    ensures a.lossless == b.lossless && a.bufferSize == b.bufferSize
  {
    hide Suffix, Sanitize;
    SuffixParts(a);
    SuffixParts(b);
  }

  lemma SuffixParts(key: Key)
    requires AllTame(key.bufferSize)
    ensures var n := 2 + |FlowControl(key.lossless)| + 8; var s := Suffix(key);
      && |s| == n + |key.bufferSize| + 4 && s[6] == (if key.lossless then 'l' else 'y')
      && s[n..|s| - 4] == key.bufferSize
  {
    FlowControlIsTame(key.lossless);
    hide Sanitize, AllTame;
    var f, b := FlowControl(key.lossless), key.bufferSize;
    assert Suffix(key) == "__" + (f + ("__bufsz_" + (b + ".txt")));
    assert Suffix(key)[6] == f[4];
  }

  // ------------------------------------------------------------ a history with two buckets

  predicate NoComma(s: string) {
    forall k :: 0 <= k < |s| ==> s[k] != ','
  }

  /** A text that fits into one column. */
  predicate Column(s: string) {
    NoComma(s) && NoNewline(s)
  }

  /** A line of columns. */
  function Commas(columns: seq<string>): string
    requires columns != []
  {
    if |columns| == 1 then columns[0] else columns[0] + ("," + Commas(columns[1..]))
  }

  lemma {:induction false} FieldsOfOne(s: string)
    requires NoComma(s)
    ensures Fields(s) == [s]
  {
    if s == "" {
    } else {
      FieldsOfOne(s[1..]);
      assert s == [s[0]] + s[1..];
    }
  }

  lemma {:induction false} FieldsOfMore(s: string, rest: string)
    requires NoComma(s)
    ensures Fields(s + ("," + rest)) == [s] + Fields(rest)
  {
    var all := s + ("," + rest);
    if s == "" {
      assert all[1..] == rest && all[0] == ',';
    } else {
      FieldsOfMore(s[1..], rest);
      assert all[1..] == s[1..] + ("," + rest) && s == [s[0]] + s[1..];
    }
  }

  lemma {:induction false} FieldsOfCommas(columns: seq<string>)
    requires columns != [] && forall k :: 0 <= k < |columns| ==> NoComma(columns[k])
    ensures Fields(Commas(columns)) == columns
  {
    hide Fields, NoComma;
    if |columns| == 1 {
      FieldsOfOne(columns[0]);
    } else {
      FieldsOfCommas(columns[1..]);
      FieldsOfMore(columns[0], Commas(columns[1..]));
    }
  }

  lemma {:induction false} CommasOnOneLine(columns: seq<string>)
    requires columns != [] && forall k :: 0 <= k < |columns| ==> NoNewline(columns[k])
    ensures NoNewline(Commas(columns))
  {
    if |columns| == 1 {
    } else {
      CommasOnOneLine(columns[1..]);
    }
  }

  /** The columns of a line that belongs to the bucket `key`. */
  function ColumnsFor(key: Key): (r: seq<string>)
    ensures |r| == 25 && r[10] == (if key.lossless then "1" else "0")
    ensures r[0] == "01/01/01" && r[15] == key.topology && r[24] == key.bufferSize
    ensures Column(key.topology) && Column(key.bufferSize) ==> forall k :: 0 <= k < |r| ==> Column(r[k])
  {
    seq(25, k requires 0 <= k < 25 =>
      if k == 0 then "01/01/01"
      else if k == 10 then (if key.lossless then "1" else "0")
      else if k == 15 then key.topology
      else if k == 24 then key.bufferSize
      else "0")
  }

  function BlockFor(key: Key): Block {
    Block(Commas(ColumnsFor(key)), [])
  }

  lemma FlowControlReads()
    ensures ParseInt("1") == Some(1) && ParseInt("0") == Some(0)
  {
    assert SkipSpacesAtEnd("1") == "1" && SkipSpacesAtEnd("0") == "0";
    assert "1"[..0] == "" && "0"[..0] == "" && Value("") == 0;
  }

  lemma BlockForIs(key: Key)
    requires Column(key.topology) && Column(key.bufferSize)
    ensures Storable(BlockFor(key)) && KeyOf(BlockFor(key)) == Some(key)
  {
    hide Fields, ParseInt, Column;
    var columns := ColumnsFor(key);
    var line := Commas(columns);
    assert forall k :: 0 <= k < |columns| ==> Column(columns[k]);
    ColumnsAre(columns);
    FieldsOfCommas(columns);
    CommasOnOneLine(columns);
    FlowControlReads();
    assert line[..9] == "01/01/01,";
    assert line[0] == line[..9][0];
  }

  lemma ColumnsAre(columns: seq<string>)
    requires forall k :: 0 <= k < |columns| ==> Column(columns[k])
    ensures forall k :: 0 <= k < |columns| ==> NoComma(columns[k]) && NoNewline(columns[k])
  {
  }

  /** A history file with one block for each of two buckets. */
  function HistoryOf(a: Key, b: Key): string {
    Concat(AllLines([BlockFor(a), BlockFor(b)]))
  }

  lemma HistoryOfReads(a: Key, b: Key)
    requires Column(a.topology) && Column(a.bufferSize) && Column(b.topology) && Column(b.bufferSize)
    ensures Blocks(Lines(HistoryOf(a, b))) == [BlockFor(a), BlockFor(b)]
  {
    hide Blocks, Lines, AllLines, BlockFor, Column, Storable;
    BlockForIs(a);
    BlockForIs(b);
    var bs := [BlockFor(a), BlockFor(b)];
    AllLinesAreLines(bs);
    LinesOfConcat(AllLines(bs));
    AllRead(bs);
  }

  lemma TwoFilled(a: Key, b: Key, key: Key)
    requires KeyOf(BlockFor(a)) == Some(a) && KeyOf(BlockFor(b)) == Some(b)
    ensures Filled([BlockFor(a), BlockFor(b)], key) <==> key == a || key == b
  {
    hide KeyOf, BlockFor;
    var bs := [BlockFor(a), BlockFor(b)];
    assert bs[..1] == [BlockFor(a)] && bs[..1][..0] == [];
    assert InBucket(bs[..1][..0], key) == [];
    InBucketStep(bs, key);
    InBucketStep(bs[..1], key);
  }

  /** For any two different buckets there is a history in which a block is lost
      exactly if their file names are the same.  */
  lemma SameNameLosesBlocks(a: Key, b: Key, files: map<string, string>)
    requires Column(a.topology) && Column(a.bufferSize) && Column(b.topology) && Column(b.bufferSize)
    requires a != b && Written(files, Blocks(Lines(HistoryOf(a, b))))
    ensures NothingLost(files, Blocks(Lines(HistoryOf(a, b)))) <==> FileName(a) != FileName(b)
  {
    hide Blocks, Lines, BlockFor, HistoryOf, Column, KeyOf, Filled, FileName, Written, NothingLost;
    BlockForIs(a);
    BlockForIs(b);
    HistoryOfReads(a, b);
    NothingLostExactlyWhen(files, HistoryOf(a, b));
    var bs := [BlockFor(a), BlockFor(b)];
    forall key ensures Filled(bs, key) <==> key == a || key == b {
      TwoFilled(a, b, key);
    }
  }

  /** So the topologies `a b` and `a_b` lose a block: their file holds only that
      of `a_b`, which comes later.  */
  lemma SpaceCollides(files: map<string, string>)
    requires Written(files, Blocks(Lines(HistoryOf(Key("a b", true, "1"), Key("a_b", true, "1")))))
    ensures !NothingLost(files, Blocks(Lines(HistoryOf(Key("a b", true, "1"), Key("a_b", true, "1")))))
    ensures files.Keys == {"a_b__Lossless__bufsz_1.txt"}
    ensures Blocks(Lines(files["a_b__Lossless__bufsz_1.txt"])) == [BlockFor(Key("a_b", true, "1"))]
  {
    hide Blocks, Lines, HistoryOf, Written, NothingLost, FileName, KeyOf, BlockFor;
    var a, b := Key("a b", true, "1"), Key("a_b", true, "1");
    assert Sanitize("a b") == Sanitize("a_b");
    assert "a b"[1] != "a_b"[1];
    CollidingNames(a, b);
    SameNameLosesBlocks(a, b, files);
    assert LessAt("a b", "a_b", 1);
    FirstDifferenceDecides("a b", "a_b");
    LaterKeyStays(a, b, files);
  }

  lemma CollidingNames(a: Key, b: Key)
    requires a == Key("a b", true, "1") && b == Key("a_b", true, "1")
    ensures FileName(a) == FileName(b) == "a_b__Lossless__bufsz_1.txt"
  {
    assert Sanitize("a b") == "a_b" && Sanitize("a_b") == "a_b" && Sanitize("1") == "1";
    hide Sanitize, FileName;
    NameInFull(a);
    NameInFull(b);
    assert "a_b" + "__Lossless__bufsz_" + "1" + ".txt" == "a_b__Lossless__bufsz_1.txt";
  }

  /** Of two buckets with one name, the later one's block is left. */
  lemma LaterKeyStays(a: Key, b: Key, files: map<string, string>)
    requires Column(a.topology) && Column(a.bufferSize) && Column(b.topology) && Column(b.bufferSize)
    requires KeyLess(a, b) && FileName(a) == FileName(b) && Written(files, Blocks(Lines(HistoryOf(a, b))))
    ensures files.Keys == {FileName(b)}
    ensures Blocks(Lines(files[FileName(b)])) == [BlockFor(b)]
  {
    hide Blocks, Lines, BlockFor, HistoryOf, Column, KeyOf, FileName, KeyLess, InBucket, Concat, Texts;
    BlockForIs(a);
    BlockForIs(b);
    HistoryOfReads(a, b);
    KeysAreOrdered(a, b);
    KeysAreOrdered(b, b);
    var bs := [BlockFor(a), BlockFor(b)];
    forall key ensures Filled(bs, key) <==> key == a || key == b {
      TwoFilled(a, b, key);
    }
    assert Overwritten(bs, a) && !Overwritten(bs, b);
    assert files.Keys == {FileName(b)};
    BucketReadsBack(HistoryOf(a, b), b);
    SecondBucket(a, b);
  }

  lemma SecondBucket(a: Key, b: Key)
    requires KeyOf(BlockFor(a)) == Some(a) && KeyOf(BlockFor(b)) == Some(b) && a != b
    ensures InBucket([BlockFor(a), BlockFor(b)], b) == [BlockFor(b)]
  {
    hide KeyOf, BlockFor;
    var bs := [BlockFor(a), BlockFor(b)];
    assert bs[..1] == [BlockFor(a)] && bs[..1][..0] == [];
    assert InBucket(bs[..1][..0], b) == [];
    InBucketStep(bs, b);
    InBucketStep(bs[..1], b);
  }
}
