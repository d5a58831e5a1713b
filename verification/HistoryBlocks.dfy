/** simulation/mix/split_history_by_topo_bufsz.py: the blocks of a history file,
    sorted into one file per topology, flow control and buffer size.  */
module HistoryBlocks {
  import opened Wrappers
  import opened Text

  // ------------------------------------------------------------ blocks

  /** What the date pattern matches: two digits, a slash, and so on, a comma. */
  predicate IsData(line: string) {
    |line| >= 9 &&
    IsDigit(line[0]) && IsDigit(line[1]) && line[2] == '/' &&
    IsDigit(line[3]) && IsDigit(line[4]) && line[5] == '/' &&
    IsDigit(line[6]) && IsDigit(line[7]) && line[8] == ','
  }

  /** Six digits, in three pairs, and whatever follows them. */
  predicate DatedBy(line: string, digits: string, rest: string) {
    |digits| == 6 && AllDigits(digits)
    && line == digits[..2] + "/" + digits[2..4] + "/" + digits[4..] + "," + rest
  }

  /** A data line is one that starts with a date and a comma. */
  lemma DataLineIsDated(line: string)
    ensures IsData(line) <==> exists digits, rest :: DatedBy(line, digits, rest)
  {
    if IsData(line) {
      var digits := [line[0], line[1], line[3], line[4], line[6], line[7]];
      var rest := line[9..];
      DateIs(digits);
      assert line[..9] == [digits[0], digits[1], '/', digits[2], digits[3], '/', digits[4], digits[5], ','];
      assert line == line[..9] + rest;
      assert DatedBy(line, digits, rest);
    }
    if digits, rest :| DatedBy(line, digits, rest) {
      DatedIsData(line, digits, rest);
    }
  }

  lemma DatedIsData(line: string, digits: string, rest: string)
    requires DatedBy(line, digits, rest)
    ensures IsData(line)
  {
    DateIs(digits);
    var date := [digits[0], digits[1], '/', digits[2], digits[3], '/', digits[4], digits[5], ','];
    assert line == date + rest;
    assert forall k :: 0 <= k < 9 ==> line[k] == date[k];
  }

  lemma DateIs(digits: string)
    requires |digits| == 6
    ensures digits[..2] + "/" + digits[2..4] + "/" + digits[4..] + ","
         == [digits[0], digits[1], '/', digits[2], digits[3], '/', digits[4], digits[5], ',']
  {
  }

  /** `rstrip("\n")` */
  function Chomp(line: string): (r: string)
    ensures |r| <= |line| && r == line[..|r|]
    ensures r == "" || r[|r| - 1] != '\n'
  {
    if line == "" || line[|line| - 1] != '\n' then line else Chomp(line[..|line| - 1])
  }

  function ChompAll(lines: seq<string>): (r: seq<string>)
    ensures |r| == |lines| && forall k :: 0 <= k < |lines| ==> r[k] == Chomp(lines[k])
  {
    seq(|lines|, k requires 0 <= k < |lines| => Chomp(lines[k]))
  }

  predicate Blank(line: string) {
    SkipSpaces(line) == ""
  }

  lemma {:induction false} BlankMeans(line: string)
    ensures Blank(line) <==> forall k :: 0 <= k < |line| ==> IsSpace(line[k])
  {
    if line == "" {
    } else {
      BlankMeans(line[1..]);
      assert line == [line[0]] + line[1..];
    }
  }

  /** Without the blank lines at the end. */
  function TrimBlank(lines: seq<string>): (r: seq<string>)
    ensures |r| <= |lines| && r == lines[..|r|]
    ensures r == [] || !Blank(r[|r| - 1])
  {
    if lines == [] || !Blank(lines[|lines| - 1]) then lines else TrimBlank(lines[..|lines| - 1])
  }

  /** Only blank lines are cut off ... */
  lemma {:induction false} TrimCutsBlanks(lines: seq<string>)
    ensures forall k :: |TrimBlank(lines)| <= k < |lines| ==> Blank(lines[k])
  {
    hide Blank;
    if lines == [] || !Blank(lines[|lines| - 1]) {
    } else {
      TrimCutsBlanks(lines[..|lines| - 1]);
    }
  }

  /** ... and only newlines from a line.  */
  lemma {:induction false} ChompCutsNewlines(line: string)
    ensures forall k :: |Chomp(line)| <= k < |line| ==> line[k] == '\n'
  {
    if line == "" || line[|line| - 1] != '\n' {
    } else {
      ChompCutsNewlines(line[..|line| - 1]);
    }
  }

  datatype Block = Block(data: string, follow: seq<string>)

  /** How many lines there are before the next data line. */
  function UntilData(lines: seq<string>): (k: nat)
    ensures k <= |lines| && (forall i :: 0 <= i < k ==> !IsData(lines[i]))
    ensures k < |lines| ==> IsData(lines[k])
  {
    if lines == [] || IsData(lines[0]) then 0 else UntilData(lines[1..]) + 1
  }

  /** The lines of each block, from its data line up to the next one. */
  function RawBlocks(lines: seq<string>): (r: seq<seq<string>>)
    decreases |lines|
  {
    if lines == [] then []
    else if !IsData(lines[0]) then RawBlocks(lines[1..])
    else
      var k := UntilData(lines[1..]);
      [lines[..k + 1]] + RawBlocks(lines[k + 1..])
  }

  function BlockOf(raw: seq<string>): Block
    requires raw != []
  {
    Block(Chomp(raw[0]), TrimBlank(ChompAll(raw[1..])))
  }

  predicate NoneEmpty(raws: seq<seq<string>>) {
    forall k :: 0 <= k < |raws| ==> raws[k] != []
  }

  function BlocksOf(raws: seq<seq<string>>): (r: seq<Block>)
    requires NoneEmpty(raws)
    ensures |r| == |raws| && forall k :: 0 <= k < |raws| ==> r[k] == BlockOf(raws[k])
  {
    seq(|raws|, k requires 0 <= k < |raws| => BlockOf(raws[k]))
  }

  /** `iter_blocks` */
  function Blocks(lines: seq<string>): (r: seq<Block>)
  {
    RawShape(lines);
    BlocksOf(RawBlocks(lines))
  }

  /** A raw block starts at the only data line it contains. */
  predicate Raw(raw: seq<string>) {
    raw != [] && IsData(raw[0]) && forall k :: 0 < k < |raw| ==> !IsData(raw[k])
  }

  lemma {:induction false} RawShape(lines: seq<string>)
    ensures NoneEmpty(RawBlocks(lines))
    ensures forall k :: 0 <= k < |RawBlocks(lines)| ==> Raw(RawBlocks(lines)[k])
    decreases |lines|
  {
    if lines == [] {
    } else {
      if !IsData(lines[0]) {
        RawShape(lines[1..]);
      } else {
        var n := UntilData(lines[1..]);
        RawShape(lines[n + 1..]);
        var raw := lines[..n + 1];
        forall k | 0 < k < |raw| ensures !IsData(raw[k]) {
          assert raw[k] == lines[1..][k - 1];
        }
      }
    }
  }

  function Joined(raws: seq<seq<string>>): seq<string> {
    if raws == [] then [] else raws[0] + Joined(raws[1..])
  }

  /** The raw blocks are the file from its first data line on, cut up without
      loss; only what comes before the first data line belongs to no block.  */
  lemma {:induction false} BlocksPartition(lines: seq<string>)
    ensures lines == lines[..UntilData(lines)] + Joined(RawBlocks(lines))
    decreases |lines|
  {
    hide IsData;
    if lines == [] {
    } else {
      var n := UntilData(lines[1..]);
      if !IsData(lines[0]) {
        BlocksPartition(lines[1..]);
        Prepend(lines, n, Joined(RawBlocks(lines[1..])));
      } else {
        BlocksPartition(lines[n + 1..]);
        NextIsData(lines, n);
        FirstBlock(lines, n);
      }
    }
  }

  lemma Prepend(lines: seq<string>, k: nat, rest: seq<string>)
    requires lines != [] && k < |lines| && lines[1..] == lines[1..][..k] + rest
    ensures lines == lines[..k + 1] + rest
  {
    assert lines[..k + 1] == [lines[0]] + lines[1..][..k];
    assert lines == [lines[0]] + lines[1..];
  }

  lemma FirstBlock(lines: seq<string>, n: nat)
    requires lines != [] && IsData(lines[0]) && n == UntilData(lines[1..])
    requires lines[n + 1..] == Joined(RawBlocks(lines[n + 1..]))
    ensures UntilData(lines) == 0 && lines == Joined(RawBlocks(lines))
  {
    hide IsData, RawBlocks, Joined;
    RawStep(lines);
    JoinedStep(lines[..n + 1], RawBlocks(lines[n + 1..]));
    assert lines == lines[..n + 1] + lines[n + 1..];
  }

  lemma JoinedStep(raw: seq<string>, raws: seq<seq<string>>)
    ensures Joined([raw] + raws) == raw + Joined(raws)
  {
  }

  lemma NextIsData(lines: seq<string>, n: nat)
    requires lines != [] && n == UntilData(lines[1..])
    ensures UntilData(lines[n + 1..]) == 0
  {
    if n + 1 < |lines| {
      assert lines[n + 1..][0] == lines[1..][n];
    }
  }

  lemma {:induction false} ChompKeepsData(line: string)
    ensures IsData(Chomp(line)) <==> IsData(line)
  {
    if line == "" || line[|line| - 1] != '\n' {
    } else {
      ChompKeepsData(line[..|line| - 1]);
      var p := line[..|line| - 1];
      if IsData(line) {
        assert forall k :: 0 <= k < 9 ==> line[k] != '\n';
        assert |p| >= 9;
      }
    }
  }

  /** A block keeps its raw lines, less the newlines at their ends and the blank
      lines at the end of the block.  */
  lemma BlockKeepsLines(lines: seq<string>, k: nat)
    requires k < |RawBlocks(lines)|
    ensures |Blocks(lines)| == |RawBlocks(lines)|
    ensures var raw, b := RawBlocks(lines)[k], Blocks(lines)[k];
      && |raw| >= |b.follow| + 1 && b.data == Chomp(raw[0])
      && (forall i :: 0 <= i < |b.follow| ==> b.follow[i] == Chomp(raw[i + 1]))
      && (forall i :: |b.follow| + 1 <= i < |raw| ==> Blank(Chomp(raw[i])))
  {
    hide RawBlocks, Chomp, Blank;
    RawShape(lines);
    var raw, b := RawBlocks(lines)[k], Blocks(lines)[k];
    var rest := ChompAll(raw[1..]);
    assert b.follow == TrimBlank(rest) == rest[..|b.follow|];
    TrimCutsBlanks(rest);
    forall i | |b.follow| + 1 <= i < |raw| ensures Blank(Chomp(raw[i])) {
      assert rest[i - 1] == Chomp(raw[i]);
    }
  }

  /** Every block begins with a data line and contains no other. */
  lemma BlockShape(lines: seq<string>, k: nat)
    requires k < |Blocks(lines)|
    ensures IsData(Blocks(lines)[k].data)
    ensures forall i :: 0 <= i < |Blocks(lines)[k].follow| ==> !IsData(Blocks(lines)[k].follow[i])
  {
    RawShape(lines);
    var raw := RawBlocks(lines)[k];
    assert Raw(raw);
    ChompKeepsData(raw[0]);
    var b := Blocks(lines)[k];
    forall i | 0 <= i < |b.follow| ensures !IsData(b.follow[i]) {
      assert b.follow[i] == Chomp(raw[i + 1]);
      ChompKeepsData(raw[i + 1]);
    }
  }

  // ------------------------------------------------------------ the parsing loops

  /** The inner loops: the lines up to the next data line, trimmed. */
  method ReadFollow(lines: seq<string>, i: nat) returns (follow: seq<string>, j: nat)
    requires i < |lines|
    ensures i < j <= |lines| && (forall k :: i < k < j ==> !IsData(lines[k]))
    ensures j < |lines| ==> IsData(lines[j])
    ensures follow == TrimBlank(ChompAll(lines[i + 1..j]))
  {
    hide IsData, Chomp, Blank;
    follow := [];
    j := i + 1;
    while j < |lines| && !IsData(lines[j])
      invariant i < j <= |lines| && follow == ChompAll(lines[i + 1..j])
      invariant forall k :: i < k < j ==> !IsData(lines[k])
    {
      follow := follow + [Chomp(lines[j])];
      j := j + 1;
    }
    ghost var all := follow;
    while follow != [] && Blank(follow[|follow| - 1])
      invariant TrimBlank(follow) == TrimBlank(all)
    {
      follow := follow[..|follow| - 1];
    }
  }

  method IterBlocks(lines: seq<string>) returns (blocks: seq<Block>)
    ensures blocks == Blocks(lines)
  {
    hide IsData, Chomp, Blank, Blocks, TrimBlank, ChompAll;
    blocks := [];
    var i := 0;
    while i < |lines|
      invariant 0 <= i <= |lines|
      invariant Blocks(lines) == blocks + Blocks(lines[i..])
    {
      if IsData(lines[i]) {
        var dataLine := Chomp(lines[i]);
        var follow, j := ReadFollow(lines, i);
        NextBlock(lines, i, j);
        blocks := blocks + [Block(dataLine, follow)];
        i := j;
      } else {
        SkipLine(lines, i);
        i := i + 1;
      }
    }
    NoBlocks(lines[i..]);
  }

  lemma NoBlocks(lines: seq<string>)
    requires lines == []
    ensures Blocks(lines) == []
  {
    RawShape(lines);
    assert RawBlocks(lines) == [];
  }

  lemma SkipLine(lines: seq<string>, i: nat)
    requires i < |lines| && !IsData(lines[i])
    ensures Blocks(lines[i..]) == Blocks(lines[i + 1..])
  {
    assert lines[i..][1..] == lines[i + 1..];
    RawShape(lines[i..]);
    RawShape(lines[i + 1..]);
  }

  lemma NextBlock(lines: seq<string>, i: nat, j: nat)
    requires i < j <= |lines| && IsData(lines[i]) && (forall k :: i < k < j ==> !IsData(lines[k]))
    requires j < |lines| ==> IsData(lines[j])
    ensures Blocks(lines[i..])
      == [Block(Chomp(lines[i]), TrimBlank(ChompAll(lines[i + 1..j])))] + Blocks(lines[j..])
  {
    hide IsData, Chomp, Blank, TrimBlank, ChompAll, RawBlocks;
    var t := lines[i..];
    assert t[1..] == lines[i + 1..] && t[j - i..] == lines[j..] && t[..j - i] == lines[i..j];
    UntilDataIs(t[1..], j - i - 1);
    RawStep(t);
    BlocksStep(t, j - i);
    assert lines[i..j][1..] == lines[i + 1..j];
  }

  lemma RawStep(t: seq<string>)
    requires t != [] && IsData(t[0])
    ensures var k := UntilData(t[1..]) + 1; RawBlocks(t) == [t[..k]] + RawBlocks(t[k..])
  {
  }

  lemma BlocksStep(t: seq<string>, k: nat)
    requires 0 < k <= |t| && RawBlocks(t) == [t[..k]] + RawBlocks(t[k..])
    ensures Blocks(t) == [BlockOf(t[..k])] + Blocks(t[k..])
  {
    hide RawBlocks, BlockOf;
    RawShape(t);
    RawShape(t[k..]);
  }

  lemma {:induction false} UntilDataIs(lines: seq<string>, k: nat)
    requires k <= |lines| && (forall i :: 0 <= i < k ==> !IsData(lines[i])) && (k < |lines| ==> IsData(lines[k]))
    ensures UntilData(lines) == k
  {
    if k == 0 {
    } else {
      UntilDataIs(lines[1..], k - 1);
    }
  }

  // ------------------------------------------------------------ buckets

  /** `s.split(",")` */
  function Fields(s: string): (r: seq<string>)
    ensures r != []
  {
    if s == "" then [""]
    else
      var rest := Fields(s[1..]);
      if s[0] == ',' then [""] + rest else [[s[0]] + rest[0]] + rest[1..]
  }

  function SkipSpacesAtEnd(s: string): string {
    if s == "" || !IsSpace(s[|s| - 1]) then s else SkipSpacesAtEnd(s[..|s| - 1])
  }

  /** `int(s)`: blanks around an optional sign and digits. */
  function ParseInt(s: string): Option<int> {
    var t := SkipSpacesAtEnd(SkipSpaces(s));
    if t != "" && (t[0] == '-' || t[0] == '+') then
      var v := ParseNat(t[1..]);
      if v.None? then None
      else
        var n: int := v.value;
        Some(if t[0] == '-' then -n else n)
    else
      var v := ParseNat(t);
      if v.None? then None else Some(v.value)
  }

  lemma {:induction false} BlanksInFront(before: string, t: string)
    requires forall k :: 0 <= k < |before| ==> IsSpace(before[k])
    requires t != "" && !IsSpace(t[0])
    ensures SkipSpaces(before + t) == t
  {
    if before == "" {
      assert before + t == t;
    } else {
      BlanksInFront(before[1..], t);
      assert (before + t)[1..] == before[1..] + t;
    }
  }

  lemma {:induction false} BlanksBehind(t: string, after: string)
    requires forall k :: 0 <= k < |after| ==> IsSpace(after[k])
    requires t != "" && !IsSpace(t[|t| - 1])
    ensures SkipSpacesAtEnd(t + after) == t
  {
    if after == "" {
      assert t + after == t;
    } else {
      var n := |after| - 1;
      BlanksBehind(t, after[..n]);
      assert (t + after)[..|t| + n] == t + after[..n];
    }
  }

  /** A number is read with or without a sign and with blanks on both sides. */
  lemma ParseIntReads(before: string, sign: string, n: nat, after: string)
    requires forall k :: 0 <= k < |before| ==> IsSpace(before[k])
    requires forall k :: 0 <= k < |after| ==> IsSpace(after[k])
    requires sign == "" || sign == "+" || sign == "-"
    ensures var m: int := n;
      ParseInt(before + (sign + Decimal(n) + after)) == Some(if sign == "-" then -m else m)
  {
    hide SkipSpaces, SkipSpacesAtEnd, ParseNat, Decimal;
    var t := sign + Decimal(n);
    ParseDecimal(n);
    assert IsDigit(Decimal(n)[0]) && IsDigit(t[|t| - 1]);
    assert sign == "" ==> t == Decimal(n);
    assert sign != "" ==> t[0] == sign[0] && t[1..] == Decimal(n);
    assert (t + after)[0] == t[0];
    BlanksInFront(before, t + after);
    BlanksBehind(t, after);
  }

  datatype Key = Key(topology: string, lossless: bool, bufferSize: string)

  /** The bucket of a block; none if the data line is too short or its flow
      control is not a number.  */
  function KeyOf(b: Block): Option<Key> {
    var fields := Fields(b.data);
    if |fields| < 25 then None
    else
      var pfc := ParseInt(fields[10]);
      if pfc.None? then None else Some(Key(fields[15], pfc.value == 1, fields[24]))
  }

  /** The text of a block, with a blank line after it. */
  function BlockLines(b: Block): (r: seq<string>)
    ensures |r| == |b.follow| + 2
  {
    [b.data + "\n"] + seq(|b.follow|, k requires 0 <= k < |b.follow| => b.follow[k] + "\n") + ["\n"]
  }

  function BlockText(b: Block): string {
    Concat(BlockLines(b))
  }

  /** The blocks of one bucket, in input order. */
  function InBucket(bs: seq<Block>, key: Key): seq<Block> {
    if bs == [] then []
    else
      InBucket(bs[..|bs| - 1], key) + if KeyOf(bs[|bs| - 1]) == Some(key) then [bs[|bs| - 1]] else []
  }

  /** Buckets keep the input order. */
  lemma {:induction false} InBucketAppend(a: seq<Block>, b: seq<Block>, key: Key)
    ensures InBucket(a + b, key) == InBucket(a, key) + InBucket(b, key)
  {
    hide KeyOf;
    if b == [] {
      assert a + b == a;
    } else {
      var n := |b| - 1;
      InBucketAppend(a, b[..n], key);
      assert (a + b)[..|a| + n] == a + b[..n];
    }
  }

  function Texts(bs: seq<Block>): seq<string> {
    if bs == [] then [] else Texts(bs[..|bs| - 1]) + [BlockText(bs[|bs| - 1])]
  }

  function Skipped(bs: seq<Block>): nat {
    if bs == [] then 0
    else Skipped(bs[..|bs| - 1]) + if KeyOf(bs[|bs| - 1]).None? then 1 else 0
  }

  type Buckets = map<Key, seq<string>>

  /** Every bucket holds the texts of its blocks, and no bucket is empty. */
  ghost predicate Sorted(buckets: Buckets, bs: seq<Block>) {
    && (forall key :: key in buckets <==> InBucket(bs, key) != [])
    && (forall key :: key in buckets ==> buckets[key] == Texts(InBucket(bs, key)))
  }

  /** The text of a block as the loop puts it together. */
  method TextOf(b: Block) returns (text: string)
    ensures text == BlockText(b)
  {
    var lines := BlockLines(b);
    text := b.data + "\n";
    assert lines[..1][1..] == [] && Concat(lines[..1]) == lines[0] + Concat([]);
    for k := 0 to |b.follow|
      invariant text == Concat(lines[..k + 1])
    {
      ConcatOne(lines[..k + 1], lines[k + 1]);
      assert lines[..k + 2] == lines[..k + 1] + [lines[k + 1]];
      text := text + (b.follow[k] + "\n");
    }
    ConcatOne(lines[..|b.follow| + 1], "\n");
    assert lines == lines[..|b.follow| + 1] + ["\n"];
    text := text + "\n";
  }

  lemma ConcatOne(lines: seq<string>, line: string)
    ensures Concat(lines + [line]) == Concat(lines) + line
  {
    ConcatAppend(lines, [line]);
    assert [line][1..] == [] && Concat([line]) == line + Concat([]);
  }

  lemma NothingSorted()
    ensures Sorted(map[], []) && Sizes(map[]) == 0
  {
  }

  method SortIntoBuckets(bs: seq<Block>) returns (buckets: Buckets, skipped: nat)
    ensures Sorted(buckets, bs) && skipped == Skipped(bs)
    ensures Sizes(buckets) + skipped == |bs|
  {
    hide KeyOf, BlockText, InBucket, Texts, Sorted, Sizes;
    NothingSorted();
    buckets, skipped := map[], 0;
    for i := 0 to |bs|
      invariant Sorted(buckets, bs[..i]) && skipped == Skipped(bs[..i])
      invariant Sizes(buckets) + skipped == i
    {
      var b := bs[i];
      var key := KeyOf(b);
      assert bs[..i + 1][..i] == bs[..i];
      if key.None? {
        skipped := skipped + 1;
        KeepSorted(buckets, bs[..i + 1]);
      } else {
        var text := TextOf(b);
        var list := if key.value in buckets then buckets[key.value] else [];
        AddSorted(buckets, bs[..i + 1], key.value, list + [text]);
        SizesUpdate(buckets, key.value, list + [text]);
        buckets := buckets[key.value := list + [text]];
      }
    }
    assert bs[..|bs|] == bs;
  }

  lemma KeepSorted(buckets: Buckets, bs: seq<Block>)
    requires bs != [] && Sorted(buckets, bs[..|bs| - 1]) && KeyOf(bs[|bs| - 1]).None?
    ensures Sorted(buckets, bs)
  {
    hide KeyOf, Texts;
    forall key: Key ensures InBucket(bs, key) == InBucket(bs[..|bs| - 1], key) {
    }
  }

  lemma AddSorted(buckets: Buckets, bs: seq<Block>, key: Key, list: seq<string>)
    requires bs != [] && Sorted(buckets, bs[..|bs| - 1]) && KeyOf(bs[|bs| - 1]) == Some(key)
    requires list == (if key in buckets then buckets[key] else []) + [BlockText(bs[|bs| - 1])]
    ensures Sorted(buckets[key := list], bs)
  {
    hide BlockText, KeyOf, InBucket, Texts;
    var p, b := bs[..|bs| - 1], bs[|bs| - 1];
    forall other: Key
      ensures InBucket(bs, other) == if other == key then InBucket(p, other) + [b] else InBucket(p, other)
    {
      InBucketStep(bs, other);
    }
    TextsStep(InBucket(p, key), b);
    TextsOfNone();
  }

  lemma InBucketStep(bs: seq<Block>, key: Key)
    requires bs != []
    ensures var p, b := bs[..|bs| - 1], bs[|bs| - 1];
      InBucket(bs, key) == if KeyOf(b) == Some(key) then InBucket(p, key) + [b] else InBucket(p, key)
  {
    hide KeyOf;
  }

  lemma TextsStep(bs: seq<Block>, b: Block)
    ensures Texts(bs + [b]) == Texts(bs) + [BlockText(b)]
  {
    hide BlockText;
    assert (bs + [b])[..|bs|] == bs;
  }

  lemma TextsOfNone()
    ensures Texts([]) == []
  {
  }

  // ------------------------------------------------------------ bucket sizes

  /** The number of texts in all buckets. */
  ghost function Sizes(b: Buckets): nat
    decreases |b|
  {
    if b == map[] then 0
    else
      var k :| k in b;
      |b[k]| + Sizes(b - {k})
  }

  lemma {:induction false} SizesOfAny(b: Buckets, k: Key)
    requires k in b
    ensures Sizes(b) == |b[k]| + Sizes(b - {k})
    decreases |b|
  {
    var j :| j in b && Sizes(b) == |b[j]| + Sizes(b - {j});
    if j == k {
    } else {
      SizesOfAny(b - {j}, k);
      SizesOfAny(b - {k}, j);
      assert b - {j} - {k} == b - {k} - {j};
    }
  }

  lemma SizesUpdate(b: Buckets, k: Key, list: seq<string>)
    ensures Sizes(b[k := list]) == Sizes(b) - (if k in b then |b[k]| else 0) + |list|
  {
    SizesOfAny(b[k := list], k);
    if k in b {
      SizesOfAny(b, k);
      assert b[k := list] - {k} == b - {k};
    } else {
      assert b[k := list] - {k} == b;
    }
  }

  // ------------------------------------------------------------ reading a bucket back

  /** A block that a file can hold: as `iter_blocks` yields them. */
  predicate Storable(b: Block) {
    && IsData(b.data) && NoNewline(b.data)
    && (forall k :: 0 <= k < |b.follow| ==> !IsData(b.follow[k]) && NoNewline(b.follow[k]))
    && (b.follow == [] || !Blank(b.follow[|b.follow| - 1]))
  }

  lemma ChompLine(s: string)
    requires NoNewline(s)
    ensures Chomp(s + "\n") == s && Line(s + "\n")
  {
    assert (s + "\n")[..|s|] == s;
  }

  lemma WithNewline(s: string)
    requires NoNewline(s)
    ensures IsData(s + "\n") <==> IsData(s)
  {
    ChompLine(s);
    ChompKeepsData(s + "\n");
  }

  /** The lines written for a block, followed by those of another or nothing,
      are read as that block.  */
  lemma BlockReads(b: Block, rest: seq<string>)
    requires Storable(b) && (rest == [] || IsData(rest[0]))
    ensures Blocks(BlockLines(b) + rest) == [b] + Blocks(rest)
  {
    hide Chomp, IsData, Blank, TrimBlank, ChompAll, Blocks, NoNewline;
    var own := BlockLines(b);
    var lines := own + rest;
    var n := |own|;
    OwnLines(b);
    WithNewline(b.data);
    ChompLine(b.data);
    NextBlock(lines, 0, n);
    assert lines[n..] == rest && lines[0..] == lines && lines[1..n] == own[1..];
    TrimOne(b.follow);
  }

  lemma OwnLines(b: Block)
    requires Storable(b)
    ensures forall k :: 0 < k < |BlockLines(b)| ==> !IsData(BlockLines(b)[k])
    ensures ChompAll(BlockLines(b)[1..]) == b.follow + [""]
  {
    hide Chomp, IsData, Blank;
    var own := BlockLines(b);
    var n := |own|;
    EmptyLine();
    forall k | 0 < k < n ensures !IsData(own[k]) {
      if k < n - 1 {
        WithNewline(b.follow[k - 1]);
      }
    }
    forall k | 0 <= k < |b.follow| ensures ChompAll(own[1..])[k] == b.follow[k] {
      ChompLine(b.follow[k]);
    }
  }

  lemma EmptyLine()
    ensures !IsData("\n") && Chomp("\n") == "" && Blank("")
  {
  }

  lemma TrimOne(lines: seq<string>)
    requires lines == [] || !Blank(lines[|lines| - 1])
    ensures TrimBlank(lines + [""]) == lines
  {
    assert (lines + [""])[..|lines|] == lines;
  }

  function AllLines(bs: seq<Block>): seq<string> {
    if bs == [] then [] else BlockLines(bs[0]) + AllLines(bs[1..])
  }

  predicate AllStorable(bs: seq<Block>) {
    forall k :: 0 <= k < |bs| ==> Storable(bs[k])
  }

  lemma {:induction false} AllRead(bs: seq<Block>)
    requires AllStorable(bs)
    ensures Blocks(AllLines(bs)) == bs
    ensures bs != [] ==> AllLines(bs) != [] && IsData(AllLines(bs)[0])
  {
    if bs == [] {
      assert RawBlocks([]) == [];
    } else {
      AllRead(bs[1..]);
      BlockReads(bs[0], AllLines(bs[1..]));
      WithNewline(bs[0].data);
    }
  }

  lemma {:induction false} AllLinesAreLines(bs: seq<Block>)
    requires AllStorable(bs)
    ensures forall k :: 0 <= k < |AllLines(bs)| ==> Line(AllLines(bs)[k])
  {
    if bs == [] {
    } else {
      AllLinesAreLines(bs[1..]);
      var own := BlockLines(bs[0]);
      forall k | 0 <= k < |own| ensures Line(own[k]) {
        if k == 0 {
          ChompLine(bs[0].data);
        } else if k < |own| - 1 {
          ChompLine(bs[0].follow[k - 1]);
        }
      }
    }
  }

  lemma AllLinesHead(bs: seq<Block>)
    ensures AllLines(bs) == if bs == [] then [] else BlockLines(bs[0]) + AllLines(bs[1..])
  {
  }

  lemma {:induction false} AllLinesStep(bs: seq<Block>)
    requires bs != []
    ensures AllLines(bs) == AllLines(bs[..|bs| - 1]) + BlockLines(bs[|bs| - 1])
  {
    hide BlockLines, AllLines;
    AllLinesHead(bs);
    var n := |bs| - 1;
    if n == 0 {
      AllLinesHead([]);
      assert bs[1..] == [] && bs[..0] == [];
    } else {
      AllLinesStep(bs[1..]);
      var p := bs[..n];
      assert bs[1..][..n - 1] == p[1..];
      AllLinesHead(p);
    }
  }

  /** The file of a bucket: its texts one after another. */
  lemma {:induction false} FileIsLines(bs: seq<Block>)
    ensures Concat(Texts(bs)) == Concat(AllLines(bs))
  {
    if bs == [] {
    } else {
      var p, b := bs[..|bs| - 1], bs[|bs| - 1];
      FileIsLines(p);
      AllLinesStep(bs);
      ConcatOne(Texts(p), BlockText(b));
      ConcatAppend(AllLines(p), BlockLines(b));
    }
  }

  /** What `readlines` yields has a newline at most at its end. */
  lemma {:induction false} LinesHaveOneNewline(text: string)
    ensures forall k :: 0 <= k < |Lines(text)| ==> NoNewline(Chomp(Lines(text)[k]))
    decreases |text|
  {
    if text == "" {
    } else {
      var k := LineEnd(text);
      LinesHaveOneNewline(text[k..]);
      FirstLineHasOneNewline(text);
    }
  }

  lemma {:induction false} FirstLineHasOneNewline(text: string)
    requires text != ""
    ensures NoNewline(text[..LineEnd(text) - 1])
    ensures NoNewline(Chomp(text[..LineEnd(text)]))
  {
    LineBody(text);
    var k := LineEnd(text);
    var line := text[..k];
    assert line[..k - 1] == text[..k - 1];
    if line[k - 1] == '\n' {
      assert Chomp(line) == Chomp(line[..k - 1]);
    }
  }

  lemma {:induction false} LineBody(text: string)
    requires text != ""
    ensures NoNewline(text[..LineEnd(text) - 1])
  {
    if text[0] == '\n' || |text| == 1 {
    } else {
      LineBody(text[1..]);
      var k := LineEnd(text[1..]);
      assert text[..k] == [text[0]] + text[1..][..k - 1];
    }
  }

  lemma BlocksAreStorable(text: string)
    ensures AllStorable(Blocks(Lines(text)))
  {
    hide Lines, IsData, Blank, Chomp;
    var lines := Lines(text);
    LinesHaveOneNewline(text);
    forall k | 0 <= k < |Blocks(lines)| ensures Storable(Blocks(lines)[k]) {
      BlockShape(lines, k);
      LinesOfBlock(lines, k);
    }
  }

  predicate CleanLines(lines: seq<string>) {
    forall k :: 0 <= k < |lines| ==> NoNewline(Chomp(lines[k]))
  }

  lemma LinesOfBlock(lines: seq<string>, k: nat)
    requires k < |Blocks(lines)| && CleanLines(lines)
    ensures NoNewline(Blocks(lines)[k].data)
    ensures forall i :: 0 <= i < |Blocks(lines)[k].follow| ==> NoNewline(Blocks(lines)[k].follow[i])
    ensures var f := Blocks(lines)[k].follow; f == [] || !Blank(f[|f| - 1])
  {
    hide NoNewline, Chomp, Blank, IsData;
    RawShape(lines);
    RawIsClean(lines, k);
    var raw := RawBlocks(lines)[k];
    var f := Blocks(lines)[k].follow;
    forall i | 0 <= i < |f| ensures NoNewline(f[i]) {
      assert f[i] == Chomp(raw[i + 1]);
    }
  }

  lemma {:induction false} RawIsClean(lines: seq<string>, k: nat)
    requires k < |RawBlocks(lines)| && CleanLines(lines)
    ensures CleanLines(RawBlocks(lines)[k])
    decreases |lines|
  {
    hide NoNewline, Chomp;
    if !IsData(lines[0]) {
      RawIsClean(lines[1..], k);
    } else if k > 0 {
      var n := UntilData(lines[1..]);
      RawIsClean(lines[n + 1..], k - 1);
    }
  }

  lemma {:induction false} BucketIsStorable(bs: seq<Block>, key: Key)
    requires AllStorable(bs)
    ensures AllStorable(InBucket(bs, key))
  {
    hide Storable, KeyOf;
    if bs == [] {
    } else {
      BucketIsStorable(bs[..|bs| - 1], key);
    }
  }

  /** In its file a block takes its data line, the lines that follow it, and
      one empty line.  */
  lemma TextInLines(b: Block)
    requires Storable(b)
    ensures |Lines(BlockText(b))| == |b.follow| + 2
    ensures Lines(BlockText(b))[0] == b.data + "\n" && Lines(BlockText(b))[|b.follow| + 1] == "\n"
    ensures forall k :: 0 <= k < |b.follow| ==> Lines(BlockText(b))[k + 1] == b.follow[k] + "\n"
  {
    hide Lines, IsData, Blank;
    var own := BlockLines(b);
    forall k | 0 <= k < |own| ensures Line(own[k]) {
      if k == 0 {
        ChompLine(b.data);
      } else if k < |own| - 1 {
        ChompLine(b.follow[k - 1]);
      }
    }
    LinesOfConcat(own);
  }

  /** Whatever the history file contains, reading the text of a bucket again
      gives exactly the blocks of that bucket, in input order.  */
  lemma BucketReadsBack(text: string, key: Key)
    ensures Blocks(Lines(Concat(Texts(InBucket(Blocks(Lines(text)), key))))) == InBucket(Blocks(Lines(text)), key)
  {
    hide Lines, Blocks, InBucket, Texts, AllLines, Concat;
    var bs := Blocks(Lines(text));
    var own := InBucket(bs, key);
    BlocksAreStorable(text);
    BucketIsStorable(bs, key);
    FileIsLines(own);
    AllLinesAreLines(own);
    LinesOfConcat(AllLines(own));
    AllRead(own);
  }
}
