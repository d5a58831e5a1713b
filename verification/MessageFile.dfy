/** The message-size file: written by `save_alltoallv_message_sizes` in
    simulation/run.py, read back by `load_message_sizes_from_file` in
    simulation/analysis/optimal_jct_analyzer.py.  */
module MessageFile {
  import opened Arithmetic
  import opened OptimalJct
  import opened Sorting
  import opened Wrappers
  import opened Text
  import Grids

  /** A group of `size` servers and its message sizes, row after row. */
  datatype Group = Group(size: nat, sizes: seq<nat>)

  predicate ValidGroup(g: Group) {
    |g.sizes| == g.size * g.size
  }

  predicate ValidGroups(gs: seq<Group>) {
    forall k :: 0 <= k < |gs| ==> ValidGroup(gs[k])
  }

  function MatrixOf(g: Group): (m: Matrix)
    requires ValidGroup(g)
    ensures |m| == g.size && Square(m)
  {
    seq(g.size, i requires 0 <= i < g.size => seq(g.size, j requires 0 <= j < g.size =>
      (RowMajor(i, j, g.size, g.size); g.sizes[i * g.size + j])))
  }

  /** The row-major list of a square matrix stands for that matrix. */
  lemma MatrixOfFlat(m: Matrix)
    requires Square(m)
    ensures ValidGroup(Group(|m|, Grids.Flat(m))) && MatrixOf(Group(|m|, Grids.Flat(m))) == m
  {
    hide Grids.Flat;
    Grids.FlatLength(m, |m|);
    var r := MatrixOf(Group(|m|, Grids.Flat(m)));
    forall i | 0 <= i < |m| ensures r[i] == m[i] {
      forall j | 0 <= j < |m| ensures r[i][j] == m[i][j] {
        Grids.FlatAt(m, |m|, i, j);
      }
    }
  }

  // ------------------------------------------------------------ writing

  function DataLine(g: nat, size: nat, i: nat, bytes: nat): string
    requires size > 0
  {
    Spaced([Decimal(g), Decimal(i / size), Decimal(i % size), Decimal(bytes)])
  }

  /** `# Group g: n nodes` */
  function GroupHeader(g: nat, size: nat): string {
    Spaced(["#", "Group", Decimal(g) + ":", Decimal(size), "nodes"])
  }

  /** The first `k` data lines of a group. */
  function DataLines(g: nat, group: Group, k: nat): (r: seq<string>)
    requires ValidGroup(group) && k <= |group.sizes|
    ensures |r| == k
  {
    if k == 0 then []
    else
      PositiveSize(group);
      DataLines(g, group, k - 1) + [DataLine(g, group.size, k - 1, group.sizes[k - 1])]
  }

  lemma PositiveSize(g: Group)
    requires ValidGroup(g)
    ensures |g.sizes| > 0 <==> g.size > 0
  {
    if g.size > 0 {
      MulMonotone(1, g.size, g.size);
    }
  }

  function GroupLines(gs: seq<Group>): seq<string>
    requires ValidGroups(gs)
  {
    if gs == [] then []
    else
      var g := |gs| - 1;
      GroupLines(gs[..g]) + [GroupHeader(g, gs[g].size)] + DataLines(g, gs[g], |gs[g].sizes|)
  }

  function Preamble(count: nat): seq<string> {
    [Spaced(["#", "AlltoallV", "Message", "Sizes", "Configuration"]), Spaced(["#", "Groups:", Decimal(count)])]
  }

  /** The whole file. */
  function Saved(gs: seq<Group>): string
    requires ValidGroups(gs)
  {
    Concat(Preamble(|gs|) + GroupLines(gs))
  }

  method Save(gs: seq<Group>) returns (f: string)
    requires ValidGroups(gs)
    ensures f == Saved(gs)
  {
    hide Concat, DataLine, GroupHeader, Preamble, Spaced, Decimal;
    f := Concat(Preamble(|gs|));
    ghost var lines := Preamble(|gs|);
    for g := 0 to |gs|
      invariant lines == Preamble(|gs|) + GroupLines(gs[..g]) && f == Concat(lines)
    {
      var group := gs[g];
      ghost var before := lines;
      f := f + GroupHeader(g, group.size);
      ConcatStep(lines, GroupHeader(g, group.size));
      lines := lines + [GroupHeader(g, group.size)];
      for i := 0 to |group.sizes|
        invariant lines == before + [GroupHeader(g, group.size)] + DataLines(g, group, i) && f == Concat(lines)
      {
        PositiveSize(group);
        var line := DataLine(g, group.size, i, group.sizes[i]);
        ConcatStep(lines, line);
        f := f + line;
        lines := lines + [line];
      }
      assert gs[..g + 1][..g] == gs[..g];
      assert lines == Preamble(|gs|) + GroupLines(gs[..g + 1]);
    }
    assert gs[..|gs|] == gs;
  }

  lemma ConcatStep(lines: seq<string>, line: string)
    ensures Concat(lines + [line]) == Concat(lines) + line
  {
    ConcatAppend(lines, [line]);
    assert [line][1..] == [];
    assert Concat([line]) == line + Concat([]);
  }

  // the lines as they stand in the file, character by character

  lemma PreambleInFull(count: nat)
    ensures Preamble(count) == ["# AlltoallV Message Sizes Configuration\n", "# Groups: " + Decimal(count) + "\n"]
  {
    hide Decimal, Spaced;
    FirstLineInFull();
    SpacedOne(Decimal(count));
    SpacedTwo("#", "Groups:", [Decimal(count)]);
    assert ["#", "Groups:"] + [Decimal(count)] == ["#", "Groups:", Decimal(count)];
    var start := "# Groups: ";
    assert "#" + " " + "Groups:" + " " == start;
    assert start + (Decimal(count) + "\n") == (start + Decimal(count)) + "\n";
  }

  lemma FirstLineInFull()
    ensures Spaced(["#", "AlltoallV", "Message", "Sizes", "Configuration"])
         == "# AlltoallV Message Sizes Configuration\n"
  {
    hide Spaced;
    var last := "Configuration";
    SpacedOne(last);
    SpacedTwo("Message", "Sizes", [last]);
    assert ["Message", "Sizes"] + [last] == ["Message", "Sizes", last];
    SpacedTwo("#", "AlltoallV", ["Message", "Sizes", last]);
    assert ["#", "AlltoallV"] + ["Message", "Sizes", last] == ["#", "AlltoallV", "Message", "Sizes", last];
    TitleInFull();
  }

  lemma TitleInFull()
    ensures "#" + " " + "AlltoallV" + " " + ("Message" + " " + "Sizes" + " " + ("Configuration" + "\n"))
         == "# AlltoallV Message Sizes Configuration\n"
  {
  }

  lemma HeaderInFull(g: nat, size: nat)
    ensures GroupHeader(g, size) == "# Group " + Decimal(g) + ": " + Decimal(size) + " nodes\n"
  {
    hide Decimal, Spaced;
    var a, b := Decimal(g), Decimal(size);
    SpacedOne("nodes");
    SpacedTwo(a + ":", b, ["nodes"]);
    assert [a + ":", b] + ["nodes"] == [a + ":", b, "nodes"];
    SpacedTwo("#", "Group", [a + ":", b, "nodes"]);
    assert ["#", "Group"] + [a + ":", b, "nodes"] == ["#", "Group", a + ":", b, "nodes"];
  }

  lemma DataLineInFull(g: nat, size: nat, i: nat, bytes: nat)
    requires size > 0
    ensures DataLine(g, size, i, bytes)
         == Decimal(g) + " " + Decimal(i / size) + " " + Decimal(i % size) + " " + Decimal(bytes) + "\n"
  {
    hide Decimal, Spaced;
    DataInFull(Decimal(g), Decimal(i / size), Decimal(i % size), Decimal(bytes));
  }

  lemma DataInFull(a: string, b: string, c: string, d: string)
    ensures Spaced([a, b, c, d]) == a + " " + b + " " + c + " " + d + "\n"
  {
    hide Spaced;
    SpacedOne(d);
    SpacedTwo(b, c, [d]);
    assert [b, c] + [d] == [b, c, d];
    SpacedMore(a, [b, c, d]);
    assert [a] + [b, c, d] == [a, b, c, d];
  }

  lemma SpacedOne(a: string)
    ensures Spaced([a]) == a + "\n"
  {
  }

  lemma SpacedMore(a: string, rest: seq<string>)
    requires rest != []
    ensures Spaced([a] + rest) == a + " " + Spaced(rest)
  {
    assert ([a] + rest)[1..] == rest;
  }

  lemma SpacedTwo(a: string, b: string, rest: seq<string>)
    requires rest != []
    ensures Spaced([a, b] + rest) == a + " " + b + " " + Spaced(rest)
  {
    hide Spaced;
    SpacedMore(b, rest);
    SpacedMore(a, [b] + rest);
    assert [a] + ([b] + rest) == [a, b] + rest;
  }

  // ------------------------------------------------------------ reading

  datatype Parsed = Skipped | Data(group: nat, src: nat, dst: nat, bytes: nat) | Malformed

  /** One line as the analyzer reads it. */
  function ReadLine(line: string): Parsed {
    var stripped := SkipSpaces(line);
    if stripped == "" || stripped[0] == '#' then Skipped
    else
      var parts := Split(line);
      if |parts| != 4 then Skipped
      else ReadParts(parts)
  }

  function ReadParts(parts: seq<string>): Parsed
    requires |parts| >= 4
  {
    var g, s, d, b := ParseNat(parts[0]), ParseNat(parts[1]), ParseNat(parts[2]), ParseNat(parts[3]);
    if g.None? || s.None? || d.None? || b.None? then Malformed else Data(g.value, s.value, d.value, b.value)
  }

  type Entries = map<(nat, nat), nat>
  type Table = map<int, Entries>

  function Add(t: Table, p: Parsed): Table
    requires p.Data?
  {
    var entries: Entries := if p.group in t then t[p.group] else map[];
    t[p.group := entries[(p.src, p.dst) := p.bytes]]
  }

  /** The table after some lines, or the ValueError of a malformed one. */
  function Collect(t: Table, lines: seq<string>): Option<Table> {
    if lines == [] then Some(t)
    else
      var before := Collect(t, lines[..|lines| - 1]);
      if before.None? then None
      else
        var p := ReadLine(lines[|lines| - 1]);
        match p
        case Skipped => before
        case Data(_, _, _, _) => Some(Add(before.value, p))
        case Malformed => None
  }

  /** The largest index of any entry. */
  ghost predicate IsMaxIndex(keys: set<(nat, nat)>, m: nat) {
    (forall k :: k in keys ==> k.0 <= m && k.1 <= m) && (exists k :: k in keys && (k.0 == m || k.1 == m))
  }

  lemma {:induction false} MaxIndexExists(keys: set<(nat, nat)>) returns (m: nat)
    requires keys != {}
    ensures IsMaxIndex(keys, m)
    decreases keys
  {
    assert |keys| > 0;
    var k :| k in keys;
    var top := if k.0 >= k.1 then k.0 else k.1;
    if keys == {k} {
      m := top;
    } else {
      var rest := MaxIndexExists(keys - {k});
      assert forall x :: x in keys ==> x == k || x in keys - {k};
      m := if top >= rest then top else rest;
    }
  }

  ghost function MaxIndex(keys: set<(nat, nat)>): (m: nat)
    requires keys != {}
    ensures IsMaxIndex(keys, m)
  {
    assert exists m: nat :: IsMaxIndex(keys, m) by {
      var w := MaxIndexExists(keys);
    }
    var m: nat :| IsMaxIndex(keys, m);
    m
  }

  /** Zeros, overwritten by the entries. */
  function Filled(n: nat, e: Entries): (m: Matrix)
    ensures |m| == n && Square(m)
    ensures forall i, j :: 0 <= i < n && 0 <= j < n ==> m[i][j] == (if (i, j) in e then e[(i, j)] else 0)
  {
    seq(n, i requires 0 <= i < n => seq(n, j requires 0 <= j < n => if (i, j) in e then e[(i, j)] else 0))
  }

  ghost function LoadedMatrix(e: Entries): Matrix
    requires e.Keys != {}
  {
    Filled(MaxIndex(e.Keys) + 1, e)
  }

  predicate NoneEmpty(t: Table) {
    forall g :: g in t ==> t[g].Keys != {}
  }

  predicate Known(t: Table, keys: seq<int>) {
    forall k :: 0 <= k < |keys| ==> keys[k] in t && t[keys[k]].Keys != {}
  }

  /** The matrices of the groups in `keys`, in that order. */
  ghost function Matrices(t: Table, keys: seq<int>): seq<Matrix>
    requires Known(t, keys)
  {
    if keys == [] then []
    else
      Matrices(t, keys[..|keys| - 1]) + [LoadedMatrix(t[keys[|keys| - 1]])]
  }

  lemma {:induction false} CollectNoneEmpty(t: Table, lines: seq<string>)
    requires NoneEmpty(t)
    ensures Collect(t, lines).Some? ==> NoneEmpty(Collect(t, lines).value)
  {
    if lines == [] {
    } else {
      CollectNoneEmpty(t, lines[..|lines| - 1]);
      var p := ReadLine(lines[|lines| - 1]);
      var before := Collect(t, lines[..|lines| - 1]);
      if before.Some? && p.Data? {
        AddNoneEmpty(before.value, p);
      }
    }
  }

  lemma AddNoneEmpty(t: Table, p: Parsed)
    requires NoneEmpty(t) && p.Data?
    ensures NoneEmpty(Add(t, p))
  {
    var after := Add(t, p);
    assert (p.src, p.dst) in after[p.group];
  }

  lemma AllKnown(t: Table)
    requires NoneEmpty(t)
    ensures Known(t, SortedKeys(t.Keys))
  {
    var keys := SortedKeys(t.Keys);
    forall k | 0 <= k < |keys| ensures keys[k] in t && t[keys[k]].Keys != {} {
      assert keys[k] in keys;
    }
  }

  /** `load_message_sizes_from_file` */
  ghost function Loaded(text: string): Option<seq<Matrix>> {
    CollectNoneEmpty(map[], Lines(text));
    var t := Collect(map[], Lines(text));
    if t.None? then None
    else
      AllKnown(t.value);
      Some(Matrices(t.value, SortedKeys(t.value.Keys)))
  }

  // ------------------------------------------------------------ what any file means

  /** What the file last says about one entry. */
  function LastEntry(lines: seq<string>, g: int, i: nat, j: nat): Option<nat> {
    if lines == [] then None
    else
      match ReadLine(lines[|lines| - 1])
      case Data(h, src, dst, bytes) =>
        if h == g && src == i && dst == j then Some(bytes) else LastEntry(lines[..|lines| - 1], g, i, j)
      case Skipped => LastEntry(lines[..|lines| - 1], g, i, j)
      case Malformed => LastEntry(lines[..|lines| - 1], g, i, j)
  }

  function Entry(t: Table, g: int, i: nat, j: nat): Option<nat> {
    if g in t && (i, j) in t[g] then Some(t[g][(i, j)]) else None
  }

  lemma {:induction false} CollectKeepsLast(lines: seq<string>, g: int, i: nat, j: nat)
    requires Collect(map[], lines).Some?
    ensures Entry(Collect(map[], lines).value, g, i, j) == LastEntry(lines, g, i, j)
  {
    hide ReadLine;
    if lines == [] {
    } else {
      CollectKeepsLast(lines[..|lines| - 1], g, i, j);
    }
  }

  /** A matrix holds what the file last says about each entry of a group, zero
      where it says nothing, and is just large enough.  */
  ghost predicate MatrixFrom(m: Matrix, lines: seq<string>, g: int) {
    && Square(m)
    && (forall i: nat, j: nat :: LastEntry(lines, g, i, j).Some? ==> i < |m| && j < |m|)
    && (forall i: nat, j: nat :: i < |m| && j < |m| ==>
          m[i][j] == if LastEntry(lines, g, i, j).Some? then LastEntry(lines, g, i, j).value else 0)
    && exists i: nat, j: nat :: LastEntry(lines, g, i, j).Some? && (i == |m| - 1 || j == |m| - 1)
  }

  ghost predicate Mentioned(lines: seq<string>, g: int) {
    exists i: nat, j: nat :: LastEntry(lines, g, i, j).Some?
  }

  /** The matrices of exactly the mentioned groups, by increasing number. */
  ghost predicate MatricesFrom(ms: seq<Matrix>, groups: seq<int>, lines: seq<string>) {
    && |ms| == |groups|
    && (forall a, b :: 0 <= a < b < |groups| ==> groups[a] < groups[b])
    && (forall g :: g in groups <==> Mentioned(lines, g))
    && forall k :: 0 <= k < |ms| ==> MatrixFrom(ms[k], lines, groups[k])
  }

  predicate WellFormed(lines: seq<string>) {
    forall k :: 0 <= k < |lines| ==> !ReadLine(lines[k]).Malformed?
  }

  /** What loading yields, for any text; it fails exactly if a line is malformed. */
  lemma LoadedMeaning(text: string) returns (groups: seq<int>)
    ensures Loaded(text).Some? <==> WellFormed(Lines(text))
    ensures Loaded(text).Some? ==> MatricesFrom(Loaded(text).value, groups, Lines(text))
  {
    hide WellFormed, Lines, MatrixFrom, Collect, Mentioned, LoadedMatrix;
    var lines := Lines(text);
    groups := [];
    CollectSucceeds(lines);
    CollectNoneEmpty(map[], lines);
    if Collect(map[], lines).Some? {
      var t := Collect(map[], lines).value;
      AllKnown(t);
      groups := SortedKeys(t.Keys);
      forall g: int ensures g in t <==> Mentioned(lines, g) {
        GroupMentioned(lines, t, g);
      }
      MatricesAt(t, groups);
      forall k | 0 <= k < |groups| ensures MatrixFrom(LoadedMatrix(t[groups[k]]), lines, groups[k]) {
        LoadedMatrixFrom(lines, t, groups[k]);
      }
    }
  }

  lemma {:induction false} CollectSucceeds(lines: seq<string>)
    ensures Collect(map[], lines).Some? <==> WellFormed(lines)
  {
    hide ReadLine;
    if lines == [] {
    } else {
      CollectSucceeds(lines[..|lines| - 1]);
    }
  }

  lemma {:induction false} MatricesAt(t: Table, keys: seq<int>)
    requires Known(t, keys)
    ensures |Matrices(t, keys)| == |keys|
    ensures forall k :: 0 <= k < |keys| ==> Matrices(t, keys)[k] == LoadedMatrix(t[keys[k]])
  {
    hide LoadedMatrix;
    if keys == [] {
    } else {
      MatricesAt(t, keys[..|keys| - 1]);
    }
  }

  lemma GroupMentioned(lines: seq<string>, t: Table, g: int)
    requires Collect(map[], lines) == Some(t) && NoneEmpty(t)
    ensures g in t <==> Mentioned(lines, g)
  {
    hide Collect, LastEntry;
    if g in t {
      assert |t[g].Keys| > 0;
      var k :| k in t[g].Keys;
      CollectKeepsLast(lines, g, k.0, k.1);
      assert LastEntry(lines, g, k.0, k.1).Some?;
    }
    if i: nat, j: nat :| LastEntry(lines, g, i, j).Some? {
      CollectKeepsLast(lines, g, i, j);
    }
  }

  lemma LoadedMatrixFrom(lines: seq<string>, t: Table, g: int)
    requires Collect(map[], lines) == Some(t) && g in t && t[g].Keys != {}
    ensures MatrixFrom(LoadedMatrix(t[g]), lines, g)
  {
    hide Collect, LastEntry;
    var e, m := t[g], LoadedMatrix(t[g]);
    forall i: nat, j: nat
      ensures LastEntry(lines, g, i, j) == if (i, j) in e then Some(e[(i, j)]) else None
    {
      CollectKeepsLast(lines, g, i, j);
    }
    var top := MaxIndex(e.Keys);
    var k :| k in e.Keys && (k.0 == top || k.1 == top);
    assert LastEntry(lines, g, k.0, k.1).Some?;
    forall i: nat, j: nat | LastEntry(lines, g, i, j).Some? ensures i < |m| && j < |m| {
      assert (i, j) in e.Keys;
    }
  }

  // ------------------------------------------------------------ what each line means

  lemma DataLineReads(g: nat, size: nat, i: nat, bytes: nat)
    requires size > 0
    ensures ReadLine(DataLine(g, size, i, bytes)) == Data(g, i / size, i % size, bytes)
    ensures Line(DataLine(g, size, i, bytes))
  {
    hide Decimal, ParseNat, Split, Line;
    var parts := [Decimal(g), Decimal(i / size), Decimal(i % size), Decimal(bytes)];
    DigitsAreToken(g);
    DigitsAreToken(i / size);
    DigitsAreToken(i % size);
    DigitsAreToken(bytes);
    SplitSpaced(parts);
    SpacedIsLine(parts);
    ParseDecimal(g);
    ParseDecimal(i / size);
    ParseDecimal(i % size);
    ParseDecimal(bytes);
    var line := DataLine(g, size, i, bytes);
    assert line == Decimal(g) + (" " + Spaced(parts[1..]));
    assert line[0] == Decimal(g)[0];
    assert IsDigit(Decimal(g)[0]);
    assert SkipSpaces(line) == line;
  }

  /** Every line that starts with `#` is passed over. */
  lemma CommentSkipped(tokens: seq<string>)
    requires |tokens| >= 2 && tokens[0] == "#"
    ensures ReadLine(Spaced(tokens)) == Skipped
  {
    var line := Spaced(tokens);
    assert line == "#" + (" " + Spaced(tokens[1..]));
    assert line[0] == '#';
  }

  // ------------------------------------------------------------ the round trip

  /** The entries of a group after its first `k` lines. */
  function EntriesOf(group: Group, k: nat): Entries
    requires ValidGroup(group) && k <= |group.sizes|
  {
    if k == 0 then map[]
    else
      PositiveSize(group);
      EntriesOf(group, k - 1)[((k - 1) / group.size, (k - 1) % group.size) := group.sizes[k - 1]]
  }

  predicate Before(group: Group, i: nat, j: nat, k: nat) {
    i < group.size && j < group.size && i * group.size + j < k
  }

  lemma {:induction false} EntryOf(group: Group, k: nat, i: nat, j: nat)
    requires ValidGroup(group) && k <= |group.sizes|
    ensures (i, j) in EntriesOf(group, k) <==> Before(group, i, j, k)
    ensures Before(group, i, j, k) ==> EntriesOf(group, k)[(i, j)] == group.sizes[i * group.size + j]
  {
    if k == 0 {
    } else {
      EntryOf(group, k - 1, i, j);
      PositiveSize(group);
      LastPlace(group, k, i, j);
    }
  }

  /** Line k-1 is about source (k-1)/n and destination (k-1)%n, and only about them. */
  lemma LastPlace(group: Group, k: nat, i: nat, j: nat)
    requires ValidGroup(group) && 0 < k <= |group.sizes| && group.size > 0
    ensures Before(group, i, j, k) <==>
      Before(group, i, j, k - 1) || (i == (k - 1) / group.size && j == (k - 1) % group.size)
    ensures i == (k - 1) / group.size && j == (k - 1) % group.size ==> i * group.size + j == k - 1
  {
    var n := group.size;
    var q, r := (k - 1) / n, (k - 1) % n;
    assert q * n + r == k - 1;
    if i == q && j == r {
      QuotientBelow(k - 1, n);
    } else if i < n && j < n && i * n + j == k - 1 {
      DivModUnique(k - 1, n, i, j);
    }
  }

  lemma QuotientBelow(x: nat, n: nat)
    requires n > 0 && x < n * n
    ensures x / n < n
  {
    var q := x / n;
    assert q * n <= x;
    MulAtLeast(q - n, n);
    assert (q - n) * n == q * n - n * n;
  }

  lemma FullEntries(group: Group)
    requires ValidGroup(group) && group.size > 0
    ensures EntriesOf(group, |group.sizes|).Keys != {}
    ensures LoadedMatrix(EntriesOf(group, |group.sizes|)) == MatrixOf(group)
  {
    hide EntriesOf;
    var n := group.size;
    var e := EntriesOf(group, |group.sizes|);
    forall i: nat, j: nat
      ensures (i, j) in e <==> i < n && j < n
      ensures i < n && j < n ==> i * n + j < n * n && e[(i, j)] == group.sizes[i * n + j]
    {
      EntryOf(group, |group.sizes|, i, j);
      if i < n && j < n {
        RowMajor(i, j, n, n);
      }
    }
    assert (n - 1, n - 1) in e;
    var m := MaxIndex(e.Keys);
    assert (n - 1, n - 1) in e.Keys;
    assert m == n - 1;
    var a, b := LoadedMatrix(e), MatrixOf(group);
    forall i | 0 <= i < n ensures a[i] == b[i] {
      forall j | 0 <= j < n ensures a[i][j] == b[i][j] {
      }
    }
  }

  /** The table of the whole file. */
  function TableOf(gs: seq<Group>): (t: Table)
    requires ValidGroups(gs)
    ensures forall g :: g in t ==> 0 <= g < |gs|
  {
    if gs == [] then map[]
    else
      var g := |gs| - 1;
      var t := TableOf(gs[..g]);
      if gs[g].size == 0 then t else t[g := EntriesOf(gs[g], |gs[g].sizes|)]
  }

  lemma {:induction false} CollectAppend(t: Table, a: seq<string>, b: seq<string>)
    requires Collect(t, a).Some?
    ensures Collect(t, a + b) == Collect(Collect(t, a).value, b)
    decreases |b|
  {
    if b == [] {
      assert a + b == a;
    } else {
      CollectAppend(t, a, b[..|b| - 1]);
      assert (a + b)[..|a + b| - 1] == a + b[..|b| - 1];
    }
  }

  lemma {:induction false} CollectGroup(t: Table, g: nat, group: Group, k: nat)
    requires ValidGroup(group) && k <= |group.sizes| && g !in t
    ensures Collect(t, DataLines(g, group, k)) == Some(if k == 0 then t else t[g := EntriesOf(group, k)])
  {
    hide ReadLine, DataLine, Spaced, EntriesOf, Collect;
    var lines := DataLines(g, group, k);
    if k == 0 {
      CollectNothing(t);
    } else {
      CollectGroup(t, g, group, k - 1);
      PositiveSize(group);
      DataLineReads(g, group.size, k - 1, group.sizes[k - 1]);
      assert lines[..k - 1] == DataLines(g, group, k - 1);
      CollectData(t, lines);
      AddEntry(t, g, group, k);
    }
  }

  lemma CollectNothing(t: Table)
    ensures Collect(t, []) == Some(t)
  {
  }

  lemma CollectData(t: Table, lines: seq<string>)
    requires lines != [] && ReadLine(lines[|lines| - 1]).Data? && Collect(t, lines[..|lines| - 1]).Some?
    ensures Collect(t, lines)
      == Some(Add(Collect(t, lines[..|lines| - 1]).value, ReadLine(lines[|lines| - 1])))
  {
  }

  /** The k-th line of a group adds its k-th entry. */
  lemma AddEntry(t: Table, g: nat, group: Group, k: nat)
    requires ValidGroup(group) && 0 < k <= |group.sizes| && group.size > 0 && g !in t
    ensures Add(if k == 1 then t else t[g := EntriesOf(group, k - 1)],
                Data(g, (k - 1) / group.size, (k - 1) % group.size, group.sizes[k - 1]))
      == t[g := EntriesOf(group, k)]
  {
    assert EntriesOf(group, 0) == map[];
  }

  lemma {:induction false} CollectGroups(gs: seq<Group>)
    requires ValidGroups(gs)
    ensures Collect(map[], GroupLines(gs)) == Some(TableOf(gs))
  {
    if gs == [] {
    } else {
      var g := |gs| - 1;
      CollectGroups(gs[..g]);
      var a, h := GroupLines(gs[..g]), GroupHeader(g, gs[g].size);
      CommentSkipped(["#", "Group", Decimal(g) + ":", Decimal(gs[g].size), "nodes"]);
      assert (a + [h])[..|a|] == a;
      assert Collect(map[], a + [h]) == Some(TableOf(gs[..g]));
      PositiveSize(gs[g]);
      CollectGroup(TableOf(gs[..g]), g, gs[g], |gs[g].sizes|);
      CollectAppend(map[], a + [h], DataLines(g, gs[g], |gs[g].sizes|));
    }
  }

  lemma CollectSaved(gs: seq<Group>)
    requires ValidGroups(gs)
    ensures Collect(map[], Preamble(|gs|) + GroupLines(gs)) == Some(TableOf(gs))
  {
    var p := Preamble(|gs|);
    CommentSkipped(["#", "AlltoallV", "Message", "Sizes", "Configuration"]);
    CommentSkipped(["#", "Groups:", Decimal(|gs|)]);
    hide ReadLine, Spaced;
    assert p[..1][..0] == [];
    assert Collect(map[], p[..1]) == Some(map[]);
    assert Collect(map[], p) == Some(map[]);
    CollectAppend(map[], p, GroupLines(gs));
    CollectGroups(gs);
  }

  lemma {:induction false} DataLinesAreLines(g: nat, group: Group, k: nat)
    requires ValidGroup(group) && k <= |group.sizes|
    ensures forall i :: 0 <= i < k ==> Line(DataLines(g, group, k)[i])
  {
    hide DataLine, Line;
    if k == 0 {
    } else {
      DataLinesAreLines(g, group, k - 1);
      PositiveSize(group);
      DataLineReads(g, group.size, k - 1, group.sizes[k - 1]);
    }
  }

  lemma HeaderIsLine(g: nat, size: nat)
    ensures Line(GroupHeader(g, size))
  {
    DigitsAreToken(g);
    DigitsAreToken(size);
    var id := Decimal(g) + ":";
    assert NoSpace(id);
    SpacedIsLine(["#", "Group", id, Decimal(size), "nodes"]);
  }

  lemma {:induction false} GroupLinesAreLines(gs: seq<Group>)
    requires ValidGroups(gs)
    ensures forall i :: 0 <= i < |GroupLines(gs)| ==> Line(GroupLines(gs)[i])
  {
    if gs == [] {
    } else {
      var g := |gs| - 1;
      GroupLinesAreLines(gs[..g]);
      HeaderIsLine(g, gs[g].size);
      DataLinesAreLines(g, gs[g], |gs[g].sizes|);
      hide Line, GroupHeader, DataLines;
      var a, d := GroupLines(gs[..g]), DataLines(g, gs[g], |gs[g].sizes|);
      assert GroupLines(gs) == a + [GroupHeader(g, gs[g].size)] + d;
    }
  }

  lemma PreambleIsLines(count: nat)
    ensures Line(Preamble(count)[0]) && Line(Preamble(count)[1])
  {
    hide Line;
    DigitsAreToken(count);
    SpacedIsLine(["#", "AlltoallV", "Message", "Sizes", "Configuration"]);
    SpacedIsLine(["#", "Groups:", Decimal(count)]);
  }

  lemma SavedLines(gs: seq<Group>)
    requires ValidGroups(gs)
    ensures Lines(Saved(gs)) == Preamble(|gs|) + GroupLines(gs)
  {
    hide *;
    SavedIs(gs);
    PreambleSize(|gs|);
    PreambleIsLines(|gs|);
    GroupLinesAreLines(gs);
    var p, q := Preamble(|gs|), GroupLines(gs);
    forall k | 0 <= k < |p + q| ensures Line((p + q)[k]) {
      if k >= 2 {
        assert (p + q)[k] == q[k - 2];
      }
    }
    LinesOfConcat(p + q);
  }

  lemma SavedIs(gs: seq<Group>)
    requires ValidGroups(gs)
    ensures Saved(gs) == Concat(Preamble(|gs|) + GroupLines(gs))
  {
  }

  lemma PreambleSize(count: nat)
    ensures |Preamble(count)| == 2
  {
  }

  // ------------------------------------------------------------ the groups in order

  /** The numbers of the groups that have members. */
  function Ids(gs: seq<Group>): (r: seq<int>)
    ensures forall k :: 0 <= k < |r| ==> 0 <= r[k] < |gs|
    ensures Increasing(r)
  {
    if gs == [] then []
    else
      var g := |gs| - 1;
      if gs[g].size == 0 then Ids(gs[..g]) else Ids(gs[..g]) + [g]
  }

  /** The matrices of the groups that have members. */
  function NonEmptyMatrices(gs: seq<Group>): seq<Matrix>
    requires ValidGroups(gs)
  {
    if gs == [] then []
    else
      var g := |gs| - 1;
      if gs[g].size == 0 then NonEmptyMatrices(gs[..g]) else NonEmptyMatrices(gs[..g]) + [MatrixOf(gs[g])]
  }

  lemma {:induction false} TableKeys(gs: seq<Group>)
    requires ValidGroups(gs)
    ensures forall x :: x in Ids(gs) <==> x in TableOf(gs)
    ensures NoneEmpty(TableOf(gs))
  {
    if gs == [] {
    } else {
      var g := |gs| - 1;
      TableKeys(gs[..g]);
      if gs[g].size > 0 {
        FullEntries(gs[g]);
      }
    }
  }

  lemma {:induction false} MatricesAgree(t: Table, u: Table, keys: seq<int>)
    requires Known(t, keys) && Known(u, keys)
    requires forall k :: 0 <= k < |keys| ==> t[keys[k]] == u[keys[k]]
    ensures Matrices(t, keys) == Matrices(u, keys)
  {
    hide LoadedMatrix;
    if keys == [] {
    } else {
      MatricesAgree(t, u, keys[..|keys| - 1]);
    }
  }

  lemma MatricesStep(t: Table, keys: seq<int>, g: int)
    requires Known(t, keys) && g in t && t[g].Keys != {}
    ensures Known(t, keys + [g])
    ensures Matrices(t, keys + [g]) == Matrices(t, keys) + [LoadedMatrix(t[g])]
  {
    hide LoadedMatrix;
    assert (keys + [g])[..|keys|] == keys;
  }

  lemma IdsKnown(gs: seq<Group>)
    requires ValidGroups(gs)
    ensures Known(TableOf(gs), Ids(gs))
  {
    TableKeys(gs);
    forall k | 0 <= k < |Ids(gs)|
      ensures Ids(gs)[k] in TableOf(gs) && TableOf(gs)[Ids(gs)[k]].Keys != {}
    {
      assert Ids(gs)[k] in Ids(gs);
    }
  }

  lemma {:induction false} MatricesOfTable(gs: seq<Group>)
    requires ValidGroups(gs)
    ensures Known(TableOf(gs), Ids(gs))
    ensures Matrices(TableOf(gs), Ids(gs)) == NonEmptyMatrices(gs)
  {
    hide EntriesOf, MatrixOf, LoadedMatrix, Matrices, TableOf, Ids;
    IdsKnown(gs);
    if gs == [] {
      NoMatrices(gs);
    } else {
      var g := |gs| - 1;
      MatricesOfTable(gs[..g]);
      if gs[g].size > 0 {
        FullEntries(gs[g]);
        TableStep(gs);
        NextMatrix(TableOf(gs), TableOf(gs[..g]), Ids(gs[..g]), g);
      } else {
        NoMatrices(gs);
      }
    }
  }

  lemma NoMatrices(gs: seq<Group>)
    requires gs == [] || gs[|gs| - 1].size == 0
    ensures gs == [] ==> Ids(gs) == [] && TableOf(gs) == map[] && Matrices(map[], []) == []
    ensures gs != [] && ValidGroups(gs) ==>
      Ids(gs) == Ids(gs[..|gs| - 1]) && TableOf(gs) == TableOf(gs[..|gs| - 1])
  {
  }

  lemma TableStep(gs: seq<Group>)
    requires ValidGroups(gs) && gs != [] && gs[|gs| - 1].size > 0
    ensures var g := |gs| - 1; var e := EntriesOf(gs[g], |gs[g].sizes|);
      TableOf(gs) == TableOf(gs[..g])[g := e] && Ids(gs) == Ids(gs[..g]) + [g]
  {
  }

  lemma NextMatrix(t: Table, u: Table, keys: seq<int>, g: int)
    requires Known(u, keys) && g !in u && g in t && t[g].Keys != {} && t == u[g := t[g]]
    ensures Known(t, keys + [g]) && Matrices(t, keys + [g]) == Matrices(u, keys) + [LoadedMatrix(t[g])]
  {
    hide LoadedMatrix, Matrices;
    MatricesStep(t, keys, g);
    MatricesAgree(t, u, keys);
  }

  /** Reading a saved file gives back the matrix of every group that has
      members, in order; groups without members leave no line behind.  */
  lemma RoundTrip(gs: seq<Group>)
    requires ValidGroups(gs)
    ensures Loaded(Saved(gs)) == Some(NonEmptyMatrices(gs))
  {
    hide Ids, Collect, Saved, Matrices, NonEmptyMatrices, TableOf;
    SavedLines(gs);
    CollectSaved(gs);
    TableKeys(gs);
    MatricesOfTable(gs);
    OnlyOneOrder(SortedKeys(TableOf(gs).Keys), Ids(gs));
  }

  /** If every group has members, the file holds exactly what was saved. */
  lemma {:induction false} AllGroupsComeBack(gs: seq<Group>)
    requires ValidGroups(gs)
    ensures (forall k :: 0 <= k < |gs| ==> gs[k].size > 0) <==> |NonEmptyMatrices(gs)| == |gs|
    ensures |NonEmptyMatrices(gs)| <= |gs|
    ensures |NonEmptyMatrices(gs)| == |gs| ==>
      forall k :: 0 <= k < |gs| ==> NonEmptyMatrices(gs)[k] == MatrixOf(gs[k])
  {
    if gs == [] {
    } else {
      AllGroupsComeBack(gs[..|gs| - 1]);
    }
  }
}
