/** The two programs that read the message-size file: the analyzer's loader
    (simulation/analysis/optimal_jct_analyzer.py), and the receiver-only ideal
    completion time and the group size of
    simulation/parser/parse_jct_with_ideal.py.  */
module MessageFileReaders {
  import opened Arithmetic
  import opened OptimalJct
  import opened Sorting
  import opened Wrappers
  import opened Text
  import opened MessageFile
  import opened Incast
  import Grids

  // ------------------------------------------------------------ the analyzer's loader

  /** The largest index among the keys of a group's dictionary. */
  method LargestIndex(e: Entries) returns (m: nat)
    requires e.Keys != {}
    ensures m == MaxIndex(e.Keys)
  {
    m := 0;
    var left: set<(nat, nat)> := e.Keys;
    while left != {}
      invariant left <= e.Keys
      invariant forall k :: k in e.Keys - left ==> k.0 <= m && k.1 <= m
      invariant left == e.Keys || exists k :: k in e.Keys && (k.0 == m || k.1 == m)
      decreases left
    {
      assert |left| > 0;
      var k :| k in left;
      assert k in e.Keys;
      if k.0 > m || left == e.Keys {
        m := k.0;
      }
      if k.1 > m {
        m := k.1;
      }
      left := left - {k};
    }
    assert IsMaxIndex(e.Keys, m);
  }

  lemma KeysBelow(e: Entries)
    requires e.Keys != {}
    ensures forall k :: k in e ==> k.0 <= MaxIndex(e.Keys) && k.1 <= MaxIndex(e.Keys)
  {
    assert IsMaxIndex(e.Keys, MaxIndex(e.Keys));
    assert forall k :: k in e ==> k in e.Keys;
  }

  /** Copies the entries in whatever order the dictionary yields them. */
  method CopyEntries(e: Entries, a: array2<nat>)
    requires a.Length0 == a.Length1 && forall k :: k in e ==> k.0 < a.Length0 && k.1 < a.Length0
    requires forall i, j :: 0 <= i < a.Length0 && 0 <= j < a.Length0 ==> a[i, j] == 0
    modifies a
    ensures BytesOf(a) == Filled(a.Length0, e)
  {
    hide BytesOf, Filled;
    var n := a.Length0;
    var left := e.Keys;
    while left != {}
      invariant left <= e.Keys
      invariant forall i: nat, j: nat :: i < n && j < n ==>
        a[i, j] == (if (i, j) in e && (i, j) !in left then e[(i, j)] else 0)
      decreases left
    {
      assert |left| > 0;
      var k :| k in left;
      assert k in e;
      a[k.0, k.1] := e[k];
      left := left - {k};
    }
    SameMatrix(BytesOf(a), Filled(n, e));
  }

  /** Zeros, then the entries. */
  method GroupMatrix(e: Entries) returns (m: Matrix)
    requires e.Keys != {}
    ensures m == LoadedMatrix(e)
  {
    hide MaxIndex, Filled, BytesOf, IsMaxIndex;
    var top := LargestIndex(e);
    KeysBelow(e);
    var a := new nat[top + 1, top + 1]((_, _) => 0);
    CopyEntries(e, a);
    m := ReadOut(a);
  }

  method ReadOut(a: array2<nat>) returns (m: Matrix)
    ensures m == BytesOf(a)
  {
    ghost var b := BytesOf(a);
    m := [];
    for i := 0 to a.Length0
      invariant m == b[..i]
    {
      var row: seq<nat> := [];
      for j := 0 to a.Length1
        invariant row == b[i][..j]
      {
        row := row + [a[i, j]];
      }
      assert row == b[i];
      m := m + [row];
    }
  }

  method Load(text: string) returns (r: Option<seq<Matrix>>)
    ensures r == Loaded(text)
  {
    hide Lines, ReadLine, Matrices, MaxIndex;
    var lines := Lines(text);
    var t: Table := map[];
    CollectNoneEmpty(map[], lines);
    for i := 0 to |lines|
      invariant Collect(map[], lines[..i]) == Some(t)
      invariant Collect(map[], lines[..i]).Some?
    {
      assert lines[..i + 1][..i] == lines[..i];
      var p := ReadLine(lines[i]);
      if p.Malformed? {
        Fails(lines, i);
        return None;
      }
      if p.Data? {
        t := Add(t, p);
      }
    }
    assert lines[..|lines|] == lines;
    AllKnown(t);
    var ms := AllMatrices(t, SortedKeys(t.Keys));
    r := Some(ms);
  }

  /** A malformed line fails the whole file. */
  lemma {:induction false} Fails(lines: seq<string>, i: nat)
    requires i < |lines| && ReadLine(lines[i]) == Malformed
    ensures Collect(map[], lines) == None
  {
    var n := |lines| - 1;
    hide ReadLine;
    if i == n {
    } else {
      Fails(lines[..n], i);
    }
  }

  method AllMatrices(t: Table, keys: seq<int>) returns (ms: seq<Matrix>)
    requires Known(t, keys)
    ensures ms == Matrices(t, keys)
  {
    hide LoadedMatrix;
    ms := [];
    for k := 0 to |keys|
      invariant ms == Matrices(t, keys[..k])
    {
      var m := GroupMatrix(t[keys[k]]);
      ms := ms + [m];
      assert keys[..k + 1][..k] == keys[..k];
    }
    assert keys[..|keys|] == keys;
  }

  // ------------------------------------------------------------ bytes received in the first group

  datatype Step = Pass | Stop | Take(dst: nat, bytes: nat) | Fail

  predicate Comment(line: string) {
    line != "" && line[0] == '#'
  }

  /** One line of the receiver loop. */
  function ReceiverLine(line: string): Step {
    if Comment(line) || SkipSpaces(line) == "" then Pass
    else
      var parts := Split(line);
      if |parts| < 4 then Pass
      else if ParseNat(parts[0]).None? then Fail
      else if ParseNat(parts[0]).value > 0 then Stop
      else
        var p := ReadParts(parts[..4]);
        if p.Data? then Take(p.dst, p.bytes) else Fail
  }

  /** What the receiver loop should make of a line as the analyzer reads it. */
  function Expected(line: string): Step {
    match ReadLine(line)
    case Skipped => Pass
    case Data(g, _, dst, bytes) => if g > 0 then Stop else Take(dst, bytes)
    case Malformed => (var g := ParseNat(Split(line)[0]); if g.Some? && g.value > 0 then Stop else Fail)
  }

  /** The two programs read a line alike, except that the analyzer skips lines
      with more than four tokens and takes `#` for a comment behind blanks, too.  */
  lemma ReadersAgreeExactlyWhen(line: string)
    ensures ReceiverLine(line) == Expected(line)
      <==> Comment(line) || |Split(line)| < 4 || (|Split(line)| == 4 && !StartsWith(SkipSpaces(line), "#"))
  {
    hide Split, SkipSpaces, ParseNat;
    SplitAfterSpaces(line);
    CommentStaysComment(line);
    StartsWithHash(SkipSpaces(line));
    var parts := Split(line);
    if |parts| >= 4 {
      HashIsNoNumber(parts[0]);
      assert |parts| == 4 ==> parts[..4] == parts;
    }
  }

  lemma CommentStaysComment(line: string)
    ensures Comment(line) ==> SkipSpaces(line) == line
  {
  }

  lemma StartsWithHash(s: string)
    ensures StartsWith(s, "#") <==> s != "" && s[0] == '#'
  {
    assert |s| >= 1 ==> s[..1][0] == s[0];
  }

  lemma HashIsNoNumber(t: string)
    requires t != ""
    ensures t[0] == '#' ==> ParseNat(t).None?
  {
    assert !IsDigit('#');
  }

  type Received = map<nat, nat>

  datatype Progress = Going(recv: Received) | Stopped(recv: Received) | Failed

  function TakeBytes(recv: Received, dst: nat, bytes: nat): Received {
    recv[dst := (if dst in recv then recv[dst] else 0) + bytes]
  }

  function Advance(p: Progress, s: Step): Progress {
    if !p.Going? then p
    else
      match s
      case Pass => p
      case Stop => Stopped(p.recv)
      case Take(dst, bytes) => Going(TakeBytes(p.recv, dst, bytes))
      case Fail => Failed
  }

  function Receive(lines: seq<string>): Progress {
    if lines == [] then Going(map[])
    else Advance(Receive(lines[..|lines| - 1]), ReceiverLine(lines[|lines| - 1]))
  }

  ghost predicate Largest(recv: Received, v: nat) {
    (exists j :: j in recv && recv[j] == v) && forall j :: j in recv ==> recv[j] <= v
  }

  /** Microseconds for `bytes` at `bps` bits per second. */
  function Micros(bytes: nat, bps: real): real
    requires bps > 0.0
  {
    bytes as real / (bps / 8.0) * 1000000.0
  }

  /** `calculate_ideal_jct_from_message_sizes` */
  method ReceiverIdeal(text: string, bps: real) returns (us: Option<real>)
    requires bps > 0.0
    ensures var p := Receive(Lines(text));
      if p.Failed? || p.recv == map[] then us == None
      else exists v: nat :: Largest(p.recv, v) && us == Some(Micros(v, bps))
  {
    hide Lines, ReceiverLine;
    var lines := Lines(text);
    var recv: Received := map[];
    var i := 0;
    while i < |lines|
      invariant 0 <= i <= |lines| && Receive(lines[..i]) == Going(recv)
    {
      assert lines[..i + 1][..i] == lines[..i];
      var s := ReceiverLine(lines[i]);
      if s.Fail? {
        NoneAfter(lines, i + 1);
        return None;
      }
      if s.Stop? {
        break;
      }
      if s.Take? {
        recv := TakeBytes(recv, s.dst, s.bytes);
      }
      i := i + 1;
    }
    if i < |lines| {
      NoneAfter(lines, i + 1);
    } else {
      assert lines[..|lines|] == lines;
    }
    if recv == map[] {
      return None;
    }
    var v := LargestValue(recv);
    us := Some(Micros(v, bps));
  }

  /** Nothing after the end of the loop matters. */
  lemma {:induction false} NoneAfter(lines: seq<string>, i: nat)
    requires i <= |lines| && !Receive(lines[..i]).Going?
    ensures Receive(lines) == Receive(lines[..i])
  {
    if i == |lines| {
      assert lines[..i] == lines;
    } else {
      assert lines[..|lines| - 1][..i] == lines[..i];
      NoneAfter(lines[..|lines| - 1], i);
    }
  }

  method LargestValue(recv: Received) returns (v: nat)
    requires recv != map[]
    ensures Largest(recv, v)
  {
    v := 0;
    var left := recv.Keys;
    while left != {}
      invariant left <= recv.Keys
      invariant forall j :: j in recv.Keys - left ==> recv[j] <= v
      invariant left == recv.Keys || exists j :: j in recv && recv[j] == v
      decreases left
    {
      assert |left| > 0;
      var j :| j in left;
      assert j in recv;
      if recv[j] > v || left == recv.Keys {
        v := recv[j];
      }
      left := left - {j};
    }
  }

  // ------------------------------------------------------------ on a saved file

  lemma DataLineReceived(g: nat, size: nat, i: nat, bytes: nat)
    requires size > 0
    ensures ReceiverLine(DataLine(g, size, i, bytes)) == if g > 0 then Stop else Take(i % size, bytes)
  {
    DataLineReads(g, size, i, bytes);
    var line := DataLine(g, size, i, bytes);
    var parts := Split(line);
    if SkipSpaces(line) == line {
      assert parts[..4] == parts;
    }
    DataLineStarts(g, size, i, bytes);
  }

  lemma DataLineStarts(g: nat, size: nat, i: nat, bytes: nat)
    requires size > 0
    ensures !Comment(DataLine(g, size, i, bytes)) && SkipSpaces(DataLine(g, size, i, bytes)) != ""
    ensures Split(DataLine(g, size, i, bytes)) == [Decimal(g), Decimal(i / size), Decimal(i % size), Decimal(bytes)]
    ensures ParseNat(Decimal(g)) == Some(g)
  {
    hide ParseNat, Split;
    var parts := [Decimal(g), Decimal(i / size), Decimal(i % size), Decimal(bytes)];
    DigitsAreToken(g);
    DigitsAreToken(i / size);
    DigitsAreToken(i % size);
    DigitsAreToken(bytes);
    SplitSpaced(parts);
    ParseDecimal(g);
    var line := DataLine(g, size, i, bytes);
    assert line == Decimal(g) + (" " + Spaced(parts[1..]));
    assert line[0] == Decimal(g)[0];
    assert IsDigit(Decimal(g)[0]);
  }

  lemma CommentPasses(tokens: seq<string>)
    requires |tokens| >= 2 && tokens[0] == "#"
    ensures ReceiverLine(Spaced(tokens)) == Pass
  {
    assert Spaced(tokens) == "#" + (" " + Spaced(tokens[1..]));
    assert Spaced(tokens)[0] == '#';
  }

  /** What the first `k` lines of a group add up to for each destination. */
  function ReceivedOf(group: Group, k: nat): Received
    requires ValidGroup(group) && k <= |group.sizes|
  {
    if k == 0 then map[]
    else
      PositiveSize(group);
      TakeBytes(ReceivedOf(group, k - 1), (k - 1) % group.size, group.sizes[k - 1])
  }

  /** How many of the first `k` entries are in column `j`. */
  function RowsSeen(n: nat, k: nat, j: nat): nat
    requires n > 0
  {
    k / n + if j < k % n then 1 else 0
  }

  lemma RowsStep(n: nat, k: nat, j: nat)
    requires n > 0 && k > 0 && j < n
    ensures j == (k - 1) % n ==> RowsSeen(n, k - 1, j) == (k - 1) / n && RowsSeen(n, k, j) == (k - 1) / n + 1
    ensures j != (k - 1) % n ==> RowsSeen(n, k, j) == RowsSeen(n, k - 1, j)
  {
    DivModStep(k - 1, n);
  }

  lemma RowsBound(n: nat, k: nat, j: nat)
    requires n > 0 && k <= n * n && j < n
    ensures RowsSeen(n, k, j) <= n
    ensures k == n * n ==> RowsSeen(n, k, j) == n
  {
    if k < n * n {
      QuotientBelow(k, n);
    } else {
      DivModUnique(k, n, n, 0);
    }
  }

  /** After `k` lines every destination has the part of its column read so far. */
  lemma {:induction false} ReceivedIsColumnPrefix(group: Group, k: nat, j: nat)
    requires ValidGroup(group) && k <= |group.sizes| && group.size > 0
    ensures j in ReceivedOf(group, k) <==> j < group.size && RowsSeen(group.size, k, j) > 0
    ensures j < group.size ==> RowsSeen(group.size, k, j) <= group.size
    ensures j in ReceivedOf(group, k) ==>
      ReceivedOf(group, k)[j]
        == OptimalJct.Load(MatrixOf(group), Column(j, group.size)[..RowsSeen(group.size, k, j)])
  {
    hide RowsSeen, ReceivedOf, OptimalJct.Load, MatrixOf;
    var n := group.size;
    if j < n {
      RowsBound(n, k, j);
      NoRows(n, j);
    }
    ReceivedStep(group, k);
    if k == 0 {
    } else {
      ReceivedIsColumnPrefix(group, k - 1, j);
      if j < n {
        RowsStep(n, k, j);
        if j == (k - 1) % n {
          QuotientBelow(k - 1, n);
          ColumnGrows(group, k, j);
        }
      }
    }
  }

  lemma NoRows(n: nat, j: nat)
    requires n > 0
    ensures RowsSeen(n, 0, j) == 0
  {
    DivModUnique(0, n, 0, 0);
  }

  lemma ReceivedStep(group: Group, k: nat)
    requires ValidGroup(group) && k <= |group.sizes| && group.size > 0
    ensures k == 0 ==> ReceivedOf(group, k) == map[]
    ensures k > 0 ==>
      ReceivedOf(group, k) == TakeBytes(ReceivedOf(group, k - 1), (k - 1) % group.size, group.sizes[k - 1])
    ensures k > 0 ==> (k - 1) % group.size < group.size
    ensures forall j: nat :: j < group.size ==> OptimalJct.Load(MatrixOf(group), Column(j, group.size)[..0]) == 0
  {
  }

  lemma ColumnGrows(group: Group, k: nat, j: nat)
    requires ValidGroup(group) && 0 < k <= |group.sizes| && j < group.size
    requires j == (k - 1) % group.size && (k - 1) / group.size < group.size
    ensures var n, i := group.size, (k - 1) / group.size;
      OptimalJct.Load(MatrixOf(group), Column(j, n)[..i + 1])
        == OptimalJct.Load(MatrixOf(group), Column(j, n)[..i]) + group.sizes[k - 1]
  {
    var n, i := group.size, (k - 1) / group.size;
    var c := Column(j, n);
    assert c[..i + 1][..i] == c[..i];
    assert i * n + j == k - 1;
    assert MatrixOf(group)[i][j] == group.sizes[k - 1];
  }

  /** The whole group: every destination with the bytes of its column. */
  lemma ReceivedIsLoad(group: Group)
    requires ValidGroup(group) && group.size > 0
    ensures forall j: nat :: j in ReceivedOf(group, |group.sizes|) <==> j < group.size
    ensures forall j: nat :: j < group.size ==>
      ReceivedOf(group, |group.sizes|)[j] == OptimalJct.Load(MatrixOf(group), Column(j, group.size))
  {
    var n := group.size;
    hide ReceivedOf, OptimalJct.Load;
    forall j: nat
      ensures j in ReceivedOf(group, |group.sizes|) <==> j < n
      ensures j < n ==> ReceivedOf(group, |group.sizes|)[j] == OptimalJct.Load(MatrixOf(group), Column(j, n))
    {
      ReceivedIsColumnPrefix(group, |group.sizes|, j);
      if j < n {
        RowsBound(n, n * n, j);
        assert Column(j, n)[..n] == Column(j, n);
      }
    }
  }

  lemma ReceiveStep(lines: seq<string>, line: string)
    ensures Receive(lines + [line]) == Advance(Receive(lines), ReceiverLine(line))
  {
    assert (lines + [line])[..|lines|] == lines;
  }

  lemma {:induction false} ReceiveFirstGroup(before: seq<string>, group: Group, k: nat)
    requires ValidGroup(group) && k <= |group.sizes| && Receive(before) == Going(map[])
    ensures Receive(before + DataLines(0, group, k)) == Going(ReceivedOf(group, k))
  {
    hide Receive, ReceiverLine, DataLine;
    if k == 0 {
      assert before + DataLines(0, group, 0) == before;
    } else {
      ReceiveFirstGroup(before, group, k - 1);
      PositiveSize(group);
      var line := DataLine(0, group.size, k - 1, group.sizes[k - 1]);
      DataLineReceived(0, group.size, k - 1, group.sizes[k - 1]);
      ReceiveStep(before + DataLines(0, group, k - 1), line);
      assert before + DataLines(0, group, k) == before + DataLines(0, group, k - 1) + [line];
    }
  }

  predicate Holds(p: Progress, recv: Received) {
    !p.Failed? && p.recv == recv
  }

  /** Later groups add nothing. */
  lemma {:induction false} ReceiveLaterGroup(before: seq<string>, g: nat, group: Group, k: nat, recv: Received)
    requires ValidGroup(group) && k <= |group.sizes| && g > 0 && Holds(Receive(before), recv)
    ensures Holds(Receive(before + DataLines(g, group, k)), recv)
  {
    hide Receive, ReceiverLine, DataLine;
    if k == 0 {
      assert before + DataLines(g, group, 0) == before;
    } else {
      ReceiveLaterGroup(before, g, group, k - 1, recv);
      PositiveSize(group);
      var line := DataLine(g, group.size, k - 1, group.sizes[k - 1]);
      DataLineReceived(g, group.size, k - 1, group.sizes[k - 1]);
      ReceiveStep(before + DataLines(g, group, k - 1), line);
      assert before + DataLines(g, group, k) == before + DataLines(g, group, k - 1) + [line];
    }
  }

  function FirstReceived(gs: seq<Group>): Received
    requires ValidGroups(gs)
  {
    if gs == [] then map[] else ReceivedOf(gs[0], |gs[0].sizes|)
  }

  lemma {:induction false} ReceiveGroups(before: seq<string>, gs: seq<Group>)
    requires ValidGroups(gs) && Receive(before) == Going(map[])
    ensures Holds(Receive(before + GroupLines(gs)), FirstReceived(gs))
    decreases |gs|
  {
    hide Receive, ReceiverLine, DataLines, ReceivedOf, GroupHeader;
    if gs == [] {
      assert before + GroupLines(gs) == before;
    } else {
      var g := |gs| - 1;
      ReceiveGroups(before, gs[..g]);
      HeaderPasses(g, gs[g].size);
      var a := before + GroupLines(gs[..g]);
      var h := GroupHeader(g, gs[g].size);
      ReceiveStep(a, h);
      var d := DataLines(g, gs[g], |gs[g].sizes|);
      assert before + GroupLines(gs) == (a + [h]) + d;
      if g == 0 {
        assert a == before;
        ReceiveFirstGroup(a + [h], gs[0], |gs[0].sizes|);
      } else {
        ReceiveLaterGroup(a + [h], g, gs[g], |gs[g].sizes|, FirstReceived(gs));
      }
    }
  }

  lemma HeaderPasses(g: nat, size: nat)
    ensures ReceiverLine(GroupHeader(g, size)) == Pass
  {
    CommentPasses(["#", "Group", Decimal(g) + ":", Decimal(size), "nodes"]);
  }

  /** Reading a saved file collects the columns of its first group. */
  lemma ReceiveSaved(gs: seq<Group>)
    requires ValidGroups(gs)
    ensures Holds(Receive(Lines(Saved(gs))), FirstReceived(gs))
  {
    SavedLines(gs);
    var p := Preamble(|gs|);
    CommentPasses(["#", "AlltoallV", "Message", "Sizes", "Configuration"]);
    CommentPasses(["#", "Groups:", Decimal(|gs|)]);
    assert p[..1][..0] == [];
    hide ReceiverLine, GroupLines, Lines;
    assert Receive(p[..1]) == Going(map[]);
    assert Receive(p) == Going(map[]);
    ReceiveGroups(p, gs);
  }

  lemma MicrosAreSeconds(bytes: nat, bps: real)
    requires bps > 0.0
    ensures Micros(bytes, bps) == Seconds(bytes, bps) * 1000000.0
  {
    var x := bytes as real;
    var q := x / (bps / 8.0);
    assert q * (bps / 8.0) == x;
    assert q * bps == x * 8.0;
    assert (bytes * 8) as real == x * 8.0;
  }

  /** The largest column is the receiver side of the ideal completion time. */
  lemma LargestIsReceiverTime(group: Group, v: nat, bps: real)
    requires ValidGroup(group) && group.size > 0 && bps > 0.0
    requires Largest(ReceivedOf(group, |group.sizes|), v)
    ensures Seconds(v, bps) == MaxOf(ReceiverTimes(MatrixOf(group), bps))
  {
    hide ReceivedOf, MaxOf, OptimalJct.Load, Seconds, MatrixOf;
    ReceivedIsLoad(group);
    var m := MatrixOf(group);
    var ts := ReceiverTimes(m, bps);
    var recv := ReceivedOf(group, |group.sizes|);
    var w: nat :| w in recv && recv[w] == v;
    assert ts[w] == Seconds(v, bps);
    assert ts[w] in ts;
    forall j | 0 <= j < |ts| ensures ts[j] <= Seconds(v, bps) {
      assert j in recv;
      LongerForMore(recv[j], v, bps);
    }
  }

  /** On a saved file the receiver-only estimate is the receiver side of the
      ideal completion time of the first group, in microseconds, so at the same
      bandwidth it never exceeds the analyzer's; there is none exactly if the
      first group has no members.  */
  lemma ReceiverIdealOfSaved(gs: seq<Group>, v: nat, bps: real)
    requires ValidGroups(gs) && bps > 0.0
    ensures var p := Receive(Lines(Saved(gs)));
      && !p.Failed?
      && (p.recv == map[] <==> gs == [] || gs[0].size == 0)
      && (p.recv != map[] && Largest(p.recv, v) ==>
            && Micros(v, bps) == MaxOf(ReceiverTimes(MatrixOf(gs[0]), bps)) * 1000000.0
            && Micros(v, bps) <= IdealJct(MatrixOf(gs[0]), bps) * 1000000.0)
  {
    hide Receive, Lines, Saved, ReceivedOf, MaxOf, Seconds, Micros, Largest, MatrixOf;
    ReceiveSaved(gs);
    var recv := FirstReceived(gs);
    FirstReceivedEmpty(gs);
    if recv != map[] && Largest(recv, v) {
      LargestIsReceiverTime(gs[0], v, bps);
      MicrosAreSeconds(v, bps);
    }
  }

  lemma FirstReceivedEmpty(gs: seq<Group>)
    requires ValidGroups(gs)
    ensures FirstReceived(gs) == map[] <==> gs == [] || gs[0].size == 0
  {
    if gs != [] {
      PositiveSize(gs[0]);
      if gs[0].size > 0 {
        ReceivedIsLoad(gs[0]);
        assert 0 in FirstReceived(gs);
      }
    }
  }

  // ------------------------------------------------------------ from generator to analysis

  /** Any generated matrix with at least one server survives being flattened,
      written and read back.  */
  lemma GeneratedFileReadsBack(m: Matrix)
    requires OptimalJct.Square(m) && m != []
    ensures ValidGroups([Group(|m|, Grids.Flat(m))])
    ensures Loaded(Saved([Group(|m|, Grids.Flat(m))])) == Some([m])
  {
    hide Loaded, Saved, MatrixOf, Grids.Flat, NonEmptyMatrices;
    var g := Group(|m|, Grids.Flat(m));
    MatrixOfFlat(m);
    RoundTrip([g]);
    OneGroup([g]);
  }

  lemma OneGroup(gs: seq<Group>)
    requires |gs| == 1 && ValidGroup(gs[0]) && gs[0].size > 0
    ensures NonEmptyMatrices(gs) == [MatrixOf(gs[0])]
  {
    hide MatrixOf;
    assert NonEmptyMatrices(gs[..0]) == [];
  }

  /** What the receiver-only reader makes of a file of incast sizes is the time
      the hottest receiver needs for `base` bytes.  */
  lemma IncastFileEstimate(base: nat, w: seq<real>, bps: real, v: nat)
    requires AllPositive(w) && |w| >= 2 && bps > 0.0
    ensures var gs := [Group(|w|, Grids.Flat(IncastMatrix(base, w)))];
      && ValidGroups(gs)
      && var p := Receive(Lines(Saved(gs)));
         !p.Failed? && p.recv != map[] && (Largest(p.recv, v) ==> Micros(v, bps) == Seconds(base, bps) * 1000000.0)
  {
    hide Receive, Lines, Saved, MatrixOf, Grids.Flat, Micros, Seconds, MaxOf, Largest, IncastMatrix;
    var m := IncastMatrix(base, w);
    MatrixOfFlat(m);
    ReceiverIdealOfSaved([Group(|w|, Grids.Flat(m))], v, bps);
    IncastReceiverTime(base, w, bps);
  }

  // ------------------------------------------------------------ the size of the first group

  /** `get_group_size_from_message_sizes` */
  function HeaderSize(lines: seq<string>): Option<nat> {
    if lines == [] then None
    else if StartsWith(lines[0], "# Group 0:") then
      var parts := Split(lines[0]);
      if |parts| < 4 then None else ParseNat(parts[3])
    else if SkipSpaces(lines[0]) != "" && !Comment(lines[0]) then None
    else HeaderSize(lines[1..])
  }

  method GroupSize(text: string) returns (size: Option<nat>)
    ensures size == HeaderSize(Lines(text))
  {
    hide Lines, Split, ParseNat;
    var lines := Lines(text);
    for i := 0 to |lines|
      invariant HeaderSize(lines) == HeaderSize(lines[i..])
    {
      assert lines[i..][1..] == lines[i + 1..];
      if StartsWith(lines[i], "# Group 0:") {
        var parts := Split(lines[i]);
        return if |parts| < 4 then None else ParseNat(parts[3]);
      }
      if SkipSpaces(lines[i]) != "" && !Comment(lines[i]) {
        return None;
      }
    }
    return None;
  }

  lemma SpacedThree(a: string, b: string, c: string, rest: seq<string>)
    requires rest != []
    ensures Spaced([a, b, c] + rest) == a + " " + b + " " + c + " " + Spaced(rest)
  {
    var t := [a, b, c] + rest;
    assert t[1..] == [b, c] + rest;
    assert t[1..][1..] == [c] + rest;
    assert t[1..][1..][1..] == rest;
    assert Spaced(t[1..][1..]) == c + (" " + Spaced(rest));
    assert Spaced(t[1..]) == b + (" " + Spaced(t[1..][1..]));
  }

  lemma ZeroColon()
    ensures Decimal(0) + ":" == "0:"
  {
    assert Decimal(0) == "0";
  }

  lemma HasPrefix(p: string, rest: string, s: string)
    requires s == p + rest
    ensures StartsWith(s, p)
  {
  }

  lemma HeaderTokens(size: nat)
    ensures GroupHeader(0, size) == Spaced(["#", "Group", "0:"] + [Decimal(size), "nodes"])
  {
    hide Decimal, Spaced;
    ZeroColon();
    assert ["#", "Group", Decimal(0) + ":", Decimal(size), "nodes"]
        == ["#", "Group", "0:"] + [Decimal(size), "nodes"];
  }

  lemma HeaderText(size: nat)
    ensures StartsWith(GroupHeader(0, size), "# Group 0:")
  {
    hide Decimal, Spaced, GroupHeader;
    var rest := [Decimal(size), "nodes"];
    HeaderTokens(size);
    SpacedThree("#", "Group", "0:", rest);
    var p := "#" + " " + "Group" + " " + "0:";
    assert p == "# Group 0:";
    HasPrefix(p, " " + Spaced(rest), GroupHeader(0, size));
  }

  lemma FirstHeader(size: nat)
    ensures StartsWith(GroupHeader(0, size), "# Group 0:")
    ensures |Split(GroupHeader(0, size))| == 5 && ParseNat(Split(GroupHeader(0, size))[3]) == Some(size)
  {
    hide Split, ParseNat, Decimal, Spaced, StartsWith, GroupHeader;
    HeaderText(size);
    HeaderTokens(size);
    DigitsAreToken(size);
    ParseDecimal(size);
    SplitSpaced(["#", "Group", "0:"] + [Decimal(size), "nodes"]);
  }

  lemma FirstPreambleLine()
    ensures var a := Spaced(["#", "AlltoallV", "Message", "Sizes", "Configuration"]);
      Comment(a) && !StartsWith(a, "# Group 0:")
  {
    var t := ["#", "AlltoallV", "Message", "Sizes", "Configuration"];
    SpacedThree("#", "AlltoallV", "Message", ["Sizes", "Configuration"]);
    assert t == ["#", "AlltoallV", "Message"] + ["Sizes", "Configuration"];
    var a := Spaced(t);
    assert a[0] == '#' && a[2] == 'A';
    Differs(a, "# Group 0:", 2);
  }

  lemma SecondPreambleLine(count: nat)
    ensures var b := Spaced(["#", "Groups:", Decimal(count)]);
      Comment(b) && !StartsWith(b, "# Group 0:")
  {
    hide Decimal;
    var t := ["#", "Groups:", Decimal(count)];
    var u := ["Groups:", Decimal(count)];
    assert t[1..] == u && u[1..] == [Decimal(count)];
    assert Spaced(u) == "Groups:" + (" " + Spaced(u[1..]));
    var b := Spaced(t);
    assert b == "#" + (" " + Spaced(u));
    assert b[0] == '#' && b[7] == Spaced(u)[5] == "Groups:"[5] == 's';
    Differs(b, "# Group 0:", 7);
  }

  lemma Differs(s: string, prefix: string, k: nat)
    requires k < |s| && k < |prefix| && s[k] != prefix[k]
    ensures !StartsWith(s, prefix)
  {
    assert |prefix| <= |s| ==> s[..|prefix|][k] == s[k];
  }

  lemma PreambleIsNoHeader(count: nat)
    ensures forall k :: 0 <= k < 2 ==>
      !StartsWith(Preamble(count)[k], "# Group 0:") && Comment(Preamble(count)[k])
  {
    hide Spaced, StartsWith, Comment;
    FirstPreambleLine();
    SecondPreambleLine(count);
  }

  /** The size read from the header of a saved file is that of its first group. */
  lemma HeaderOfSaved(gs: seq<Group>)
    requires ValidGroups(gs)
    ensures HeaderSize(Lines(Saved(gs))) == if gs == [] then None else Some(gs[0].size)
  {
    SavedLines(gs);
    PreambleIsNoHeader(|gs|);
    var p := Preamble(|gs|);
    var q := GroupLines(gs);
    hide Lines, Split, ParseNat, StartsWith, Comment, GroupHeader, Preamble, GroupLines;
    PreambleSize(|gs|);
    var all := p + q;
    assert all[1..][1..] == q;
    assert HeaderSize(all[1..]) == HeaderSize(q);
    assert HeaderSize(all) == HeaderSize(q);
    if gs != [] {
      FirstLine(gs);
      FirstHeader(gs[0].size);
    } else {
      NoLines();
    }
  }

  lemma NoLines()
    ensures GroupLines([]) == []
  {
  }

  lemma {:induction false} FirstLine(gs: seq<Group>)
    requires ValidGroups(gs) && gs != []
    ensures GroupLines(gs) != [] && GroupLines(gs)[0] == GroupHeader(0, gs[0].size)
  {
    if |gs| > 1 {
      FirstLine(gs[..|gs| - 1]);
    } else {
      assert GroupLines(gs[..0]) == [];
    }
  }
}
