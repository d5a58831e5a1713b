/** Text files as the Python scripts read and write them: lines, decimal
    numbers and tokens between blanks.  Characters are ASCII.  */
module Text {
  import opened Arithmetic
  import opened Wrappers

  // ------------------------------------------------------------ decimal numbers

  predicate IsDigit(c: char) {
    '0' <= c <= '9'
  }

  predicate AllDigits(s: string) {
    forall k :: 0 <= k < |s| ==> IsDigit(s[k])
  }

  function Digit(d: nat): (c: char)
    requires d < 10
    ensures IsDigit(c) && (c as int) - ('0' as int) == d
  {
    ('0' as int + d) as char
  }

  /** `str(n)` */
  function Decimal(n: nat): (s: string)
    ensures s != "" && AllDigits(s)
  {
    if n < 10 then [Digit(n)] else Decimal(n / 10) + [Digit(n % 10)]
  }

  function Value(s: string): nat
    requires AllDigits(s)
  {
    if s == "" then 0
    else Value(s[..|s| - 1]) * 10 + (s[|s| - 1] as int - '0' as int)
  }

  /** `int(s)` for a token of digits; anything else is a ValueError. */
  function ParseNat(s: string): Option<nat> {
    if s != "" && AllDigits(s) then Some(Value(s)) else None
  }

  lemma {:induction false} ParseDecimal(n: nat)
    ensures ParseNat(Decimal(n)) == Some(n)
  {
    var s := Decimal(n);
    if n < 10 {
      assert s[..|s| - 1] == "";
      assert Value(s[..|s| - 1]) == 0;
    } else {
      ParseDecimal(n / 10);
      assert s[..|s| - 1] == Decimal(n / 10);
      assert Value(s) == Value(Decimal(n / 10)) * 10 + n % 10;
    }
  }

  function Pow10(k: nat): (p: nat)
    ensures p > 0
  {
    if k == 0 then 1 else 10 * Pow10(k - 1)
  }

  /** The digits of `str(n)` from the right are those of n in base ten. */
  lemma {:induction false} DecimalDigits(n: nat, k: nat)
    requires k < |Decimal(n)|
    ensures Decimal(n)[|Decimal(n)| - 1 - k] as int - '0' as int == n / Pow10(k) % 10
  {
    if k == 0 {
      assert n / Pow10(0) == n;
    } else {
      DecimalDigits(n / 10, k - 1);
      DivideTwice(n, Pow10(k - 1));
    }
  }

  lemma DivideTwice(n: nat, p: nat)
    requires p > 0
    ensures n / 10 / p == n / (10 * p)
  {
    var a := n / 10;
    var q, r := a / p, a % p;
    assert a == q * p + r;
    assert n == q * (10 * p) + (10 * r + n % 10);
    assert 10 * r + n % 10 < 10 * p;
    DivModUnique(n, 10 * p, q, 10 * r + n % 10);
  }

  /** There are no leading zeros and no more digits than needed. */
  lemma {:induction false} DecimalLength(n: nat)
    ensures n < Pow10(|Decimal(n)|)
    ensures n > 0 ==> Pow10(|Decimal(n)| - 1) <= n
    ensures n == 0 ==> |Decimal(n)| == 1
  {
    if n < 10 {
      assert Pow10(1) == 10 && Pow10(0) == 1;
    } else {
      DecimalLength(n / 10);
    }
  }

  // ------------------------------------------------------------ tokens

  /** What separates the tokens of `str.split()`. */
  predicate IsSpace(c: char) {
    c == ' ' || '\t' <= c <= '\r' || 28 <= c as int <= 31
  }

  predicate NoSpace(s: string) {
    forall k :: 0 <= k < |s| ==> !IsSpace(s[k])
  }

  /** The length of the longest prefix without blanks. */
  function TokenEnd(s: string): (k: nat)
    ensures k <= |s| && NoSpace(s[..k]) && (k < |s| ==> IsSpace(s[k]))
  {
    if s == "" || IsSpace(s[0]) then 0
    else
      var k := TokenEnd(s[1..]);
      assert s[..k + 1] == [s[0]] + s[1..][..k];
      k + 1
  }

  /** `s.split()` */
  function Split(s: string): (r: seq<string>)
    ensures forall t :: t in r ==> t != "" && NoSpace(t)
    decreases |s|
  {
    if s == "" then []
    else if IsSpace(s[0]) then Split(s[1..])
    else
      var k := TokenEnd(s);
      [s[..k]] + Split(s[k..])
  }

  /** A token before a blank or the end is split off as it is. */
  lemma SplitToken(t: string, rest: string)
    requires t != "" && NoSpace(t) && (rest == "" || IsSpace(rest[0]))
    ensures Split(t + rest) == [t] + Split(rest)
  {
    var s := t + rest;
    TokenEndIs(t, rest);
    assert s[0] == t[0];
    assert s[..|t|] == t && s[|t|..] == rest;
  }

  lemma {:induction false} TokenEndIs(t: string, rest: string)
    requires NoSpace(t) && (rest == "" || IsSpace(rest[0]))
    ensures TokenEnd(t + rest) == |t|
  {
    if t == "" {
      assert t + rest == rest;
    } else {
      TokenEndIs(t[1..], rest);
      assert (t + rest)[1..] == t[1..] + rest;
    }
  }

  /** Tokens with one blank between them and a newline at the end. */
  function Spaced(tokens: seq<string>): (s: string)
    ensures s != "" && IsSpace(s[|s| - 1])
  {
    if tokens == [] then "\n"
    else if |tokens| == 1 then tokens[0] + "\n"
    else tokens[0] + (" " + Spaced(tokens[1..]))
  }

  predicate Token(t: string) {
    t != "" && NoSpace(t)
  }

  lemma {:induction false} SplitSpaced(tokens: seq<string>)
    requires forall k :: 0 <= k < |tokens| ==> Token(tokens[k])
    ensures Split(Spaced(tokens)) == tokens
    decreases |tokens|
  {
    hide Split, NoSpace;
    SplitSpace('\n', "");
    assert ['\n'] + "" == "\n";
    if |tokens| == 1 {
      SplitToken(tokens[0], "\n");
    } else if tokens != [] {
      SplitToken(tokens[0], " " + Spaced(tokens[1..]));
      SplitSpace(' ', Spaced(tokens[1..]));
      SplitSpaced(tokens[1..]);
    }
  }

  /** Leading blanks are not part of any token, and the first token starts at
      the first other character.  */
  lemma {:induction false} SplitAfterSpaces(s: string)
    ensures Split(s) == Split(SkipSpaces(s))
    ensures SkipSpaces(s) == "" ==> Split(s) == []
    ensures SkipSpaces(s) != "" ==> Split(s) != [] && Split(s)[0] != "" && Split(s)[0][0] == SkipSpaces(s)[0]
  {
    if s == "" {
    } else if IsSpace(s[0]) {
      SplitAfterSpaces(s[1..]);
    } else {
      assert SkipSpaces(s) == s;
      assert Split(s)[0] == s[..TokenEnd(s)];
      FirstToken(s);
    }
  }

  lemma FirstToken(s: string)
    requires s != "" && !IsSpace(s[0])
    ensures TokenEnd(s) > 0
  {
  }

  lemma SplitSpace(c: char, s: string)
    requires IsSpace(c)
    ensures Split([c] + s) == Split(s) && Split("") == []
  {
    assert ([c] + s)[1..] == s;
  }

  lemma DigitsAreToken(n: nat)
    ensures Token(Decimal(n))
  {
  }

  // ------------------------------------------------------------ lines

  predicate NoNewline(s: string) {
    forall k :: 0 <= k < |s| ==> s[k] != '\n'
  }

  /** One line with its newline. */
  predicate Line(s: string) {
    s != "" && s[|s| - 1] == '\n' && NoNewline(s[..|s| - 1])
  }

  /** Such a line ends at its only newline. */
  lemma {:induction false} SpacedIsLine(tokens: seq<string>)
    requires forall k :: 0 <= k < |tokens| ==> Token(tokens[k])
    ensures Line(Spaced(tokens))
    decreases |tokens|
  {
    if |tokens| >= 2 {
      SpacedIsLine(tokens[1..]);
      var rest := Spaced(tokens[1..]);
      var s := Spaced(tokens);
      assert s[..|s| - 1] == tokens[0] + (" " + rest[..|rest| - 1]);
    } else if |tokens| == 1 {
      assert Spaced(tokens)[..|tokens[0]|] == tokens[0];
    }
  }

  /** Just past the first newline, or the end. */
  function LineEnd(s: string): (k: nat)
    requires s != ""
    ensures 0 < k <= |s|
  {
    if s[0] == '\n' || |s| == 1 then 1 else LineEnd(s[1..]) + 1
  }

  /** `f.readlines()` */
  function Lines(text: string): seq<string>
    decreases |text|
  {
    if text == "" then []
    else [text[..LineEnd(text)]] + Lines(text[LineEnd(text)..])
  }

  function Concat(lines: seq<string>): string {
    if lines == [] then "" else lines[0] + Concat(lines[1..])
  }

  lemma {:induction false} LineEndIs(line: string, rest: string)
    requires Line(line)
    ensures line + rest != "" && LineEnd(line + rest) == |line|
  {
    if |line| == 1 {
    } else {
      assert line[..|line| - 1][0] == line[0];
      assert line[1..][..|line| - 2] == line[..|line| - 1][1..];
      LineEndIs(line[1..], rest);
      assert (line + rest)[1..] == line[1..] + rest;
    }
  }

  /** Reading back what was written line by line gives the same lines. */
  lemma {:induction false} LinesOfConcat(lines: seq<string>)
    requires forall k :: 0 <= k < |lines| ==> Line(lines[k])
    ensures Lines(Concat(lines)) == lines
  {
    if lines == [] {
    } else {
      var rest := Concat(lines[1..]);
      LineEndIs(lines[0], rest);
      assert (lines[0] + rest)[..|lines[0]|] == lines[0];
      assert (lines[0] + rest)[|lines[0]|..] == rest;
      LinesOfConcat(lines[1..]);
    }
  }

  lemma {:induction false} ConcatAppend(a: seq<string>, b: seq<string>)
    ensures Concat(a + b) == Concat(a) + Concat(b)
  {
    if a == [] {
      assert a + b == b;
    } else {
      ConcatAppend(a[1..], b);
      assert (a + b)[1..] == a[1..] + b;
      var x, y := Concat(a[1..]), Concat(b);
      assert a[0] + (x + y) == (a[0] + x) + y;
    }
  }

  predicate StartsWith(s: string, prefix: string) {
    |prefix| <= |s| && s[..|prefix|] == prefix
  }

  /** The text without leading blanks; `strip()` also drops trailing ones. */
  function SkipSpaces(s: string): (r: string)
    ensures r == "" || !IsSpace(r[0])
  {
    if s == "" || !IsSpace(s[0]) then s else SkipSpaces(s[1..])
  }
}
