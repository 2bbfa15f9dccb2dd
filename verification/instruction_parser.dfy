/** The instruction grammar (`day-5/src/instruction_parser.rs`): three
    `keyword <whitespace> number` pairs separated by whitespace, where a keyword
    is `move`, `from` or `to`. Only the first keyword decides anything: `move`
    gives a `Move`, `from` and `to` reach `unimplemented!()`. */
module InstructionParser {

  import opened Wrappers
  import opened Text
  import opened Crates

  /** Length of the longest prefix of `i` whose characters satisfy `p`. */
  function Span(i: string, p: char -> bool): (n: nat)
    ensures n <= |i|
    ensures forall j :: 0 <= j < n ==> p(i[j])
    ensures n < |i| ==> !p(i[n])
  {
    if |i| > 0 && p(i[0]) then 1 + Span(i[1..], p) else 0
  }

  /** nom `tag(t)`. */
  function Tag(t: string, i: string): (r: Option<(string, string)>)
    ensures r.Some? <==> |t| <= |i| && i[..|t|] == t
    ensures r.Some? ==> r.value == (t, i[|t|..])
  {
    if |t| <= |i| && i[..|t|] == t then Some((t, i[|t|..])) else None
  }

  predicate IsKeyword(k: string) {
    k == "move" || k == "from" || k == "to"
  }

  /** `parse_specifier_keyword`: `move`, `from` or `to`, tried in that order. */
  function ParseKeyword(i: string): (r: Option<(string, string)>)
    ensures r.Some? ==> IsKeyword(r.value.0) && i == r.value.0 + r.value.1
    ensures r.None? <==> forall k :: IsKeyword(k) ==> !(|k| <= |i| && i[..|k|] == k)
  {
    match Tag("move", i)
    case Some(r) =>
      assert i == r.0 + r.1 by { assert i == i[..4] + i[4..]; }
      Some(r)
    case None =>
      match Tag("from", i)
      case Some(r) =>
        assert i == r.0 + r.1 by { assert i == i[..4] + i[4..]; }
        Some(r)
      case None =>
        var r := Tag("to", i);
        assert r.Some? ==> i == r.value.0 + r.value.1 by {
          if r.Some? { assert i == i[..2] + i[2..]; }
        }
        r
  }

  /** nom `space1`: one or more spaces or tabs. */
  function Space1(i: string): (r: Option<string>)
    ensures r.Some? <==> |i| > 0 && IsSpaceOrTab(i[0])
    ensures r.Some? ==> |r.value| < |i| && (|r.value| == 0 || !IsSpaceOrTab(r.value[0]))
    ensures r.Some? ==> forall j :: 0 <= j < |i| - |r.value| ==> IsSpaceOrTab(i[j])
    ensures r.Some? ==> r.value == i[|i| - |r.value|..]
  {
    var n := Span(i, IsSpaceOrTab);
    if n == 0 then None else Some(i[n..])
  }

  /** nom `digit1` mapped through `str::parse`: one or more decimal digits and their value. */
  function Digit1(i: string): (r: Option<(nat, string)>)
    ensures r.Some? <==> |i| > 0 && IsAsciiDigit(i[0])
    ensures r.Some? ==> |r.value.1| < |i| && (|r.value.1| == 0 || !IsAsciiDigit(r.value.1[0]))
    ensures r.Some? ==> var n := |i| - |r.value.1|;
      AllDigits(i[..n]) && r.value == (DigitsValue(i[..n]), i[n..])
  {
    var n := Span(i, IsAsciiDigit);
    if n == 0 then None
    else
      assert AllDigits(i[..n]);
      Some((DigitsValue(i[..n]), i[n..]))
  }

  /** One or more spaces or tabs: a run `space1` consumes whole. */
  predicate Blanks(ws: string) {
    |ws| > 0 && forall j :: 0 <= j < |ws| ==> IsSpaceOrTab(ws[j])
  }

  /** One or more decimal digits, leading zeros allowed: a run `digit1` consumes whole. */
  predicate Numeral(ds: string) {
    |ds| > 0 && AllDigits(ds)
  }

  /** The pieces of a pair as the grammar admits them. */
  predicate WellWritten(k: string, ws: string, ds: string) {
    IsKeyword(k) && Blanks(ws) && Numeral(ds)
  }

  /** A pair written with any whitespace run and any digit run. */
  function PairWritten(k: string, ws: string, ds: string): string {
    k + ws + ds
  }

  /** A written pair and the whitespace run after it. */
  function Spaced(k: string, ws: string, ds: string, s: string): string {
    PairWritten(k, ws, ds) + s
  }

  /** Three written pairs, each of the first two followed by a whitespace run. */
  function InstructionWritten(k1: string, ws1: string, ds1: string, s1: string,
                              k2: string, ws2: string, ds2: string, s2: string,
                              k3: string, ws3: string, ds3: string): string {
    Spaced(k1, ws1, ds1, s1) + Spaced(k2, ws2, ds2, s2) + PairWritten(k3, ws3, ds3)
  }

  /** `i` starts with a pair written with keyword `k` and a numeral of value `n`,
      and `rest` follows it. */
  ghost predicate PairFrom(i: string, k: string, n: nat, rest: string) {
    exists ws, ds :: WellWritten(k, ws, ds) && i == PairWritten(k, ws, ds) + rest && n == DigitsValue(ds)
  }

  /** As `PairFrom`, with a whitespace run after the pair. */
  ghost predicate SpacedFrom(i: string, k: string, n: nat, rest: string) {
    exists ws, ds, s :: WellWritten(k, ws, ds) && Blanks(s) && i == Spaced(k, ws, ds, s) + rest && n == DigitsValue(ds)
  }

  /** `parse_specifier_numerator_pair`: keyword, whitespace, number. What it
      consumed is a keyword, a whitespace run and a digit run, and the number is
      the value of that digit run. */
  function ParsePair(i: string): (r: Option<((string, nat), string)>)
    ensures r.Some? ==> IsKeyword(r.value.0.0) && |r.value.1| < |i|
    ensures r.Some? ==> |r.value.1| == 0 || !IsAsciiDigit(r.value.1[0])
    ensures r.Some? ==> PairFrom(i, r.value.0.0, r.value.0.1, r.value.1)
  {
    var keyword :- ParseKeyword(i);
    var afterSpace :- Space1(keyword.1);
    var number :- Digit1(afterSpace);
    PairFromSteps(i, keyword.0, keyword.1, afterSpace, number.0, number.1);
    Some(((keyword.0, number.0), number.1))
  }

  /** The whitespace `space1` consumed is a whitespace run. */
  lemma BlanksConsumed(a: string, b: string)
    requires Space1(a) == Some(b)
    ensures var ws := a[..|a| - |b|]; Blanks(ws) && a == ws + b
  {
    var ws := a[..|a| - |b|];
    assert forall j :: 0 <= j < |ws| ==> ws[j] == a[j];
  }

  /** The digits `digit1` consumed are a numeral of the value it returned. */
  lemma DigitsConsumed(b: string, n: nat, rest: string)
    requires Digit1(b) == Some((n, rest))
    ensures var ds := b[..|b| - |rest|]; Numeral(ds) && b == ds + rest && n == DigitsValue(ds)
  {
  }

  lemma PairFromSteps(i: string, k: string, a: string, b: string, n: nat, rest: string)
    requires IsKeyword(k) && i == k + a
    requires Space1(a) == Some(b) && Digit1(b) == Some((n, rest))
    ensures PairFrom(i, k, n, rest)
  {
    BlanksConsumed(a, b);
    DigitsConsumed(b, n, rest);
    var ws := a[..|a| - |b|];
    var ds := b[..|b| - |rest|];
    Chain(i, k, a, ws, b, ds, rest);
    assert i == PairWritten(k, ws, ds) + rest;
  }

  lemma SpacedFromSteps(i: string, k: string, n: nat, a: string, b: string)
    requires PairFrom(i, k, n, a) && Space1(a) == Some(b)
    ensures SpacedFrom(i, k, n, b)
  {
    var ws, ds :| WellWritten(k, ws, ds) && i == PairWritten(k, ws, ds) + a && n == DigitsValue(ds);
    BlanksConsumed(a, b);
    var s := a[..|a| - |b|];
    assert i == Spaced(k, ws, ds, s) + b;
  }

  /** `parse_instruction`: three pairs separated by whitespace; the second and
      third keywords are not inspected and the text after the third number is
      returned unexamined. */
  function ParseInstruction(i: string): (r: Result<(Move, string), Fault>)
    ensures r.Success? ==> |i| >= 4 && i[..4] == "move"
    ensures r == Failure(Unimplemented) ==> (|i| >= 4 && i[..4] == "from") || (|i| >= 2 && i[..2] == "to")
    ensures r.Failure? ==> r.error in {ParseError, Unimplemented}
    ensures (forall k :: IsKeyword(k) ==> !(|k| <= |i| && i[..|k|] == k)) ==> r == Failure(ParseError)
    ensures r.Success? ==> ThreeWritten(i, ("move", r.value.0.qty, r.value.0.from, r.value.0.to, r.value.1))
    ensures r == Failure(Unimplemented) ==> WrittenOtherThanMove(i)
  {
    match ThreePairs(i)
    case None => Failure(ParseError)
    case Some(p) =>
      var (operation, qty, from, to, rest) := p;
      if operation == "move" then Success((Move(qty, from, to), rest))
      else
        assert ThreeWritten(i, p);
        Failure(Unimplemented)
  }

  /** The line is three written pairs whose first keyword is not `move`: the
      input that gets past the parsers only to reach `unimplemented!()`. */
  ghost predicate WrittenOtherThanMove(i: string) {
    exists p: (string, nat, nat, nat, string) :: p.0 != "move" && ThreeWritten(i, p)
  }

  /** A pair and the whitespace after it: what it consumed is a written pair and
      a whole whitespace run. */
  function PairThenSpace(i: string): (r: Option<((string, nat), string)>)
    ensures r.Some? ==> IsKeyword(r.value.0.0) && |r.value.1| < |i|
    ensures r.Some? ==> |r.value.1| == 0 || !IsSpaceOrTab(r.value.1[0])
    ensures r.Some? ==> SpacedFrom(i, r.value.0.0, r.value.0.1, r.value.1)
  {
    var pair :- ParsePair(i);
    var afterSpace :- Space1(pair.1);
    SpacedFromSteps(i, pair.0.0, pair.0.1, pair.1, afterSpace);
    Some((pair.0, afterSpace))
  }

  /** The `tuple((pair, space1, pair, space1, pair))` combinator: the first keyword,
      the three numbers, and what follows the third number. */
  function ThreePairs(i: string): (r: Option<(string, nat, nat, nat, string)>)
    ensures r.Some? ==> IsKeyword(r.value.0) && |r.value.0| <= |i| && i[..|r.value.0|] == r.value.0
    ensures r.Some? ==> ParseKeyword(i).Some?
    ensures r.Some? ==> ThreeWritten(i, r.value)
  {
    var first :- PairThenSpace(i);
    var second :- PairThenSpace(first.1);
    var third :- ParsePair(second.1);
    KeywordLeads(i);
    ThreeWrittenOf(i, first, second, third);
    Some((first.0.0, first.0.1, second.0.1, third.0.1, third.1))
  }

  /** A line that starts with a pair starts with that pair's keyword. */
  lemma KeywordLeads(i: string)
    requires PairThenSpace(i).Some?
    ensures var k := PairThenSpace(i).value.0.0; |k| <= |i| && i[..|k|] == k && ParseKeyword(i).Some?
  {
    var kw := ParseKeyword(i).value;
    assert i == kw.0 + kw.1;
    assert i[..|kw.0|] == kw.0;
  }

  /** `i` is three written pairs, the first with keyword `p.0`, whose numbers are
      `p.1`, `p.2` and `p.3`, followed by the remainder `p.4`. */
  ghost predicate ThreeWritten(i: string, p: (string, nat, nat, nat, string)) {
    exists ws1, ds1, s1, k2, ws2, ds2, s2, k3, ws3, ds3 ::
      && WellWritten(p.0, ws1, ds1) && Blanks(s1) && WellWritten(k2, ws2, ds2) && Blanks(s2)
      && WellWritten(k3, ws3, ds3)
      && i == InstructionWritten(p.0, ws1, ds1, s1, k2, ws2, ds2, s2, k3, ws3, ds3) + p.4
      && p.1 == DigitsValue(ds1) && p.2 == DigitsValue(ds2) && p.3 == DigitsValue(ds3)
  }

  /** The text consumed by the three steps of `ThreePairs` is three written pairs. */
  lemma ThreeWrittenOf(i: string, a: ((string, nat), string), b: ((string, nat), string), c: ((string, nat), string))
    requires PairThenSpace(i) == Some(a) && PairThenSpace(a.1) == Some(b) && ParsePair(b.1) == Some(c)
    ensures ThreeWritten(i, (a.0.0, a.0.1, b.0.1, c.0.1, c.1))
  {
    var ws1, ds1, s1 :| WellWritten(a.0.0, ws1, ds1) && Blanks(s1)
      && i == Spaced(a.0.0, ws1, ds1, s1) + a.1 && a.0.1 == DigitsValue(ds1);
    var ws2, ds2, s2 :| WellWritten(b.0.0, ws2, ds2) && Blanks(s2)
      && a.1 == Spaced(b.0.0, ws2, ds2, s2) + b.1 && b.0.1 == DigitsValue(ds2);
    var ws3, ds3 :| WellWritten(c.0.0, ws3, ds3)
      && b.1 == PairWritten(c.0.0, ws3, ds3) + c.1 && c.0.1 == DigitsValue(ds3);
    Chain(i, Spaced(a.0.0, ws1, ds1, s1), a.1, Spaced(b.0.0, ws2, ds2, s2), b.1, PairWritten(c.0.0, ws3, ds3), c.1);
    ThreeWrittenIntro(i, (a.0.0, a.0.1, b.0.1, c.0.1, c.1), ws1, ds1, s1, b.0.0, ws2, ds2, s2, c.0.0, ws3, ds3);
  }

  lemma ThreeWrittenIntro(i: string, p: (string, nat, nat, nat, string),
                          ws1: string, ds1: string, s1: string, k2: string, ws2: string, ds2: string, s2: string,
                          k3: string, ws3: string, ds3: string)
    requires WellWritten(p.0, ws1, ds1) && Blanks(s1) && WellWritten(k2, ws2, ds2) && Blanks(s2)
    requires WellWritten(k3, ws3, ds3)
    requires i == Spaced(p.0, ws1, ds1, s1) + Spaced(k2, ws2, ds2, s2) + PairWritten(k3, ws3, ds3) + p.4
    requires p.1 == DigitsValue(ds1) && p.2 == DigitsValue(ds2) && p.3 == DigitsValue(ds3)
    ensures ThreeWritten(i, p)
  {
    assert i == InstructionWritten(p.0, ws1, ds1, s1, k2, ws2, ds2, s2, k3, ws3, ds3) + p.4;
  }

  lemma Chain(i: string, x: string, a: string, y: string, b: string, z: string, c: string)
    requires i == x + a && a == y + b && b == z + c
    ensures i == x + y + z + c
  {
  }

  // ---------------------------------------------------------------------------
  // Rendering and properties.

  /** A keyword, one space, and the decimal numeral of `n`. */
  function PairText(keyword: string, n: nat): string
  {
    keyword + " " + Decimal(n)
  }

  /** Three pairs separated by single spaces. */
  function InstructionText(k1: string, q: nat, k2: string, f: nat, k3: string, t: nat): string
  {
    PairText(k1, q) + " " + PairText(k2, f) + " " + PairText(k3, t)
  }

  /** `move q from f to t`, the form the puzzle input uses. */
  function MoveText(m: Move): string
  {
    InstructionText("move", m.qty, "from", m.from, "to", m.to)
  }

  /** `Span` is exactly the length of a run that ends at the end of the input or
      before a character outside the run. */
  lemma {:induction false} SpanExact(i: string, p: char -> bool, n: nat)
    requires n <= |i|
    requires forall j :: 0 <= j < n ==> p(i[j])
    requires n == |i| || !p(i[n])
    ensures Span(i, p) == n
  {
    if n > 0 {
      SpanExact(i[1..], p, n - 1);
    }
  }

  lemma Space1OfBlank(rest: string)
    requires |rest| == 0 || !IsSpaceOrTab(rest[0])
    ensures Space1(" " + rest) == Some(rest)
  {
    var i := " " + rest;
    assert i[1..] == rest;
    SpanExact(i, IsSpaceOrTab, 1);
  }

  lemma Digit1OfDecimal(n: nat, rest: string)
    requires |rest| == 0 || !IsAsciiDigit(rest[0])
    ensures Digit1(Decimal(n) + rest) == Some((n, rest))
  {
    var i := Decimal(n) + rest;
    var d := Decimal(n);
    assert forall j :: 0 <= j < |d| ==> i[j] == d[j];
    assert |d| < |i| ==> i[|d|] == rest[0];
    SpanExact(i, IsAsciiDigit, |d|);
    assert i[..|d|] == d;
    DigitsValueOfDecimal(n);
    assert i[|d|..] == rest;
  }

  lemma KeywordOf(k: string, rest: string)
    requires IsKeyword(k)
    ensures ParseKeyword(k + rest) == Some((k, rest))
  {
    var i := k + rest;
    assert i[..|k|] == k;
    assert i[|k|..] == rest;
    assert k != "move" ==> Tag("move", i).None? by {
      if k != "move" {
        assert i[0] == k[0];
      }
    }
    assert k == "to" ==> Tag("from", i).None? by {
      if k == "to" {
        assert i[0] == 't';
      }
    }
  }

  /** A rendered pair parses back to its keyword and number, leaving the text after
      the numeral, provided that text does not continue the numeral. */
  lemma PairRoundTrip(k: string, n: nat, rest: string)
    requires IsKeyword(k)
    requires |rest| == 0 || !IsAsciiDigit(rest[0])
    ensures ParsePair(PairText(k, n) + rest) == Some(((k, n), rest))
  {
    var afterKeyword := " " + (Decimal(n) + rest);
    assert PairText(k, n) + rest == k + afterKeyword;
    KeywordOf(k, afterKeyword);
    Space1OfBlank(Decimal(n) + rest);
    Digit1OfDecimal(n, rest);
  }

  /** Any keywords in the second and third positions, any three numbers: the line
      parses to `Move(q, f, t)` when it starts with `move`, and reaches
      `unimplemented!()` when it starts with `from` or `to`. Whatever follows the
      third number (if it does not extend that number) is the remainder. */
  lemma InstructionRoundTrip(k1: string, q: nat, k2: string, f: nat, k3: string, t: nat, rest: string)
    requires IsKeyword(k1) && IsKeyword(k2) && IsKeyword(k3)
    requires |rest| == 0 || !IsAsciiDigit(rest[0])
    ensures k1 == "move" ==> ParseInstruction(InstructionText(k1, q, k2, f, k3, t) + rest) == Success((Move(q, f, t), rest))
    ensures k1 != "move" ==> ParseInstruction(InstructionText(k1, q, k2, f, k3, t) + rest) == Failure(Unimplemented)
  {
    ThreePairsOfText(k1, q, k2, f, k3, t, rest);
  }

  lemma ThreePairsOfText(k1: string, q: nat, k2: string, f: nat, k3: string, t: nat, rest: string)
    requires IsKeyword(k1) && IsKeyword(k2) && IsKeyword(k3)
    requires |rest| == 0 || !IsAsciiDigit(rest[0])
    ensures ThreePairs(InstructionText(k1, q, k2, f, k3, t) + rest) == Some((k1, q, f, t, rest))
  {
    var tail3 := PairText(k3, t) + rest;
    var tail2 := PairText(k2, f) + " " + tail3;
    var i := InstructionText(k1, q, k2, f, k3, t) + rest;
    assert i == PairText(k1, q) + " " + tail2;
    PairLeads(k2, f, tail3);
    PairLeads(k3, t, rest);
    PairThenSpaceRoundTrip(k1, q, tail2);
    PairThenSpaceRoundTrip(k2, f, tail3);
    PairRoundTrip(k3, t, rest);
    ThreePairsOf(i, ((k1, q), tail2), ((k2, f), tail3), ((k3, t), rest));
  }

  /** A rendered pair starts with its keyword, so not with whitespace. */
  lemma PairLeads(k: string, n: nat, x: string)
    requires IsKeyword(k)
    ensures |PairText(k, n) + x| > 0 && !IsSpaceOrTab((PairText(k, n) + x)[0])
    ensures |PairText(k, n) + " " + x| > 0 && !IsSpaceOrTab((PairText(k, n) + " " + x)[0])
  {
    assert (PairText(k, n) + x)[0] == k[0];
    assert (PairText(k, n) + " " + x)[0] == k[0];
  }

  /** `ThreePairs` once its three steps are known. */
  lemma ThreePairsOf(i: string, a: ((string, nat), string), b: ((string, nat), string), c: ((string, nat), string))
    requires PairThenSpace(i) == Some(a) && PairThenSpace(a.1) == Some(b) && ParsePair(b.1) == Some(c)
    ensures ThreePairs(i) == Some((a.0.0, a.0.1, b.0.1, c.0.1, c.1))
  {
  }

  /** A rendered pair, a space, and the next pair: the pair and the space are consumed. */
  lemma PairThenSpaceRoundTrip(k: string, n: nat, tail: string)
    requires IsKeyword(k)
    requires |tail| == 0 || !IsSpaceOrTab(tail[0])
    ensures PairThenSpace(PairText(k, n) + " " + tail) == Some(((k, n), tail))
  {
    assert PairText(k, n) + " " + tail == PairText(k, n) + (" " + tail);
    PairRoundTrip(k, n, " " + tail);
    Space1OfBlank(tail);
  }

  /** `space1` consumes a whole whitespace run. */
  lemma Space1OfRun(ws: string, tail: string)
    requires Blanks(ws) && (|tail| == 0 || !IsSpaceOrTab(tail[0]))
    ensures Space1(ws + tail) == Some(tail)
  {
    var i := ws + tail;
    assert forall j :: 0 <= j < |ws| ==> i[j] == ws[j];
    assert |ws| < |i| ==> i[|ws|] == tail[0];
    SpanExact(i, IsSpaceOrTab, |ws|);
    assert i[|ws|..] == tail;
  }

  /** `digit1` consumes a whole digit run, leading zeros included, and yields its value. */
  lemma Digit1OfRun(ds: string, tail: string)
    requires Numeral(ds) && (|tail| == 0 || !IsAsciiDigit(tail[0]))
    ensures Digit1(ds + tail) == Some((DigitsValue(ds), tail))
  {
    var i := ds + tail;
    assert forall j :: 0 <= j < |ds| ==> i[j] == ds[j];
    assert |ds| < |i| ==> i[|ds|] == tail[0];
    SpanExact(i, IsAsciiDigit, |ds|);
    assert i[..|ds|] == ds;
    assert i[|ds|..] == tail;
  }

  /** Any written pair parses to its keyword and the value of its digit run. */
  lemma PairOfWritten(k: string, ws: string, ds: string, rest: string)
    requires WellWritten(k, ws, ds)
    requires |rest| == 0 || !IsAsciiDigit(rest[0])
    ensures ParsePair(PairWritten(k, ws, ds) + rest) == Some(((k, DigitsValue(ds)), rest))
  {
    var i := PairWritten(k, ws, ds) + rest;
    assert i == k + (ws + (ds + rest));
    KeywordOf(k, ws + (ds + rest));
    assert (ds + rest)[0] == ds[0];
    Space1OfRun(ws, ds + rest);
    Digit1OfRun(ds, rest);
  }

  /** Any written pair and the whitespace run after it are consumed together. */
  lemma SpacedOfWritten(k: string, ws: string, ds: string, s: string, tail: string)
    requires WellWritten(k, ws, ds) && Blanks(s)
    requires |tail| == 0 || !IsSpaceOrTab(tail[0])
    ensures PairThenSpace(Spaced(k, ws, ds, s) + tail) == Some(((k, DigitsValue(ds)), tail))
  {
    assert Spaced(k, ws, ds, s) + tail == PairWritten(k, ws, ds) + (s + tail);
    assert (s + tail)[0] == s[0];
    PairOfWritten(k, ws, ds, s + tail);
    Space1OfRun(s, tail);
  }

  /** A written pair starts with its keyword, so not with whitespace. */
  lemma WrittenLeads(k: string, ws: string, ds: string, x: string)
    requires WellWritten(k, ws, ds)
    ensures |PairWritten(k, ws, ds) + x| > 0 && !IsSpaceOrTab((PairWritten(k, ws, ds) + x)[0])
  {
    assert (PairWritten(k, ws, ds) + x)[0] == k[0];
  }

  /** The converse of the soundness clause of `ParseInstruction`: three pairs
      written with any whitespace runs (spaces or tabs, of any length) and any
      digit runs (leading zeros included) parse to the values of those runs when
      the first keyword is `move`, and reach `unimplemented!()` otherwise. */
  lemma InstructionOfWritten(k1: string, ws1: string, ds1: string, s1: string,
                             k2: string, ws2: string, ds2: string, s2: string,
                             k3: string, ws3: string, ds3: string, rest: string)
    requires WellWritten(k1, ws1, ds1) && Blanks(s1) && WellWritten(k2, ws2, ds2) && Blanks(s2)
    requires WellWritten(k3, ws3, ds3)
    requires |rest| == 0 || !IsAsciiDigit(rest[0])
    ensures ParseInstruction(InstructionWritten(k1, ws1, ds1, s1, k2, ws2, ds2, s2, k3, ws3, ds3) + rest) ==
      if k1 == "move" then Success((Move(DigitsValue(ds1), DigitsValue(ds2), DigitsValue(ds3)), rest))
      else Failure(Unimplemented)
  {
    var tail3 := PairWritten(k3, ws3, ds3) + rest;
    var tail2 := Spaced(k2, ws2, ds2, s2) + tail3;
    var i := InstructionWritten(k1, ws1, ds1, s1, k2, ws2, ds2, s2, k3, ws3, ds3) + rest;
    assert i == Spaced(k1, ws1, ds1, s1) + tail2;
    assert tail2 == PairWritten(k2, ws2, ds2) + (s2 + tail3);
    WrittenLeads(k2, ws2, ds2, s2 + tail3);
    WrittenLeads(k3, ws3, ds3, rest);
    SpacedOfWritten(k1, ws1, ds1, s1, tail2);
    SpacedOfWritten(k2, ws2, ds2, s2, tail3);
    PairOfWritten(k3, ws3, ds3, rest);
    ThreePairsOf(i, ((k1, DigitsValue(ds1)), tail2), ((k2, DigitsValue(ds2)), tail3), ((k3, DigitsValue(ds3)), rest));
  }

  /** A tab, a leading zero and a double space are all admitted:
      `move\t07  from 2 to 3` is `Move(7, 2, 3)`. */
  lemma AcceptsTabsAndLeadingZeros()
    ensures ParseInstruction("move\t07  from 2 to 3") == Success((Move(7, 2, 3), []))
  {
    var i := InstructionWritten("move", "\t", "07", "  ", "from", " ", "2", " ", "to", " ", "3");
    assert "move\t07  from 2 to 3" == i + [];
    assert DigitsValue("07") == 7 by {
      assert "07"[..1] == "0";
    }
    assert DigitsValue("2") == 2 && DigitsValue("3") == 3;
    InstructionOfWritten("move", "\t", "07", "  ", "from", " ", "2", " ", "to", " ", "3", []);
  }

  /** Every `Move` written as `move q from f to t` parses back to itself with no remainder. */
  lemma MoveRoundTrip(m: Move)
    ensures ParseInstruction(MoveText(m)) == Success((m, []))
  {
    InstructionRoundTrip("move", m.qty, "from", m.from, "to", m.to, []);
    assert MoveText(m) + [] == MoveText(m);
  }

  /** `Display for Move` writes a capital `Move`, which is not a keyword. */
  lemma DisplayedMoveIsRejected(m: Move)
    ensures ParseInstruction("M" + MoveText(m)[1..]) == Failure(ParseError)
  {
    var i := "M" + MoveText(m)[1..];
    assert i[..4][0] == 'M';
    assert i[..2][0] == 'M';
  }

  /** A line that does not start with a keyword is a parse error (`asd 1 from 2 to 1`). */
  lemma RejectsUnknownOperation()
    ensures ParseInstruction("asd 1 from 2 to 1") == Failure(ParseError)
  {
    var a := "asd 1 from 2 to 1";
    assert a[..4][0] == 'a' && a[..2][0] == 'a';
  }

  /** A keyword must be followed by whitespace: `move1from2to1` is a parse error. */
  lemma RejectsMissingWhitespace(k: string, tail: string)
    requires IsKeyword(k)
    requires |tail| == 0 || !IsSpaceOrTab(tail[0])
    ensures ParseInstruction(k + tail) == Failure(ParseError)
  {
    KeywordOf(k, tail);
    assert Space1(tail).None?;
    assert ParsePair(k + tail).None?;
    FirstPairFails(k + tail);
  }

  /** A numeral must be followed by whitespace: `move 13s33 from 2 to 1` is a parse error. */
  lemma RejectsLetterAfterNumber(k: string, n: nat, tail: string)
    requires IsKeyword(k)
    requires |tail| > 0 && !IsAsciiDigit(tail[0]) && !IsSpaceOrTab(tail[0])
    ensures ParseInstruction(PairText(k, n) + tail) == Failure(ParseError)
  {
    PairRoundTrip(k, n, tail);
    assert Space1(tail).None?;
    FirstPairFails(PairText(k, n) + tail);
  }

  /** The second keyword must be followed by whitespace: `move 56 fromm 2 to 4`
      is a parse error. */
  lemma RejectsMisspeltSecondKeyword(k1: string, n: nat, k2: string, tail: string)
    requires IsKeyword(k1) && IsKeyword(k2)
    requires |tail| == 0 || !IsSpaceOrTab(tail[0])
    ensures ParseInstruction(PairText(k1, n) + " " + (k2 + tail)) == Failure(ParseError)
  {
    RejectsMissingWhitespace(k2, tail);
    KeywordOf(k2, tail);
    assert Space1(tail).None?;
    assert ParsePair(k2 + tail).None?;
    PairThenSpaceRoundTrip(k1, n, k2 + tail);
    SecondPairFails(PairText(k1, n) + " " + (k2 + tail));
  }

  /** `move1from2to1` (`test_parse_no_seperators` in instruction_parser.rs). */
  lemma RejectsFusedExample()
    ensures ParseInstruction("move1from2to1") == Failure(ParseError)
  {
    assert "move1from2to1" == "move" + "1from2to1";
    RejectsMissingWhitespace("move", "1from2to1");
  }

  /** `move 13s33 from 2 to 1` (`test_parse_invalid_digit` in instruction_parser.rs). */
  lemma RejectsDigitExample()
    ensures ParseInstruction("move 13s33 from 2 to 1") == Failure(ParseError)
  {
    assert PairText("move", 13) == "move 13";
    assert "move 13s33 from 2 to 1" == "move 13" + "s33 from 2 to 1";
    RejectsLetterAfterNumber("move", 13, "s33 from 2 to 1");
  }

  /** `move 56 fromm 2 to 4` (`test_parse_invalid_from` in instruction_parser.rs). */
  lemma RejectsFrommExample()
    ensures ParseInstruction("move 56 fromm 2 to 4") == Failure(ParseError)
  {
    assert PairText("move", 56) == "move 56";
    assert "move 56 fromm 2 to 4" == "move 56" + " " + ("from" + "m 2 to 4");
    RejectsMisspeltSecondKeyword("move", 56, "from", "m 2 to 4");
  }

  lemma FirstPairFails(i: string)
    requires PairThenSpace(i).None?
    ensures ParseInstruction(i) == Failure(ParseError)
  {
  }

  lemma SecondPairFails(i: string)
    requires PairThenSpace(i).Some? && ParsePair(PairThenSpace(i).value.1).None?
    ensures ParseInstruction(i) == Failure(ParseError)
  {
  }

  /** `move 1 from 2 to 1` (`test_parse_move` in instruction_parser.rs). */
  lemma AcceptsSingleDigits()
    ensures ParseInstruction("move 1 from 2 to 1") == Success((Move(1, 2, 1), []))
  {
    assert PairText("move", 1) == "move 1";
    assert PairText("from", 2) == "from 2";
    assert PairText("to", 1) == "to 1";
    assert MoveText(Move(1, 2, 1)) == "move 1 from 2 to 1";
    MoveRoundTrip(Move(1, 2, 1));
  }

  /** `move 15 from 243 to 1344` (`test_big_digit_move` in instruction_parser.rs). */
  lemma AcceptsMultipleDigits()
    ensures ParseInstruction("move 15 from 243 to 1344") == Success((Move(15, 243, 1344), []))
  {
    MultipleDigitsText();
    MoveRoundTrip(Move(15, 243, 1344));
  }

  lemma MultipleDigitsText()
    ensures MoveText(Move(15, 243, 1344)) == "move 15 from 243 to 1344"
  {
    DecimalOf15();
    DecimalOf243();
    DecimalOf1344();
  }

  lemma DecimalOf15()
    ensures Decimal(15) == "15"
  {
    assert Decimal(1) == "1";
  }

  lemma DecimalOf243()
    ensures Decimal(243) == "243"
  {
    assert Decimal(24) == "24" by {
      assert Decimal(2) == "2";
    }
  }

  lemma DecimalOf1344()
    ensures Decimal(1344) == "1344"
  {
    assert Decimal(134) == "134" by {
      assert Decimal(13) == "13" by {
        assert Decimal(1) == "1";
      }
    }
  }
}
