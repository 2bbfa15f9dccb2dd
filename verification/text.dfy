/** The parts of Rust's `str` and `char` API that both puzzles rely on,
    on strings modelled as `seq<char>` of ASCII characters. */
module Text {

  import opened Wrappers
  import Seqs

  predicate IsAsciiLetter(c: char) {
    ('a' <= c <= 'z') || ('A' <= c <= 'Z')
  }

  predicate IsAsciiDigit(c: char) {
    '0' <= c <= '9'
  }

  /** The characters nom's `space1` accepts: space and horizontal tab. */
  predicate IsSpaceOrTab(c: char) {
    c == ' ' || c == '\t'
  }

  /** `pat` occurs in `s` starting at index `k`. */
  predicate OccursAt(s: string, pat: string, k: int) {
    0 <= k && k + |pat| <= |s| && s[k..k + |pat|] == pat
  }

  ghost predicate Occurs(s: string, pat: string) {
    exists k :: OccursAt(s, pat, k)
  }

  /** Index of the first occurrence of `pat` in `s` (`str::find`, which also drives `split_once`). */
  function Find(s: string, pat: string): (r: Option<nat>)
    ensures r.Some? ==> OccursAt(s, pat, r.value)
    ensures r.Some? ==> forall j :: 0 <= j < r.value ==> !OccursAt(s, pat, j)
    ensures r.None? <==> !Occurs(s, pat)
  {
    FindFrom(s, pat, 0)
  }

  function FindFrom(s: string, pat: string, start: nat): (r: Option<nat>)
    requires forall j :: 0 <= j < start ==> !OccursAt(s, pat, j)
    ensures r.Some? ==> start <= r.value && OccursAt(s, pat, r.value)
    ensures r.Some? ==> forall j :: 0 <= j < r.value ==> !OccursAt(s, pat, j)
    ensures r.None? <==> !Occurs(s, pat)
    decreases |s| - start
  {
    if start + |pat| > |s| then
      assert forall j :: start <= j ==> !OccursAt(s, pat, j);
      None
    else if s[start..start + |pat|] == pat then
      assert OccursAt(s, pat, start);
      Some(start)
    else FindFrom(s, pat, start + 1)
  }

  /** Drops one trailing carriage return: the `'\r'` of a `"\r\n"` line ending,
      which `str::lines` strips together with the `'\n'`. */
  function StripCr(line: string): (r: string)
    ensures r == line || (r + ['\r'] == line)
  {
    if |line| > 0 && line[|line| - 1] == '\r' then line[..|line| - 1] else line
  }

  /** `str::lines`: split at every `'\n'`; a final line ending adds no empty line,
      and a line closed by `"\r\n"` loses the `'\r'`. A last line that no `'\n'`
      closes is kept whole, a trailing `'\r'` included. */
  function Lines(s: string): (r: seq<string>)
    ensures |s| == 0 <==> |r| == 0
    ensures forall j :: 0 <= j < |r| ==> '\n' !in r[j]
    ensures forall j :: 0 <= j < |r| ==> Occurs(s, r[j])
    decreases |s|
  {
    if |s| == 0 then []
    else
      match Find(s, "\n")
      case None =>
        assert OccursAt(s, s, 0) && '\n' !in s by {
          NewlineOf(s);
        }
        [s]
      case Some(k) =>
        var head := StripCr(s[..k]);
        var tail := Lines(s[k + 1..]);
        assert OccursAt(s, head, 0) && '\n' !in head by {
          NewlineOf(s);
          assert forall i :: 0 <= i < |head| ==> head[i] == s[i];
        }
        assert forall j :: 0 <= j < |tail| ==> Occurs(s, tail[j]) by {
          forall j | 0 <= j < |tail| ensures Occurs(s, tail[j]) {
            OccursInSuffix(s, k + 1, tail[j]);
          }
        }
        [head] + tail
  }

  /** What `Find` reports about line endings: the first one, or none at all. */
  lemma NewlineOf(s: string)
    ensures match Find(s, "\n")
      case None => forall i :: 0 <= i < |s| ==> s[i] != '\n'
      case Some(k) => k < |s| && s[k] == '\n' && forall i :: 0 <= i < k ==> s[i] != '\n'
  {
    forall i | 0 <= i < |s| ensures s[i] == '\n' <==> OccursAt(s, "\n", i) {
      assert s[i..i + 1][0] == s[i];
    }
  }

  /** The first line ending is where `Find` stops. */
  lemma FindNewline(s: string, k: nat)
    requires k <= |s|
    requires forall i :: 0 <= i < k ==> s[i] != '\n'
    requires k == |s| || s[k] == '\n'
    ensures Find(s, "\n") == if k == |s| then None else Some(k)
  {
    NewlineOf(s);
    if k < |s| {
      assert OccursAt(s, "\n", k) by {
        assert s[k..k + 1][0] == s[k];
      }
    }
  }

  /** An occurrence in a suffix is an occurrence in the whole. */
  lemma OccursInSuffix(s: string, n: nat, pat: string)
    requires n <= |s| && Occurs(s[n..], pat)
    ensures Occurs(s, pat)
  {
    var m :| OccursAt(s[n..], pat, m);
    assert s[n + m..n + m + |pat|] == s[n..][m..m + |pat|];
    assert OccursAt(s, pat, n + m);
  }

  /** Lines written out, each followed by a line ending. */
  function Terminated(ls: seq<string>): string
  {
    if |ls| == 0 then [] else ls[0] + "\n" + Terminated(ls[1..])
  }

  /** `Lines` undoes `Terminated` for lines without line endings or a trailing
      `'\r'`, whatever text follows them. */
  lemma {:induction false} LinesOfTerminated(ls: seq<string>, x: string)
    requires forall j :: 0 <= j < |ls| ==> Unbroken(ls[j])
    ensures Lines(Terminated(ls) + x) == ls + Lines(x)
  {
    if |ls| > 0 {
      var l := ls[0];
      var more := Terminated(ls[1..]) + x;
      assert Terminated(ls) + x == l + "\n" + more;
      LinesAfterLine(l, more);
      assert StripCr(l) == l;
      LinesOfTerminated(ls[1..], x);
      ConsAppend(ls, Lines(x));
    } else {
      assert Terminated(ls) + x == x;
    }
  }

  lemma ConsAppend<T>(a: seq<T>, b: seq<T>)
    requires |a| > 0
    ensures a + b == [a[0]] + (a[1..] + b)
  {
    assert a == [a[0]] + a[1..];
  }

  /** One round of `Lines`: the first line, then the lines of what follows its
      line ending. */
  lemma LinesStep(s: string, k: nat)
    requires Find(s, "\n") == Some(k)
    ensures Lines(s) == [StripCr(s[..k])] + Lines(s[k + 1..])
  {
  }

  /** A line closed by a line ending is the first of the `Lines`. */
  lemma LinesAfterLine(l: string, more: string)
    requires '\n' !in l
    ensures Lines(l + "\n" + more) == [StripCr(l)] + Lines(more)
  {
    var s := l + "\n" + more;
    assert forall i :: 0 <= i < |l| ==> s[i] == l[i];
    FindNewline(s, |l|);
    assert s[..|l|] == l && s[|l| + 1..] == more;
    LinesStep(s, |l|);
  }

  /** A single non-empty line without line endings is its own `Lines`, a
      trailing `'\r'` included. */
  lemma LinesOfLine(x: string)
    requires |x| > 0 && '\n' !in x
    ensures Lines(x) == [x]
  {
    FindNewline(x, |x|);
  }

  /** A line closed by `"\r\n"` loses both characters; a `'\r'` elsewhere stays. */
  lemma LinesOfCrLf(l: string, more: string)
    requires '\n' !in l
    ensures Lines(l + "\r\n" + more) == [l] + Lines(more)
  {
    assert l + "\r\n" + more == (l + "\r") + "\n" + more;
    LinesAfterLine(l + "\r", more);
    assert StripCr(l + "\r") == l;
  }

  /** A carriage return without a line ending after it is kept: the text `x\rx\r`
      is one line, both carriage returns included. */
  lemma FinalCrKept()
    ensures Lines("x\rx\r") == ["x\rx\r"]
  {
    LinesOfLine("x\rx\r");
  }

  /** A line without line endings or a trailing `'\r'`. */
  predicate Unbroken(l: string) {
    '\n' !in l && (|l| == 0 || l[|l| - 1] != '\r')
  }

  /** A non-empty line without line endings or a trailing `'\r'`: `Lines` keeps
      it as it is. */
  predicate PlainLine(l: string) {
    |l| > 0 && Unbroken(l)
  }

  /** Lines joined by line endings, with none after the last. */
  function Joined(ls: seq<string>): string
    requires |ls| > 0
  {
    Terminated(ls[..|ls| - 1]) + ls[|ls| - 1]
  }

  /** `Lines` undoes `Joined` for non-empty lines without line endings, where
      every line but the last also has no trailing `'\r'`. */
  lemma LinesOfJoined(ls: seq<string>)
    requires |ls| > 0
    requires forall j :: 0 <= j < |ls| - 1 ==> PlainLine(ls[j])
    requires |ls[|ls| - 1]| > 0 && '\n' !in ls[|ls| - 1]
    ensures Lines(Joined(ls)) == ls
  {
    var front := ls[..|ls| - 1];
    var last := ls[|ls| - 1];
    assert ls == front + [last];
    assert forall j :: 0 <= j < |front| ==> Unbroken(front[j]) by {
      assert forall j :: 0 <= j < |front| ==> front[j] == ls[j];
    }
    LinesOfTerminated(front, last);
    LinesOfLine(last);
  }

  /** After text that ends with a line ending (or no text at all), a last line
      without line endings is the last of the `Lines`. */
  lemma {:induction false} LastOfLines(p: string, x: string)
    requires |p| == 0 || p[|p| - 1] == '\n'
    requires |x| > 0 && '\n' !in x
    ensures var ls := Lines(p + x); |ls| > 0 && ls[|ls| - 1] == x
    decreases |p|
  {
    var s := p + x;
    if |p| == 0 {
      assert s == x;
      FindNewline(s, |s|);
    } else {
      NewlineOf(s);
      assert s[|p| - 1] == '\n';
      var k := Find(s, "\n").value;
      assert k < |p|;
      var p2 := p[k + 1..];
      assert s[k + 1..] == p2 + x;
      LinesStep(s, k);
      LastOfLines(p2, x);
    }
  }

  /** No two line endings in a row: the text holds no blank line. */
  predicate NoBlankLine(s: string) {
    forall i :: 0 <= i < |s| - 1 ==> s[i] != '\n' || s[i + 1] != '\n'
  }

  /** Joining a line with text that starts a non-blank line keeps the text free
      of blank lines. */
  lemma NoBlankLineJoin(a: string, b: string)
    requires '\n' !in a
    requires |b| > 0 && b[0] != '\n' && NoBlankLine(b)
    ensures NoBlankLine(a + "\n" + b)
  {
    var s := a + "\n" + b;
    forall i | 0 <= i < |s| - 1 ensures s[i] != '\n' || s[i + 1] != '\n' {
      if i < |a| {
        assert s[i] == a[i];
      } else if i > |a| {
        assert s[i] == b[i - |a| - 1] && s[i + 1] == b[i - |a|];
      } else {
        assert s[i + 1] == b[0];
      }
    }
  }

  /** The first blank line of a text without one at its end is where it ends. */
  lemma FindBlankLine(p: string, rest: string)
    requires NoBlankLine(p) && |p| > 0 && p[|p| - 1] != '\n'
    ensures Find(p + "\n\n" + rest, "\n\n") == Some(|p|)
  {
    var s := p + "\n\n" + rest;
    assert s[|p|..|p| + 2] == "\n\n";
    assert OccursAt(s, "\n\n", |p|);
    forall j | 0 <= j < |p| ensures !OccursAt(s, "\n\n", j) {
      var w := s[j..j + 2];
      assert w[0] == s[j] && w[1] == s[j + 1];
      if j + 1 < |p| {
        assert s[j] == p[j] && s[j + 1] == p[j + 1];
      } else {
        assert s[j] == p[|p| - 1];
      }
    }
  }

  /** Number of ASCII digits in `s` (`chars().filter(char::is_ascii_digit).count()`). */
  function CountDigits(s: string): (r: nat)
    ensures r <= |s|
    ensures r == 0 <==> forall i :: 0 <= i < |s| ==> !IsAsciiDigit(s[i])
  {
    var digits := Seqs.Filter(s, IsAsciiDigit);
    assert |digits| == 0 <==> forall i :: 0 <= i < |s| ==> !IsAsciiDigit(s[i]) by {
      if |digits| > 0 {
        assert digits[0] in digits;
      }
      if exists i :: 0 <= i < |s| && IsAsciiDigit(s[i]) {
        var i :| 0 <= i < |s| && IsAsciiDigit(s[i]);
        assert s[i] in digits;
      }
    }
    |digits|
  }

  /** One more character adds one to the count exactly when it is a digit; with
      `CountDigits("") == 0` this fixes the count as the number of digits. */
  lemma CountDigitsSnoc(s: string, c: char)
    ensures CountDigits(s + [c]) == CountDigits(s) + (if IsAsciiDigit(c) then 1 else 0)
  {
    Seqs.FilterSnoc(s, c, IsAsciiDigit);
  }

  function DigitValue(c: char): nat
    requires IsAsciiDigit(c)
  {
    c as int - '0' as int
  }

  predicate AllDigits(s: string) {
    forall i :: 0 <= i < |s| ==> IsAsciiDigit(s[i])
  }

  /** The number a run of decimal digits denotes (`str::parse::<usize>`, without the width limit). */
  function DigitsValue(s: string): nat
    requires AllDigits(s)
  {
    if |s| == 0 then 0 else DigitsValue(s[..|s| - 1]) * 10 + DigitValue(s[|s| - 1])
  }

  /** The decimal digits, in the order of their values. */
  const DigitChars := "0123456789"

  lemma DigitCharValue(d: nat)
    requires d < 10
    ensures IsAsciiDigit(DigitChars[d]) && DigitValue(DigitChars[d]) == d
  {
  }

  /** The shortest decimal numeral for `n` (`Display for usize`). */
  function Decimal(n: nat): (r: string)
    ensures |r| > 0 && AllDigits(r)
  {
    DigitCharValue(n % 10);
    var d := [DigitChars[n % 10]];
    if n < 10 then d else Decimal(n / 10) + d
  }

  lemma {:induction false} DigitsValueOfDecimal(n: nat)
    ensures DigitsValue(Decimal(n)) == n
  {
    var s := Decimal(n);
    DigitCharValue(n % 10);
    assert DigitValue(s[|s| - 1]) == n % 10;
    if n >= 10 {
      assert s[..|s| - 1] == Decimal(n / 10);
      DigitsValueOfDecimal(n / 10);
    }
  }
}
