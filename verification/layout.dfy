/** `Stacks::parse` and `transpose` (day-5/src/main.rs): the drawing's rows become
    columns, and each column's crates are pushed bottom first onto its own stack. */
module Layout {
  import opened Wrappers
  import opened Crates
  import Seqs
  import Text
  import StacksParser
  import StackEngine

  type Slot = StacksParser.Slot

  /** `v` is non-empty and no row is shorter than the first: what `transpose` needs
      not to panic (it asserts the first, and unwraps one element per row and column). */
  predicate Covers<T>(v: seq<seq<T>>) {
    |v| > 0 && forall i :: 0 <= i < |v| ==> |v[i]| >= |v[0]|
  }

  predicate Rectangular<T>(v: seq<seq<T>>) {
    |v| > 0 && forall i :: 0 <= i < |v| ==> |v[i]| == |v[0]|
  }

  /** `transpose`: as many columns as the first row has elements; the column `j`
      holds the `j`-th element of every row, in row order. Elements of longer rows
      past that width are dropped. */
  function Transpose<T>(v: seq<seq<T>>): (r: seq<seq<T>>)
    requires Covers(v)
    ensures |r| == |v[0]|
    ensures forall j :: 0 <= j < |r| ==> |r[j]| == |v|
    ensures forall j, i :: 0 <= j < |r| && 0 <= i < |v| ==> r[j][i] == v[i][j]
    decreases |v|
  {
    var w := |v[0]|;
    if |v| == 1 then seq(w, j requires 0 <= j < w => [v[0][j]])
    else
      var front := v[..|v| - 1];
      assert front[0] == v[0];
      assert Covers(front);
      var t := Transpose(front);
      var last := v[|v| - 1];
      seq(w, j requires 0 <= j < w => t[j] + [last[j]])
  }

  /** Transposing a rectangular, non-degenerate grid twice gives it back. */
  lemma TransposeTwice<T>(v: seq<seq<T>>)
    requires Rectangular(v) && |v[0]| > 0
    ensures Covers(Transpose(v))
    ensures Transpose(Transpose(v)) == v
  {
    var t := Transpose(v);
    assert Covers(t);
    var u := Transpose(t);
    assert |u| == |v|;
    forall i | 0 <= i < |u| ensures u[i] == v[i] {
      assert |u[i]| == |v[i]|;
      forall j | 0 <= j < |u[i]| ensures u[i][j] == v[i][j] {
        assert u[i][j] == t[j][i];
      }
    }
  }

  /** A column without any crate. */
  predicate Blank(col: seq<Slot>) {
    forall i :: 0 <= i < |col| ==> col[i].None?
  }

  /** The stack a column becomes: its crates with the blanks dropped, bottom first
      (`flatten().rev()`). */
  function Kept(col: seq<Slot>): (r: Stack)
    ensures |r| == 0 <==> Blank(col)
    ensures forall x :: x in r <==> Some(x) in col
  {
    var crates := Seqs.Flatten(col);
    var r := Seqs.Reverse(crates);
    assert forall x :: x in r <==> x in crates by {
      forall x ensures x in r <==> x in crates {
        if x in crates {
          var i :| 0 <= i < |crates| && crates[i] == x;
          assert r[|crates| - 1 - i] == x;
        }
      }
    }
    r
  }

  /** The order of a stack: the column's lowest slot, drawn in the last row, is
      the bottom of the stack, and a blank there adds nothing. */
  lemma KeptBelow(col: seq<Slot>, v: Slot)
    ensures Kept(col + [v]) == (if v.Some? then [v.value] + Kept(col) else Kept(col))
  {
    Seqs.FlattenSnoc(col, v);
    var f := Seqs.Flatten(col);
    if v.Some? {
      assert Seqs.Reverse(f + [v.value]) == [v.value] + Seqs.Reverse(f) by {
        var a := Seqs.Reverse(f + [v.value]);
        assert forall i :: 0 <= i < |a| ==> a[i] == ([v.value] + Seqs.Reverse(f))[i];
      }
    } else {
      assert f + [] == f;
    }
  }

  /** The inner push loop: every crate of `xs`, in order, onto column `c`. */
  function PushAll(s: Stacks, c: nat, xs: Stack): (r: Result<Stacks, Fault>)
    ensures r.Success? <==> |xs| == 0 || c <= |s|
    ensures r.Failure? ==> r.error == ColumnOutOfRange
    ensures r.Success? && c < |s| ==> r.value == s[c := s[c] + xs]
    ensures r.Success? && c == |s| && |xs| > 0 ==> r.value == s + [xs]
    ensures |xs| == 0 ==> r == Success(s)
    decreases |xs|
  {
    if |xs| == 0 then
      assert c < |s| ==> s[c := s[c] + xs] == s by {
        if c < |s| {
          assert s[c] + xs == s[c];
        }
      }
      Success(s)
    else if c > |s| then Failure(ColumnOutOfRange)
    else
      var s1 := StackEngine.PushToColumn(s, c, xs[0]);
      var r := PushAll(s1, c, xs[1..]);
      assert [xs[0]] + xs[1..] == xs;
      if c < |s| then
        assert s1[c] + xs[1..] == s[c] + xs;
        assert s1[c := s1[c] + xs[1..]] == s[c := s[c] + xs];
        r
      else
        assert s1 == s + [[xs[0]]];
        assert s1[c := s1[c] + xs[1..]] == s + [xs];
        r
  }

  /** No non-blank column comes after a blank one. */
  predicate NoGap(cols: seq<seq<Slot>>) {
    forall i, j :: 0 <= i < j < |cols| && Blank(cols[i]) ==> Blank(cols[j])
  }

  /** The outer push loop, over the transposed columns in order: column `j` pushes
      onto stack `j`. A blank column pushes nothing and so creates no stack, and a
      later non-blank column then pushes past the end (`Vec::insert` panics).
      When it succeeds, the stacks are the leading non-blank columns' crates. */
  function PushColumns(cols: seq<seq<Slot>>): (r: Result<Stacks, Fault>)
    ensures r.Success? <==> NoGap(cols)
    ensures r.Failure? ==> r.error == ColumnOutOfRange
    ensures r.Success? ==> Leading(cols, r.value)
    decreases |cols|
  {
    if |cols| == 0 then Success([])
    else
      var front := cols[..|cols| - 1];
      match PushColumns(front)
      case Failure(e) =>
        NoGapOfFront(cols);
        Failure(e)
      case Success(s) =>
        PushLastColumn(cols, s);
        PushAll(s, |cols| - 1, Kept(cols[|cols| - 1]))
  }

  /** `s` holds the crates of the leading columns of `cols`, none of them blank,
      and every column past them is blank. */
  predicate Leading(cols: seq<seq<Slot>>, s: Stacks) {
    && |s| <= |cols|
    && (forall j :: 0 <= j < |s| ==> s[j] == Kept(cols[j]) && |s[j]| > 0)
    && (forall j :: |s| <= j < |cols| ==> Blank(cols[j]))
  }

  /** Without a blank column, every column becomes a stack of its own. */
  lemma PushNonBlankColumns(cols: seq<seq<Slot>>)
    requires forall j :: 0 <= j < |cols| ==> !Blank(cols[j])
    ensures PushColumns(cols).Success?
    ensures |PushColumns(cols).value| == |cols|
    ensures forall j :: 0 <= j < |cols| ==> PushColumns(cols).value[j] == Kept(cols[j])
  {
    assert NoGap(cols);
    var s := PushColumns(cols).value;
    assert forall j :: 0 <= j < |cols| ==> !Blank(cols[j]) && j < |s|;
    assert |cols| > 0 ==> |cols| - 1 < |s|;
  }

  lemma NoGapOfFront(cols: seq<seq<Slot>>)
    requires |cols| > 0
    ensures NoGap(cols) ==> NoGap(cols[..|cols| - 1])
  {
    var front := cols[..|cols| - 1];
    if NoGap(cols) {
      forall i, j | 0 <= i < j < |front| && Blank(front[i]) ensures Blank(front[j]) {
        assert front[i] == cols[i] && front[j] == cols[j];
      }
    }
  }

  /** The last round of the outer loop, once the earlier columns are pushed. */
  lemma PushLastColumn(cols: seq<seq<Slot>>, s: Stacks)
    requires |cols| > 0
    requires NoGap(cols[..|cols| - 1]) && Leading(cols[..|cols| - 1], s)
    ensures var r := PushAll(s, |cols| - 1, Kept(cols[|cols| - 1]));
      && (r.Success? <==> NoGap(cols))
      && (r.Success? ==> Leading(cols, r.value))
  {
    var n := |cols|;
    var xs := Kept(cols[n - 1]);
    if |xs| == 0 {
      BlankLastColumn(cols, s);
    } else if n - 1 > |s| {
      GapBeforeLast(cols, s);
    } else {
      LastOfFull(cols, s);
    }
  }

  /** A blank last column pushes nothing and leaves no gap behind. */
  lemma BlankLastColumn(cols: seq<seq<Slot>>, s: Stacks)
    requires |cols| > 0 && Blank(cols[|cols| - 1])
    requires NoGap(cols[..|cols| - 1]) && Leading(cols[..|cols| - 1], s)
    ensures NoGap(cols) && Leading(cols, s)
  {
    var n := |cols|;
    var front := cols[..n - 1];
    assert forall j :: 0 <= j < n - 1 ==> front[j] == cols[j];
    forall i, j | 0 <= i < j < n && Blank(cols[i]) ensures Blank(cols[j]) {
      if j < n - 1 {
        assert Blank(front[i]);
      }
    }
  }

  /** A non-blank last column after a blank one is a gap. */
  lemma GapBeforeLast(cols: seq<seq<Slot>>, s: Stacks)
    requires |cols| > 0 && !Blank(cols[|cols| - 1])
    requires Leading(cols[..|cols| - 1], s) && |s| < |cols| - 1
    ensures !NoGap(cols)
  {
    var front := cols[..|cols| - 1];
    assert Blank(front[|s|]);
    assert front[|s|] == cols[|s|];
  }

  /** After a stack for every earlier column, a non-blank last column adds its own. */
  lemma LastOfFull(cols: seq<seq<Slot>>, s: Stacks)
    requires |cols| > 0 && !Blank(cols[|cols| - 1])
    requires Leading(cols[..|cols| - 1], s) && |s| == |cols| - 1
    ensures NoGap(cols) && Leading(cols, s + [Kept(cols[|cols| - 1])])
  {
    var n := |cols|;
    var front := cols[..n - 1];
    assert forall j :: 0 <= j < n - 1 ==> front[j] == cols[j];
    assert forall j :: 0 <= j < n - 1 ==> s[j] == Kept(cols[j]) && |s[j]| > 0;
    assert forall j :: 0 <= j < n - 1 ==> !Blank(cols[j]);
  }

  /** The index line's digit count must equal the number of columns the rows give. */
  function StacksFromRows(rows: seq<StacksParser.Row>, count: nat): (r: Result<Stacks, Fault>)
    requires |rows| > 0
    ensures r == Failure(RaggedRows) <==> !Covers(rows)
    ensures r == Failure(CountMismatch) <==> Covers(rows) && |rows[0]| != count
    ensures r.Failure? ==> r.error in {RaggedRows, CountMismatch, ColumnOutOfRange}
    ensures r.Success? ==> Covers(rows) && |r.value| <= count && Leading(Transpose(rows), r.value)
  {
    if !Covers(rows) then Failure(RaggedRows)
    else
      var cols := Transpose(rows);
      if |cols| != count then Failure(CountMismatch)
      else PushColumns(cols)
  }

  /** `Stacks::parse`: the last line is the index line; it is cut out, together with
      everything after its first occurrence, and what precedes it is parsed as rows. */
  function ParseStacks(input: string): (r: Result<Stacks, Fault>)
    ensures r == Failure(NoLines) <==> |input| == 0
    ensures r.Failure? ==> r.error in {NoLines, ParseError, RaggedRows, CountMismatch, ColumnOutOfRange}
    ensures r.Success? ==> var lines := Text.Lines(input);
      |lines| > 0 && |r.value| <= Text.CountDigits(lines[|lines| - 1])
  {
    var lines := Text.Lines(input);
    if |lines| == 0 then Failure(NoLines)
    else
      var last := lines[|lines| - 1];
      var at := IndexAt(input, last);
      match StacksParser.ParseLines(input[..at])
      case None => Failure(ParseError)
      case Some((rows, _)) => StacksFromRows(rows, Text.CountDigits(last))
  }

  /** Where the index line is cut out: the first occurrence of the input's last
      line (`split_once`), which always exists. */
  function IndexAt(input: string, last: string): (at: nat)
    requires |Text.Lines(input)| > 0 && last == Text.Lines(input)[|Text.Lines(input)| - 1]
    ensures Text.OccursAt(input, last, at)
    ensures forall j :: 0 <= j < at ==> !Text.OccursAt(input, last, j)
  {
    assert Text.Occurs(input, last);
    Text.Find(input, last).value
  }

  /** A column-number line: a space, then a digit, on one line. */
  predicate IndexLine(idx: string) {
    |idx| >= 2 && idx[0] == ' ' && Text.IsAsciiDigit(idx[1])
    && '\n' !in idx
  }

  /** A drawing of rows followed by its index line parses back to those rows, and
      the index line's digits give the expected number of stacks. */
  lemma ParseDrawing(rows: seq<StacksParser.Row>, idx: string)
    requires |rows| > 0 && forall k :: 0 <= k < |rows| ==> StacksParser.ValidRow(rows[k])
    requires IndexLine(idx)
    ensures ParseStacks(StacksParser.RowsText(rows) + idx) == StacksFromRows(rows, Text.CountDigits(idx))
  {
    var drawing := StacksParser.RowsText(rows);
    DrawingLastLine(rows, idx);
    DrawingIndexAt(rows, idx);
    DrawingRows(rows, idx);
    ParseStacksOf(drawing + idx, idx, |drawing|, rows, []);
  }

  /** The index line is the drawing's last line. */
  lemma DrawingLastLine(rows: seq<StacksParser.Row>, idx: string)
    requires |rows| > 0 && forall k :: 0 <= k < |rows| ==> StacksParser.ValidRow(rows[k])
    requires IndexLine(idx)
    ensures var lines := Text.Lines(StacksParser.RowsText(rows) + idx);
      |lines| > 0 && lines[|lines| - 1] == idx
  {
    StacksParser.RowsTextHasNoDigit(rows);
    Text.LastOfLines(StacksParser.RowsText(rows), idx);
  }

  /** The index line is cut out where the rows end. */
  lemma DrawingIndexAt(rows: seq<StacksParser.Row>, idx: string)
    requires |rows| > 0 && forall k :: 0 <= k < |rows| ==> StacksParser.ValidRow(rows[k])
    requires IndexLine(idx)
    requires var lines := Text.Lines(StacksParser.RowsText(rows) + idx);
      |lines| > 0 && lines[|lines| - 1] == idx
    ensures IndexAt(StacksParser.RowsText(rows) + idx, idx) == |StacksParser.RowsText(rows)|
  {
    StacksParser.RowsTextHasNoDigit(rows);
    IndexLineFound(StacksParser.RowsText(rows), idx);
  }

  /** What precedes the index line parses back to the rows, with nothing left. */
  lemma DrawingRows(rows: seq<StacksParser.Row>, idx: string)
    requires |rows| > 0 && forall k :: 0 <= k < |rows| ==> StacksParser.ValidRow(rows[k])
    ensures var drawing := StacksParser.RowsText(rows);
      StacksParser.ParseLines((drawing + idx)[..|drawing|]) == Some((rows, []))
  {
    var drawing := StacksParser.RowsText(rows);
    assert (drawing + idx)[..|drawing|] == drawing + [];
    StacksParser.LinesRoundTrip(rows, []);
  }

  /** `Stacks::parse` once its index line, the place it is cut out and the rows
      before it are known. */
  lemma ParseStacksOf(input: string, last: string, at: nat, rows: seq<StacksParser.Row>, rest: string)
    requires |Text.Lines(input)| > 0 && last == Text.Lines(input)[|Text.Lines(input)| - 1]
    requires IndexAt(input, last) == at
    requires StacksParser.ParseLines(input[..at]) == Some((rows, rest))
    ensures ParseStacks(input) == StacksFromRows(rows, Text.CountDigits(last))
  {
  }

  /** The first occurrence of the index line is where it starts: the drawing has
      no digit, and ends with a line ending rather than a space. */
  lemma IndexLineFound(drawing: string, idx: string)
    requires forall c :: c in drawing ==> !Text.IsAsciiDigit(c)
    requires |drawing| > 0 && drawing[|drawing| - 1] == '\n'
    requires IndexLine(idx)
    ensures Text.Find(drawing + idx, idx) == Some(|drawing|)
  {
    var input := drawing + idx;
    assert Text.OccursAt(input, idx, |drawing|) by {
      assert input[|drawing|..|drawing| + |idx|] == idx;
    }
    forall j | 0 <= j < |drawing| ensures !Text.OccursAt(input, idx, j) {
      if j + |idx| <= |input| {
        var w := input[j..j + |idx|];
        assert w[0] == input[j] && w[1] == input[j + 1];
        if j + 1 < |drawing| {
          assert input[j + 1] == drawing[j + 1];
          assert drawing[j + 1] in drawing;
        } else {
          assert input[j] == '\n';
        }
      }
    }
  }
}
