/** The grammar of the crate drawing (`day-5/src/stacks_parser.rs`): a row is a
    run of 3-character slots separated by single spaces, each slot either `[X]`
    for a crate labelled by a letter or three spaces for no crate. Every parser
    returns the parsed value and the unconsumed input, or `None` on a nom error. */
module StacksParser {

  import opened Wrappers
  import opened Text

  /** One parsed slot: `Some(label)` for a crate, `None` for a blank position. */
  type Slot = Option<char>

  /** One drawn row, slots from left to right. */
  type Row = seq<Slot>

  predicate ValidSlot(v: Slot) {
    v.None? || IsAsciiLetter(v.value)
  }

  predicate ValidRow(row: Row) {
    |row| > 0 && forall j :: 0 <= j < |row| ==> ValidSlot(row[j])
  }

  // ---------------------------------------------------------------------------
  // Rendering: the cell format of the stack drawing, used as the parsers' inverse.

  /** A crate is drawn as `[X]`, a blank position as three spaces. */
  function SlotText(v: Slot): string
  {
    match v
    case Some(c) => ['[', c, ']']
    case None => "   "
  }

  /** Each further slot of a row, preceded by its single separating space. */
  function MoreText(vs: seq<Slot>): string
  {
    if |vs| == 0 then [] else [' '] + SlotText(vs[0]) + MoreText(vs[1..])
  }

  /** A whole row: slots joined by single spaces. */
  function RowText(row: Row): string
    requires |row| > 0
  {
    SlotText(row[0]) + MoreText(row[1..])
  }

  /** Rows, each followed by a line ending. */
  function RowsText(rows: seq<Row>): string
    requires forall k :: 0 <= k < |rows| ==> ValidRow(rows[k])
  {
    if |rows| == 0 then []
    else
      assert ValidRow(rows[0]);
      RowText(rows[0]) + "\n" + RowsText(rows[1..])
  }

  lemma {:induction false} MoreTextLength(vs: seq<Slot>)
    ensures |MoreText(vs)| == 4 * |vs|
  {
    if |vs| > 0 {
      MoreTextLength(vs[1..]);
    }
  }

  lemma MoreTextCons(v: Slot, vs: seq<Slot>)
    ensures MoreText([v] + vs) == [' '] + SlotText(v) + MoreText(vs)
  {
    assert ([v] + vs)[1..] == vs;
  }

  /** A row of n slots spans 4n - 1 characters. */
  lemma RowTextLength(row: Row)
    requires |row| > 0
    ensures |RowText(row)| == 4 * |row| - 1
  {
    MoreTextLength(row[1..]);
  }

  // ---------------------------------------------------------------------------
  // Parsers.

  /** nom `char(c)`: consume `c` if the input starts with it. */
  function ParseChar(c: char, i: string): (r: Option<string>)
    ensures r.Some? <==> |i| > 0 && i[0] == c
    ensures r.Some? ==> r.value == i[1..]
  {
    if |i| > 0 && i[0] == c then Some(i[1..]) else None
  }

  /** `single_char`: one letter. */
  function SingleChar(i: string): (r: Option<(char, string)>)
    ensures r.Some? <==> |i| > 0 && IsAsciiLetter(i[0])
    ensures r.Some? ==> r.value == (i[0], i[1..])
  {
    if |i| > 0 && IsAsciiLetter(i[0]) then Some((i[0], i[1..])) else None
  }

  /** `parse_crate`: `[`, a letter, `]`. */
  function ParseCrate(i: string): (r: Option<(Slot, string)>)
    ensures r.Some? <==> |i| >= 3 && i[0] == '[' && IsAsciiLetter(i[1]) && i[2] == ']'
    ensures r.Some? ==> r.value == (Some(i[1]), i[3..])
  {
    var afterOpen :- ParseChar('[', i);
    var letter :- SingleChar(afterOpen);
    var afterClose :- ParseChar(']', letter.1);
    Some((Some(letter.0), afterClose))
  }

  /** `parse_empty_crate`: exactly three spaces, yielding no crate. */
  function ParseEmptyCrate(i: string): (r: Option<(Slot, string)>)
    ensures r.Some? <==> |i| >= 3 && i[0] == ' ' && i[1] == ' ' && i[2] == ' '
    ensures r.Some? ==> r.value == (None, i[3..])
  {
    var i1 :- ParseChar(' ', i);
    var i2 :- ParseChar(' ', i1);
    var i3 :- ParseChar(' ', i2);
    Some((None, i3))
  }

  /** `parse_slot`: a crate if possible, otherwise a blank position. */
  function ParseSlot(i: string): (r: Option<(Slot, string)>)
    ensures r.Some? <==> |i| >= 3 && (i[..3] == "   " || (i[0] == '[' && IsAsciiLetter(i[1]) && i[2] == ']'))
    ensures r.Some? ==> ValidSlot(r.value.0) && |r.value.1| + 3 == |i|
    ensures r.Some? ==> i == SlotText(r.value.0) + r.value.1
  {
    match ParseCrate(i)
    case Some(crate) =>
      assert i == SlotText(crate.0) + crate.1 by {
        assert i == i[..3] + i[3..];
      }
      Some(crate)
    case None =>
      var blank := ParseEmptyCrate(i);
      assert blank.Some? ==> i == SlotText(None) + i[3..] by {
        if blank.Some? {
          assert i == i[..3] + i[3..];
        }
      }
      blank
  }

  /** A separating space followed by a slot: what continues a row. */
  predicate SlotFollows(i: string) {
    |i| > 0 && i[0] == ' ' && ParseSlot(i[1..]).Some?
  }

  /** `many0(preceded(char(' '), parse_slot))`: the further slots of a row;
      stops, without consuming, at the first position that does not continue the row. */
  function MoreSlots(i: string): (r: (seq<Slot>, string))
    ensures forall j :: 0 <= j < |r.0| ==> ValidSlot(r.0[j])
    ensures |r.1| <= |i|
    decreases |i|
  {
    if |i| > 0 && i[0] == ' ' then
      match ParseSlot(i[1..])
      case Some(slot) =>
        var more := MoreSlots(slot.1);
        ([slot.0] + more.0, more.1)
      case None => ([], i)
    else ([], i)
  }

  /** What `many0` consumed is the drawing of the slots it returns. */
  lemma {:induction false} MoreSlotsText(i: string)
    ensures i == MoreText(MoreSlots(i).0) + MoreSlots(i).1
    decreases |i|
  {
    if |i| > 0 && i[0] == ' ' {
      match ParseSlot(i[1..])
      case Some(slot) =>
        var more := MoreSlots(slot.1);
        MoreSlotsText(slot.1);
        MoreTextCons(slot.0, more.0);
        assert i == [' '] + i[1..];
      case None =>
    }
  }

  /** `many0` stops only where the row does not go on. */
  lemma {:induction false} MoreSlotsStops(i: string)
    ensures !SlotFollows(MoreSlots(i).1)
    decreases |i|
  {
    if |i| > 0 && i[0] == ' ' {
      match ParseSlot(i[1..])
      case Some(slot) => MoreSlotsStops(slot.1);
      case None =>
    }
  }

  /** `parse_line`: one row of slots, then at most one line ending. */
  function ParseLine(i: string): (r: Option<(Row, string)>)
    ensures r.Some? <==> ParseSlot(i).Some?
    ensures r.Some? ==> ValidRow(r.value.0)
    ensures r.Some? ==> |r.value.1| < |i|
  {
    var first :- ParseSlot(i);
    var more := MoreSlots(first.1);
    var rest := if |more.1| > 0 && more.1[0] == '\n' then more.1[1..] else more.1;
    Some(([first.0] + more.0, rest))
  }

  /** What `parse_line` consumed is the drawing of its row, with or without the
      line ending after it. */
  lemma ParseLineText(i: string)
    requires ParseLine(i).Some?
    ensures var (row, rest) := ParseLine(i).value;
      i == RowText(row) + rest || i == RowText(row) + "\n" + rest
  {
    var first := ParseSlot(i).value;
    var more := MoreSlots(first.1);
    var row := [first.0] + more.0;
    var rest := ParseLine(i).value.1;
    assert i == RowText(row) + more.1 by {
      MoreSlotsText(first.1);
      assert row[1..] == more.0;
    }
    assert more.1 == rest || more.1 == "\n" + rest;
  }

  /** `parse_lines`: one or more rows; stops at the first line that does not start with a slot. */
  function ParseLines(i: string): (r: Option<(seq<Row>, string)>)
    ensures r.Some? <==> ParseLine(i).Some?
    ensures r.Some? ==> |r.value.0| > 0
    ensures r.Some? ==> forall k :: 0 <= k < |r.value.0| ==> ValidRow(r.value.0[k])
    ensures r.Some? ==> ParseLine(r.value.1).None?
    ensures r.Some? ==> |r.value.1| < |i|
  {
    var first :- ParseLine(i);
    var more := MoreLines(first.1);
    Some(([first.0] + more.0, more.1))
  }

  /** `many0(parse_line)`. */
  function MoreLines(i: string): (r: (seq<Row>, string))
    ensures forall k :: 0 <= k < |r.0| ==> ValidRow(r.0[k])
    ensures ParseLine(r.1).None?
    ensures |r.1| <= |i|
    decreases |i|
  {
    match ParseLine(i)
    case None => ([], i)
    case Some(line) =>
      var more := MoreLines(line.1);
      ([line.0] + more.0, more.1)
  }

  // ---------------------------------------------------------------------------
  // Properties.

  /** A drawn slot parses back to itself, whatever follows it. */
  lemma SlotRoundTrip(v: Slot, rest: string)
    requires ValidSlot(v)
    ensures ParseSlot(SlotText(v) + rest) == Some((v, rest))
  {
    var i := SlotText(v) + rest;
    assert i[3..] == rest;
    if v.None? {
      assert i[..3] == "   ";
    }
  }

  lemma {:induction false} MoreSlotsRoundTrip(vs: seq<Slot>, rest: string)
    requires forall j :: 0 <= j < |vs| ==> ValidSlot(vs[j])
    requires !SlotFollows(rest)
    ensures MoreSlots(MoreText(vs) + rest) == (vs, rest)
  {
    if |vs| > 0 {
      var i := MoreText(vs) + rest;
      var tail := MoreText(vs[1..]) + rest;
      assert i == [' '] + (SlotText(vs[0]) + tail);
      assert i[1..] == SlotText(vs[0]) + tail;
      SlotRoundTrip(vs[0], tail);
      assert ParseSlot(i[1..]) == Some((vs[0], tail));
      MoreSlotsRoundTrip(vs[1..], rest);
      assert MoreSlots(i) == ([vs[0]] + vs[1..], rest);
      assert [vs[0]] + vs[1..] == vs;
    } else {
      assert MoreText(vs) + rest == rest;
    }
  }

  /** A drawn row followed by a line ending parses back to itself and leaves
      exactly the text after the line ending. */
  lemma RowRoundTrip(row: Row, next: string)
    requires ValidRow(row)
    ensures ParseLine(RowText(row) + "\n" + next) == Some((row, next))
  {
    var i := RowText(row) + "\n" + next;
    var after := MoreText(row[1..]) + ("\n" + next);
    assert i == SlotText(row[0]) + after;
    SlotRoundTrip(row[0], after);
    MoreSlotsRoundTrip(row[1..], "\n" + next);
    assert ("\n" + next)[1..] == next;
    assert [row[0]] + row[1..] == row;
  }

  /** A drawn row with nothing after it parses back to itself with no remainder. */
  lemma RowRoundTripAtEnd(row: Row)
    requires ValidRow(row)
    ensures ParseLine(RowText(row)) == Some((row, []))
  {
    var i := RowText(row);
    var after := MoreText(row[1..]);
    assert i == SlotText(row[0]) + after;
    SlotRoundTrip(row[0], after);
    assert after == MoreText(row[1..]) + [];
    MoreSlotsRoundTrip(row[1..], []);
    assert [row[0]] + row[1..] == row;
  }

  lemma {:induction false} MoreLinesRoundTrip(rows: seq<Row>, tail: string)
    requires forall k :: 0 <= k < |rows| ==> ValidRow(rows[k])
    requires ParseLine(tail).None?
    ensures MoreLines(RowsText(rows) + tail) == (rows, tail)
  {
    if |rows| > 0 {
      var rest := RowsText(rows[1..]) + tail;
      assert ValidRow(rows[0]);
      assert RowsText(rows) + tail == RowText(rows[0]) + "\n" + rest;
      RowRoundTrip(rows[0], rest);
      MoreLinesRoundTrip(rows[1..], tail);
      assert MoreLines(RowsText(rows) + tail) == ([rows[0]] + rows[1..], tail);
      assert [rows[0]] + rows[1..] == rows;
    } else {
      assert RowsText(rows) + tail == tail;
    }
  }

  /** A drawing of one or more rows, each ended by a line ending, parses back to
      its rows; the line that follows (the index line) is left unparsed. */
  lemma LinesRoundTrip(rows: seq<Row>, tail: string)
    requires |rows| > 0
    requires forall k :: 0 <= k < |rows| ==> ValidRow(rows[k])
    requires ParseLine(tail).None?
    ensures ParseLines(RowsText(rows) + tail) == Some((rows, tail))
  {
    var i := RowsText(rows) + tail;
    MoreLinesRoundTrip(rows, tail);
    assert MoreLines(i).0 != [];
  }

  /** The characters a row is drawn with. */
  predicate CellChar(c: char) {
    c == '[' || c == ']' || c == ' ' || IsAsciiLetter(c)
  }

  /** The drawing of rows holds no digit, and ends with its last row's line ending. */
  lemma {:induction false} RowsTextHasNoDigit(rows: seq<Row>)
    requires forall k :: 0 <= k < |rows| ==> ValidRow(rows[k])
    ensures forall c :: c in RowsText(rows) ==> !IsAsciiDigit(c)
    ensures |rows| > 0 ==> |RowsText(rows)| > 0 && RowsText(rows)[|RowsText(rows)| - 1] == '\n'
  {
    if |rows| > 0 {
      assert ValidRow(rows[0]);
      RowTextChars(rows[0]);
      RowsTextHasNoDigit(rows[1..]);
      var t := RowsText(rows);
      assert t == RowText(rows[0]) + "\n" + RowsText(rows[1..]);
      if |rows| > 1 {
        assert ValidRow(rows[1]);
      } else {
        assert t == RowText(rows[0]) + "\n";
      }
    }
  }

  /** A drawing of rows followed by a line that is not blank holds no blank line,
      and starts with a row. */
  lemma {:induction false} RowsTextHasNoBlankLine(rows: seq<Row>, t: string)
    requires forall k :: 0 <= k < |rows| ==> ValidRow(rows[k])
    requires |t| > 0 && t[0] != '\n' && NoBlankLine(t)
    ensures var s := RowsText(rows) + t; |s| > 0 && s[0] != '\n' && NoBlankLine(s)
  {
    if |rows| > 0 {
      assert ValidRow(rows[0]);
      var a := RowText(rows[0]);
      var b := RowsText(rows[1..]) + t;
      assert RowsText(rows) + t == a + "\n" + b;
      RowTextChars(rows[0]);
      RowsTextHasNoBlankLine(rows[1..], t);
      NoBlankLineJoin(a, b);
      assert (a + "\n" + b)[0] == a[0];
    } else {
      assert RowsText(rows) + t == t;
    }
  }

  /** A row is drawn with brackets, spaces and letters only, and starts with a
      bracket or a space. */
  lemma RowTextChars(row: Row)
    requires ValidRow(row)
    ensures forall c :: c in RowText(row) ==> CellChar(c)
    ensures |RowText(row)| > 0 && (RowText(row)[0] == '[' || RowText(row)[0] == ' ')
  {
    MoreTextChars(row[1..]);
    assert ValidSlot(row[0]);
  }

  lemma {:induction false} MoreTextChars(vs: seq<Slot>)
    requires forall j :: 0 <= j < |vs| ==> ValidSlot(vs[j])
    ensures forall c :: c in MoreText(vs) ==> CellChar(c)
  {
    if |vs| > 0 {
      assert ValidSlot(vs[0]);
      MoreTextChars(vs[1..]);
    }
  }

  /** The column-number line (` 1   2 ...`) is never a row: a digit in its first
      three characters rules out both slot shapes. */
  lemma IndexLineIsNotARow(i: string)
    requires |i| >= 2 && i[0] == ' ' && IsAsciiDigit(i[1])
    ensures ParseLine(i).None?
    ensures ParseLines(i).None?
  {
    if |i| >= 3 {
      assert i[..3][1] == i[1];
    }
  }
}
