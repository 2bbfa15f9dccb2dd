/** The unit tests of day-5/src/stacks_parser.rs, stated about the model of the
    drawing grammar. */
module StacksParserExample {
  import opened Wrappers
  import opened StacksParser

  /** `[i]` is a crate labelled `i`. */
  lemma ValidCrate()
    ensures ParseCrate("[i]") == Some((Some('i'), ""))
  {
  }

  /** Two labels, a doubled opening bracket and a doubled crate are not crates. */
  lemma InvalidCrates()
    ensures ParseCrate("[yy]").None?
    ensures ParseCrate("[[z]").None?
    ensures ParseCrate("[[h]]").None?
  {
  }

  /** Three spaces are a blank slot, one space is not, and eight spaces leave five. */
  lemma EmptyCrates()
    ensures ParseEmptyCrate("   ") == Some((None, ""))
    ensures ParseEmptyCrate(" ").None?
    ensures ParseEmptyCrate("        ") == Some((None, "     "))
  {
    var eight := "        ";
    assert eight[3..] == "     ";
  }

  /** `[a] [b]` is the row `a`, `b`, left to right. */
  lemma TwoCrates()
    ensures ParseLine("[a] [b]") == Some(([Some('a'), Some('b')], ""))
  {
    var row: Row := [Some('a'), Some('b')];
    assert RowText(row) == "[a] [b]" by {
      assert row[1..][1..] == [];
    }
    RowRoundTripAtEnd(row);
  }

  /** A row stops at its line ending; the next line is left unparsed. */
  lemma LeftoverLine()
    ensures ParseLine("[D] [N]\n[s]   ") == Some(([Some('D'), Some('N')], "[s]   "))
  {
    var row: Row := [Some('D'), Some('N')];
    assert RowText(row) == "[D] [N]" by {
      assert row[1..][1..] == [];
    }
    assert "[D] [N]\n[s]   " == RowText(row) + "\n" + "[s]   ";
    RowRoundTrip(row, "[s]   ");
  }

  /** `[D]`, five blank slots, `[N]`, `[F]` and a blank slot. */
  const WideLine := "[D]" + "                    " + " [N] [F]    "

  const WideRow: Row := [Some('D'), None, None, None, None, None, Some('N'), Some('F'), None]

  /** A 35-character row is nine slots: the first holds `D`, the last is blank. */
  lemma ValidLine()
    ensures |WideLine| == 4 * 9 - 1
    ensures ParseLine(WideLine) == Some((WideRow, ""))
  {
    WideRowText();
    RowRoundTripAtEnd(WideRow);
  }

  lemma WideRowText()
    ensures RowText(WideRow) == WideLine
  {
    var blank: Slot := None;
    var blanks: seq<Slot> := [blank, blank, blank, blank, blank];
    var last: seq<Slot> := [Some('N'), Some('F'), blank];
    assert WideRow[1..] == blanks + last;
    MoreTextAppend(blanks, last);
    BlanksText();
    LastText();
  }

  lemma BlanksText()
    ensures MoreText([None, None, None, None, None]) == "                    "
  {
    var blank: Slot := None;
    var s1: seq<Slot> := [blank];
    var s2, s3, s4, s5 := [blank] + s1, [blank, blank, blank], [blank, blank, blank, blank], [blank, blank, blank, blank, blank];
    assert s3 == [blank] + s2 && s4 == [blank] + s3 && s5 == [blank] + s4;
    MoreTextCons(blank, []);
    assert s1 == [blank] + [];
    MoreTextCons(blank, s1);
    MoreTextCons(blank, s2);
    MoreTextCons(blank, s3);
    MoreTextCons(blank, s4);
  }

  lemma LastText()
    ensures MoreText([Some('N'), Some('F'), None]) == " [N] [F]    "
  {
    var last: seq<Slot> := [Some('N'), Some('F'), None];
    assert MoreText(last[2..]) == "    ";
    assert MoreText(last[1..]) == " [F]    ";
  }

  /** The further slots of two runs are drawn one run after the other. */
  lemma {:induction false} MoreTextAppend(a: seq<Slot>, b: seq<Slot>)
    ensures MoreText(a + b) == MoreText(a) + MoreText(b)
  {
    if |a| == 0 {
      assert a + b == b;
    } else {
      assert (a + b)[1..] == a[1..] + b;
      MoreTextAppend(a[1..], b);
    }
  }
}
