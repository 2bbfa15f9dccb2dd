/** The example puzzle of day-5/src/main.rs and its expected answer, `CMZ`. */
module Example {
  import opened Wrappers
  import opened Crates
  import Seqs
  import Text
  import StacksParser
  import InstructionParser
  import StackEngine
  import Layout
  import Solver

  /** The example input, line by line. */
  const ExampleInput: string :=
    "    [D]    " + "\n" +
    "[N] [C]    " + "\n" +
    "[Z] [M] [P]" + "\n" +
    " 1   2   3 " + "\n" +
    "\n" +
    "move 1 from 2 to 1" + "\n" +
    "move 3 from 1 to 3" + "\n" +
    "move 2 from 2 to 1" + "\n" +
    "move 1 from 1 to 2"

  const ExampleRows: seq<StacksParser.Row> :=
    [[None, Some('D'), None], [Some('N'), Some('C'), None], [Some('Z'), Some('M'), Some('P')]]

  const ExampleIndex: string := " 1   2   3 "

  const ExampleMoves: seq<Move> := [Move(1, 2, 1), Move(3, 1, 3), Move(2, 2, 1), Move(1, 1, 2)]

  lemma ExampleRowsAreValid()
    ensures forall k :: 0 <= k < |ExampleRows| ==> StacksParser.ValidRow(ExampleRows[k])
  {
  }

  lemma ExampleDrawing()
    ensures forall k :: 0 <= k < |ExampleRows| ==> StacksParser.ValidRow(ExampleRows[k])
    ensures StacksParser.RowsText(ExampleRows) ==
      "    [D]    " + "\n" + ("[N] [C]    " + "\n" + ("[Z] [M] [P]" + "\n" + []))
  {
    ExampleRowsAreValid();
    var r := ExampleRows;
    var t0, t1, t2 := StacksParser.RowText(r[0]), StacksParser.RowText(r[1]), StacksParser.RowText(r[2]);
    assert t0 == "    [D]    " by { TopRow(); }
    assert t1 == "[N] [C]    " by { MiddleRow(); }
    assert t2 == "[Z] [M] [P]" by { BottomRow(); }
    assert StacksParser.RowsText(r) == t0 + "\n" + (t1 + "\n" + (t2 + "\n" + [])) by {
      assert r[1..][1..][1..] == [];
    }
  }

  lemma TopRow()
    ensures StacksParser.RowText(ExampleRows[0]) == "    [D]    "
  {
    var vs := ExampleRows[0][1..];
    assert StacksParser.MoreText(vs[1..]) == "    ";
    assert StacksParser.MoreText(vs) == " [D]" + "    ";
  }

  lemma MiddleRow()
    ensures StacksParser.RowText(ExampleRows[1]) == "[N] [C]    "
  {
    var vs := ExampleRows[1][1..];
    assert StacksParser.MoreText(vs[1..]) == "    ";
    assert StacksParser.MoreText(vs) == " [C]" + "    ";
  }

  lemma BottomRow()
    ensures StacksParser.RowText(ExampleRows[2]) == "[Z] [M] [P]"
  {
    var vs := ExampleRows[2][1..];
    assert StacksParser.MoreText(vs[1..]) == " [P]";
    assert StacksParser.MoreText(vs) == " [M]" + " [P]";
  }

  const MoveLine1 := "move 1 from 2 to 1"
  const MoveLine2 := "move 3 from 1 to 3"
  const MoveLine3 := "move 2 from 2 to 1"
  const MoveLine4 := "move 1 from 1 to 2"

  lemma ExampleMoveLines()
    ensures Solver.MoveLines(ExampleMoves) == [MoveLine1, MoveLine2, MoveLine3, MoveLine4]
  {
    var ms := ExampleMoves;
    var ls := Solver.MoveLines(ms);
    assert |ls| == 4;
    assert ls[0] == MoveLine1 by { assert ms[0] == Move(1, 2, 1); WrittenLine1(); }
    assert ls[1] == MoveLine2 by { assert ms[1] == Move(3, 1, 3); WrittenLine2(); }
    assert ls[2] == MoveLine3 by { assert ms[2] == Move(2, 2, 1); WrittenLine3(); }
    assert ls[3] == MoveLine4 by { assert ms[3] == Move(1, 1, 2); WrittenLine4(); }
  }

  lemma WrittenLine1()
    ensures InstructionParser.MoveText(Move(1, 2, 1)) == MoveLine1
  {
    WrittenMove(1, 2, 1);
  }

  lemma WrittenLine2()
    ensures InstructionParser.MoveText(Move(3, 1, 3)) == MoveLine2
  {
    WrittenMove(3, 1, 3);
  }

  lemma WrittenLine3()
    ensures InstructionParser.MoveText(Move(2, 2, 1)) == MoveLine3
  {
    WrittenMove(2, 2, 1);
  }

  lemma WrittenLine4()
    ensures InstructionParser.MoveText(Move(1, 1, 2)) == MoveLine4
  {
    WrittenMove(1, 1, 2);
  }

  lemma ExampleInstructions()
    ensures Solver.MovesText(ExampleMoves) ==
      MoveLine1 + "\n" + (MoveLine2 + "\n" + (MoveLine3 + "\n" + [])) + MoveLine4
  {
    ExampleMoveLines();
    JoinedFour(MoveLine1, MoveLine2, MoveLine3, MoveLine4);
  }

  lemma JoinedFour(a: string, b: string, c: string, d: string)
    ensures Text.Joined([a, b, c, d]) == a + "\n" + (b + "\n" + (c + "\n" + [])) + d
  {
    var f := [a, b, c, d][..3];
    assert f == [a, b, c];
    assert f[1..] == [b, c] && [b, c][1..] == [c] && [c][1..] == [];
    assert Text.Terminated([c]) == c + "\n" + [];
    assert Text.Terminated([b, c]) == b + "\n" + (c + "\n" + []);
    assert Text.Terminated(f) == a + "\n" + (b + "\n" + (c + "\n" + []));
  }

  /** A move with one-digit numbers, written out. */
  lemma WrittenMove(q: nat, f: nat, t: nat)
    requires q < 10 && f < 10 && t < 10
    ensures InstructionParser.MoveText(Move(q, f, t)) ==
      "move " + [Text.DigitChars[q]] + " from " + [Text.DigitChars[f]] + " to " + [Text.DigitChars[t]]
  {
    OneDigit(q);
    OneDigit(f);
    OneDigit(t);
  }

  lemma OneDigit(n: nat)
    requires n < 10
    ensures Text.Decimal(n) == [Text.DigitChars[n]]
  {
    assert n % 10 == n;
  }

  /** The example input is the written form of its rows, index line and moves. */
  lemma ExampleIsWritten()
    ensures ExampleInput ==
      StacksParser.RowsText(ExampleRows) + ExampleIndex + "\n\n" + Solver.MovesText(ExampleMoves)
  {
    ExampleDrawing();
    ExampleInstructions();
    Regroup("    [D]    ", "[N] [C]    ", "[Z] [M] [P]", " 1   2   3 ",
      MoveLine1, MoveLine2, MoveLine3, MoveLine4);
  }

  lemma Regroup(d0: string, d1: string, d2: string, idx: string, m0: string, m1: string, m2: string, m3: string)
    ensures d0 + "\n" + d1 + "\n" + d2 + "\n" + idx + "\n" + "\n" + m0 + "\n" + m1 + "\n" + m2 + "\n" + m3 ==
      (d0 + "\n" + (d1 + "\n" + (d2 + "\n" + []))) + idx + "\n\n" + (m0 + "\n" + (m1 + "\n" + (m2 + "\n" + [])) + m3)
  {
    var nl: string := "\n";
    assert nl + nl == "\n\n";
    var a := d0 + nl + d1 + nl + d2 + nl;
    assert a == d0 + nl + (d1 + nl + (d2 + nl + []));
    var b := m0 + nl + m1 + nl + m2 + nl;
    assert b == m0 + nl + (m1 + nl + (m2 + nl + []));
    assert a + idx + nl + nl + m0 + nl + m1 + nl + m2 + nl + m3 == a + idx + (nl + nl) + (b + m3);
  }

  /** `parse_lines` on the whole example input reads the three drawn rows and stops
      at the index line. */
  lemma ExampleRowsParsed()
    ensures StacksParser.ParseLines(ExampleInput) ==
      Some((ExampleRows, ExampleIndex + "\n\n" + Solver.MovesText(ExampleMoves)))
  {
    ExampleIsWritten();
    ExampleRowsAreValid();
    assert Layout.IndexLine(ExampleIndex);
    RowsBeforeIndex(ExampleRows, ExampleIndex, Solver.MovesText(ExampleMoves));
  }

  /** Rows followed by an index line parse back to the rows, leaving the index
      line and everything after it. */
  lemma RowsBeforeIndex(rows: seq<StacksParser.Row>, idx: string, more: string)
    requires |rows| > 0 && forall k :: 0 <= k < |rows| ==> StacksParser.ValidRow(rows[k])
    requires Layout.IndexLine(idx)
    ensures StacksParser.ParseLines(StacksParser.RowsText(rows) + idx + "\n\n" + more) ==
      Some((rows, idx + "\n\n" + more))
  {
    var tail := idx + "\n\n" + more;
    assert StacksParser.ParseLine(tail).None? by {
      assert tail[0] == idx[0] && tail[1] == idx[1];
      StacksParser.IndexLineIsNotARow(tail);
    }
    Associate(StacksParser.RowsText(rows), idx, "\n\n", more);
    StacksParser.LinesRoundTrip(rows, tail);
  }

  lemma Associate(a: string, b: string, c: string, d: string)
    ensures a + b + c + d == a + (b + c + d)
  {
  }

  /** The drawing's columns, top row first. */
  const ExampleColumns: seq<seq<StacksParser.Slot>> :=
    [[None, Some('N'), Some('Z')], [Some('D'), Some('C'), Some('M')], [None, None, Some('P')]]

  /** The stacks the example drawing describes, bottom crate first. */
  const ExampleStacks: Stacks := [['Z', 'N'], ['M', 'C', 'D'], ['P']]

  lemma ExampleIndexCount()
    ensures Text.CountDigits(ExampleIndex) == 3
  {
  }

  lemma ExampleTranspose()
    ensures Layout.Covers(ExampleRows) && Layout.Transpose(ExampleRows) == ExampleColumns
  {
    var t := Layout.Transpose(ExampleRows);
    assert |t| == 3;
    forall j | 0 <= j < 3 ensures t[j] == ExampleColumns[j] {
      assert |t[j]| == 3;
      assert t[j][0] == ExampleRows[0][j] && t[j][1] == ExampleRows[1][j] && t[j][2] == ExampleRows[2][j];
    }
  }

  lemma ExampleKept()
    ensures Layout.Kept(ExampleColumns[0]) == ExampleStacks[0]
    ensures Layout.Kept(ExampleColumns[1]) == ExampleStacks[1]
    ensures Layout.Kept(ExampleColumns[2]) == ExampleStacks[2]
  {
    KeptTwo('N', 'Z');
    KeptThree('D', 'C', 'M');
    KeptOne('P');
  }

  lemma KeptTwo(a: char, b: char)
    ensures Layout.Kept([None, Some(a), Some(b)]) == [b, a]
  {
    var col: seq<StacksParser.Slot> := [None, Some(a), Some(b)];
    assert col[1..][1..][1..] == [];
    assert Seqs.Flatten(col) == [a, b];
    var r := Seqs.Reverse([a, b]);
    assert r[0] == b && r[1] == a;
  }

  lemma KeptThree(a: char, b: char, c: char)
    ensures Layout.Kept([Some(a), Some(b), Some(c)]) == [c, b, a]
  {
    var col: seq<StacksParser.Slot> := [Some(a), Some(b), Some(c)];
    assert col[1..][1..][1..] == [];
    assert Seqs.Flatten(col) == [a, b, c];
    var r := Seqs.Reverse([a, b, c]);
    assert r[0] == c && r[1] == b && r[2] == a;
  }

  lemma KeptOne(a: char)
    ensures Layout.Kept([None, None, Some(a)]) == [a]
  {
    var col: seq<StacksParser.Slot> := [None, None, Some(a)];
    assert col[1..][1..][1..] == [];
    assert Seqs.Flatten(col) == [a];
  }

  /** The example drawing parses to stacks `ZN`, `MCD` and `P`. */
  lemma ExampleParsed()
    ensures Layout.StacksFromRows(ExampleRows, Text.CountDigits(ExampleIndex)) == Success(ExampleStacks)
  {
    ExampleIndexCount();
    ExampleTranspose();
    ExampleColumnsPushed();
  }

  lemma ExampleColumnsPushed()
    ensures Layout.PushColumns(ExampleColumns) == Success(ExampleStacks)
  {
    var c := ExampleColumns;
    ExampleKept();
    PushThree(c[0], c[1], c[2]);
    assert c == [c[0], c[1], c[2]];
  }

  /** Three columns, each with a crate at the bottom, become three stacks. */
  lemma PushThree(c0: seq<StacksParser.Slot>, c1: seq<StacksParser.Slot>, c2: seq<StacksParser.Slot>)
    requires |c0| == 3 && |c1| == 3 && |c2| == 3
    requires c0[2].Some? && c1[2].Some? && c2[2].Some?
    ensures Layout.PushColumns([c0, c1, c2]) == Success([Layout.Kept(c0), Layout.Kept(c1), Layout.Kept(c2)])
  {
    var c := [c0, c1, c2];
    NotBlank(c0);
    NotBlank(c1);
    NotBlank(c2);
    assert forall j :: 0 <= j < |c| ==> !Layout.Blank(c[j]) by {
      assert c[0] == c0 && c[1] == c1 && c[2] == c2;
    }
    Layout.PushNonBlankColumns(c);
    ThreeOf(Layout.PushColumns(c).value, Layout.Kept(c0), Layout.Kept(c1), Layout.Kept(c2));
  }

  /** A column with a crate at the bottom is not blank. */
  lemma NotBlank(col: seq<StacksParser.Slot>)
    requires |col| > 0 && col[|col| - 1].Some?
    ensures !Layout.Blank(col)
  {
  }

  lemma ThreeOf<T>(r: seq<T>, a: T, b: T, c: T)
    requires |r| == 3 && r[0] == a && r[1] == b && r[2] == c
    ensures r == [a, b, c]
  {
  }

  /** The example's instructions leave stacks `C`, `M` and `PDNZ`. */
  lemma ExampleRun()
    ensures Solver.RunInstructions(ExampleStacks, Solver.MoveLines(ExampleMoves)) == Success(ExampleFinal)
  {
    var ms := ExampleMoves;
    var ls := Solver.MoveLines(ms);
    var l0, l1, l2, l3 := InstructionParser.MoveText(ms[0]), InstructionParser.MoveText(ms[1]),
      InstructionParser.MoveText(ms[2]), InstructionParser.MoveText(ms[3]);
    assert ls == [l0] + ([l1] + ([l2] + ([l3] + [])));
    ExampleStep1([l1] + ([l2] + ([l3] + [])));
    ExampleStep2([l2] + ([l3] + []));
    ExampleStep3([l3] + []);
    ExampleStep4([]);
  }

  const AfterStep1: Stacks := [['Z', 'N', 'D'], ['M', 'C'], ['P']]
  const AfterStep2: Stacks := [[], ['M', 'C'], ['P', 'D', 'N', 'Z']]
  const AfterStep3: Stacks := [['C', 'M'], [], ['P', 'D', 'N', 'Z']]

  lemma ExampleStep1(rest: seq<string>)
    ensures Solver.RunInstructions(ExampleStacks, [InstructionParser.MoveText(Move(1, 2, 1))] + rest) ==
      Solver.RunInstructions(AfterStep1, rest)
  {
    Solver.RunWrittenMove(ExampleStacks, Move(1, 2, 1), rest);
    assert StackEngine.Moved(ExampleStacks, 1, 0, 1) == AfterStep1 by {
      MoveOneOnto('Z', 'N', 'M', 'C', 'D', 'P');
    }
  }

  lemma ExampleStep2(rest: seq<string>)
    ensures Solver.RunInstructions(AfterStep1, [InstructionParser.MoveText(Move(3, 1, 3))] + rest) ==
      Solver.RunInstructions(AfterStep2, rest)
  {
    Solver.RunWrittenMove(AfterStep1, Move(3, 1, 3), rest);
    assert StackEngine.Moved(AfterStep1, 0, 2, 3) == AfterStep2 by {
      MoveAllThree('Z', 'N', 'D', ['M', 'C'], 'P');
    }
  }

  lemma ExampleStep3(rest: seq<string>)
    ensures Solver.RunInstructions(AfterStep2, [InstructionParser.MoveText(Move(2, 2, 1))] + rest) ==
      Solver.RunInstructions(AfterStep3, rest)
  {
    Solver.RunWrittenMove(AfterStep2, Move(2, 2, 1), rest);
    assert StackEngine.Moved(AfterStep2, 1, 0, 2) == AfterStep3 by {
      MoveAllTwo('M', 'C', ['P', 'D', 'N', 'Z']);
    }
  }

  lemma ExampleStep4(rest: seq<string>)
    ensures Solver.RunInstructions(AfterStep3, [InstructionParser.MoveText(Move(1, 1, 2))] + rest) ==
      Solver.RunInstructions(ExampleFinal, rest)
  {
    Solver.RunWrittenMove(AfterStep3, Move(1, 1, 2), rest);
    assert StackEngine.Moved(AfterStep3, 0, 1, 1) == ExampleFinal by {
      MoveTopOntoEmpty('C', 'M', ['P', 'D', 'N', 'Z']);
    }
  }

  /** Moving the top crate of the second stack onto the first. */
  lemma MoveOneOnto(a: Crate, b: Crate, c: Crate, d: Crate, e: Crate, f: Crate)
    ensures StackEngine.Moved([[a, b], [c, d, e], [f]], 1, 0, 1) == [[a, b, e], [c, d], [f]]
  {
    var s: Stacks := [[a, b], [c, d, e], [f]];
    var src := s[1];
    assert src[..2] == [c, d] && src[2..] == [e];
    var rev := Seqs.Reverse([e]);
    assert rev == [e] by {
      assert rev[0] == e;
    }
    assert StackEngine.Moved(s, 1, 0, 1) == s[1 := [c, d]][0 := s[0] + rev];
    assert s[0] + rev == [a, b, e];
  }

  /** Moving both crates of the second stack onto an empty first one. */
  lemma MoveAllTwo(a: Crate, b: Crate, last: Stack)
    ensures StackEngine.Moved([[], [a, b], last], 1, 0, 2) == [[b, a], [], last]
  {
    var s: Stacks := [[], [a, b], last];
    var src := s[1];
    assert src[..0] == [] && src[0..] == src;
    var rev := Seqs.Reverse(src);
    assert rev == [b, a] by {
      assert rev[0] == b && rev[1] == a;
    }
    var empty: Stack := [];
    assert StackEngine.Moved(s, 1, 0, 2) == s[1 := empty][0 := s[0] + rev];
    assert s[0] + rev == [b, a];
  }

  /** Moving the top crate of a stack of two onto an empty second one. */
  lemma MoveTopOntoEmpty(a: Crate, b: Crate, last: Stack)
    ensures StackEngine.Moved([[a, b], [], last], 0, 1, 1) == [[a], [b], last]
  {
    var s: Stacks := [[a, b], [], last];
    var src := s[0];
    assert src[..1] == [a] && src[1..] == [b];
    var rev := Seqs.Reverse([b]);
    assert rev == [b] by {
      assert rev[0] == b;
    }
    var empty: Stack := [];
    assert empty + rev == [b];
    assert StackEngine.Moved(s, 0, 1, 1) == s[0 := [a]][1 := empty + rev];
  }

  /** Moving a whole stack of three onto a stack of one reverses the three. */
  lemma MoveAllThree(a: Crate, b: Crate, c: Crate, middle: Stack, d: Crate)
    ensures StackEngine.Moved([[a, b, c], middle, [d]], 0, 2, 3) == [[], middle, [d, c, b, a]]
  {
    var s: Stacks := [[a, b, c], middle, [d]];
    var src := s[0];
    assert src[..0] == [] && src[0..] == src;
    var rev := Seqs.Reverse(src);
    assert rev == [c, b, a] by {
      assert rev[0] == c && rev[1] == b && rev[2] == a;
    }
    var empty: Stack := [];
    assert StackEngine.Moved(s, 0, 2, 3) == s[0 := empty][2 := s[2] + rev];
    assert s[2] + rev == [d, c, b, a];
  }

  const ExampleFinal: Stacks := [['C'], ['M'], ['P', 'D', 'N', 'Z']]

  /** `solve_part_1` of the example is `CMZ`. */
  lemma ExampleSolved()
    ensures Solver.SolvePart1(ExampleInput) == Success("CMZ")
  {
    ExampleIsWritten();
    ExampleDrawing();
    assert Layout.IndexLine(ExampleIndex);
    Solver.SolveWritten(ExampleRows, ExampleIndex, ExampleMoves);
    ExampleParsed();
    ExampleRun();
    ExampleMessage();
  }

  lemma ExampleMessage()
    ensures StackEngine.GetMessage(ExampleFinal) == Success("CMZ")
  {
    var f := ExampleFinal;
    assert |f[0]| > 0 && |f[1]| > 0 && |f[2]| > 0;
    var r := StackEngine.GetMessage(f);
    assert r.Success? && |r.value| == 3;
    assert r.value[0] == 'C' && r.value[1] == 'M' && r.value[2] == 'Z';
    assert r.value == "CMZ";
  }

  /** The blank one-column drawing and its index line. */
  const BlankRows: seq<StacksParser.Row> := [[None]]
  const BlankIndex: string := " 1 "

  /** A drawing whose only column is blank gives no stack, so the message is
      empty. This is the release build; a debug build formats the stacks first
      and panics in `height` on an empty `Vec`. */
  lemma BlankDrawingGivesEmptyMessage()
    ensures Solver.SolvePart1("   \n 1 \n\n") == Success([])
  {
    BlankDrawingText();
    var drawing := StacksParser.RowsText(BlankRows) + BlankIndex;
    var input := drawing + "\n\n";
    assert Text.Find(input, "\n\n") == Some(|drawing|) by {
      assert Text.NoBlankLine(BlankIndex);
      StacksParser.RowsTextHasNoBlankLine(BlankRows, BlankIndex);
      Text.FindBlankLine(drawing, []);
      assert drawing + "\n\n" + [] == input;
    }
    assert input[..|drawing|] == drawing;
    assert input[|drawing| + 2..] == [];
    BlankStacks();
  }

  lemma BlankDrawingText()
    ensures StacksParser.ValidRow(BlankRows[0])
    ensures StacksParser.RowsText(BlankRows) + BlankIndex + "\n\n" == "   \n 1 \n\n"
  {
    assert StacksParser.ValidRow(BlankRows[0]);
    assert StacksParser.RowsText(BlankRows[1..]) == [];
    assert StacksParser.RowText(BlankRows[0]) == "   ";
  }

  /** The blank drawing parses to no stacks at all. */
  lemma BlankStacks()
    ensures StacksParser.ValidRow(BlankRows[0])
    ensures Layout.ParseStacks(StacksParser.RowsText(BlankRows) + BlankIndex) == Success([])
  {
    assert StacksParser.ValidRow(BlankRows[0]);
    assert Layout.IndexLine(BlankIndex);
    Layout.ParseDrawing(BlankRows, BlankIndex);
    assert Text.CountDigits(BlankIndex) == 1;
    var cols := Layout.Transpose(BlankRows);
    assert cols == [[None]] by {
      assert |cols| == 1 && |cols[0]| == 1 && cols[0][0] == BlankRows[0][0];
    }
    assert Layout.PushColumns(cols[..0]) == Success([]);
    assert Layout.Kept(cols[0]) == [];
  }
}
