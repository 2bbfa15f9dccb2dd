/** `solve_part_1` (day-5/src/main.rs): split the puzzle at its first blank line,
    parse the drawing, apply every instruction line in order, and read off the top
    crate of every stack. Animation and debug printing are not modelled. */
module Solver {
  import opened Wrappers
  import opened Crates
  import Text
  import StacksParser
  import InstructionParser
  import StackEngine
  import Layout

  /** The instruction loop: each line is parsed (a parse failure panics through
      `unwrap`), its remainder after the move is ignored, and the move is enacted;
      whether `enact` ran out of crates early is ignored too. */
  function RunInstructions(s: Stacks, lines: seq<string>): (r: Result<Stacks, Fault>)
    ensures r.Success? ==> TotalCrates(r.value) == TotalCrates(s)
    ensures r.Success? ==> |s| <= |r.value| <= |s| + |lines|
    ensures r.Failure? ==> r.error in {ParseError, Unimplemented, Underflow, ColumnOutOfRange}
    decreases |lines|
  {
    if |lines| == 0 then Success(s)
    else
      var parsed :- InstructionParser.ParseInstruction(lines[0]);
      var enacted :- StackEngine.Enact(parsed.0, s);
      RunInstructions(enacted.stacks, lines[1..])
  }

  /** Running two blocks of instructions is running the first, then the second on
      what the first left. */
  lemma {:induction false} RunInstructionsAppend(s: Stacks, a: seq<string>, b: seq<string>)
    ensures RunInstructions(s, a + b) ==
      match RunInstructions(s, a)
      case Failure(e) => Failure(e)
      case Success(t) => RunInstructions(t, b)
    decreases |a|
  {
    if |a| == 0 {
      assert a + b == b;
    } else {
      assert (a + b)[0] == a[0] && (a + b)[1..] == a[1..] + b;
      match InstructionParser.ParseInstruction(a[0])
      case Failure(_) =>
      case Success(parsed) =>
        match StackEngine.Enact(parsed.0, s)
        case Failure(_) =>
        case Success(enacted) =>
          RunInstructionsAppend(enacted.stacks, a[1..], b);
    }
  }

  /** `solve_part_1`: a puzzle without a blank line panics (`split_once`), and so
      does every failure of parsing, moving or reading the message. */
  function SolvePart1(input: string): (r: Result<string, Fault>)
    ensures r == Failure(NoBlankLine) <==> !Text.Occurs(input, "\n\n")
    ensures r.Success? ==> exists k :: Text.OccursAt(input, "\n\n", k)
  {
    match Text.Find(input, "\n\n")
    case None => Failure(NoBlankLine)
    case Some(k) =>
      var stacks :- Layout.ParseStacks(input[..k]);
      var final :- RunInstructions(stacks, Text.Lines(input[k + 2..]));
      StackEngine.GetMessage(final)
  }

  /** Moves written one per line, without a final line ending. */
  function MovesText(ms: seq<Move>): string
    requires |ms| > 0
  {
    Text.Joined(MoveLines(ms))
  }

  function MoveLines(ms: seq<Move>): (r: seq<string>)
    ensures |r| == |ms|
    ensures forall j :: 0 <= j < |ms| ==> r[j] == InstructionParser.MoveText(ms[j])
  {
    if |ms| == 0 then [] else [InstructionParser.MoveText(ms[0])] + MoveLines(ms[1..])
  }

  /** A written move is one line, ending with a digit. */
  lemma MoveTextIsALine(m: Move)
    ensures var t := InstructionParser.MoveText(m);
      |t| > 0 && '\n' !in t && Text.IsAsciiDigit(t[|t| - 1])
  {
    var d := Text.Decimal(m.to);
    var t := InstructionParser.MoveText(m);
    assert t == InstructionParser.PairText("move", m.qty) + " " + InstructionParser.PairText("from", m.from) + " " + "to " + d;
    assert t[|t| - 1] == d[|d| - 1];
    assert '\n' !in Text.Decimal(m.qty) && '\n' !in Text.Decimal(m.from) && '\n' !in d;
  }

  /** The lines of written moves are the moves' lines. */
  lemma LinesOfMoves(ms: seq<Move>)
    requires |ms| > 0
    ensures Text.Lines(MovesText(ms)) == MoveLines(ms)
  {
    MoveLinesAreLines(ms);
    Text.LinesOfJoined(MoveLines(ms));
  }

  lemma MoveLinesAreLines(ms: seq<Move>)
    ensures forall j :: 0 <= j < |ms| ==> Text.PlainLine(MoveLines(ms)[j])
  {
    forall j | 0 <= j < |ms| ensures Text.PlainLine(MoveLines(ms)[j]) {
      MoveTextIsALine(ms[j]);
    }
  }

  /** A puzzle written out from its rows, index line and moves solves to the
      message of the rows' stacks after those moves. */
  lemma SolveWritten(rows: seq<StacksParser.Row>, idx: string, ms: seq<Move>)
    requires |rows| > 0 && forall k :: 0 <= k < |rows| ==> StacksParser.ValidRow(rows[k])
    requires Layout.IndexLine(idx)
    requires |ms| > 0
    ensures SolvePart1(StacksParser.RowsText(rows) + idx + "\n\n" + MovesText(ms)) ==
      match Layout.StacksFromRows(rows, Text.CountDigits(idx))
      case Failure(e) => Failure(e)
      case Success(s) =>
        match RunInstructions(s, MoveLines(ms))
        case Failure(e) => Failure(e)
        case Success(final) => StackEngine.GetMessage(final)
  {
    var drawing := StacksParser.RowsText(rows) + idx;
    var input := drawing + "\n\n" + MovesText(ms);
    assert Text.Find(input, "\n\n") == Some(|drawing|) by {
      assert Text.NoBlankLine(idx);
      StacksParser.RowsTextHasNoBlankLine(rows, idx);
      Text.FindBlankLine(drawing, MovesText(ms));
    }
    assert input[..|drawing|] == drawing;
    assert input[|drawing| + 2..] == MovesText(ms);
    Layout.ParseDrawing(rows, idx);
    LinesOfMoves(ms);
  }

  /** A written move between two distinct existing columns moves min(qty, height)
      crates, as `enact` does, and the loop goes on with the next line. */
  lemma RunWrittenMove(s: Stacks, m: Move, rest: seq<string>)
    requires 1 <= m.from <= |s| && 1 <= m.to <= |s| && m.from != m.to
    ensures var k := if m.qty <= |s[m.from - 1]| then m.qty else |s[m.from - 1]|;
      RunInstructions(s, [InstructionParser.MoveText(m)] + rest) ==
      RunInstructions(StackEngine.Moved(s, m.from - 1, m.to - 1, k), rest)
  {
    var k := if m.qty <= |s[m.from - 1]| then m.qty else |s[m.from - 1]|;
    var e := StackEngine.Enacted(StackEngine.Moved(s, m.from - 1, m.to - 1, k), m.qty <= |s[m.from - 1]|);
    StackEngine.EnactBetween(m, s);
    InstructionParser.MoveRoundTrip(m);
    RunStep(s, InstructionParser.MoveText(m), m, [], e, rest);
  }

  /** One round of the instruction loop. */
  lemma RunStep(s: Stacks, line: string, m: Move, tail: string, e: StackEngine.Enacted, rest: seq<string>)
    requires InstructionParser.ParseInstruction(line) == Success((m, tail))
    requires StackEngine.Enact(m, s) == Success(e)
    ensures RunInstructions(s, [line] + rest) == RunInstructions(e.stacks, rest)
  {
    assert ([line] + rest)[0] == line && ([line] + rest)[1..] == rest;
  }
}
