# Crate stacks and rucksack priorities, modelled in Dafny

This project models two Advent-of-Code puzzle solutions written in Rust. It
proves properties of the models.

**Day 5, the crate-stack simulator.** The puzzle input is a drawing of crate
stacks, a blank line, and lines such as `move 3 from 1 to 2`.

- `StacksParser` models the nom grammar of the drawing. A row is a run of
  3-character slots separated by single spaces. Each slot is `[X]` for a crate
  labelled `X` or three spaces for no crate.
- `InstructionParser` models the grammar of one instruction line: three
  `keyword <whitespace> number` pairs separated by whitespace.
- `StackEngine` models the stacks:
  - `push_to_column` and `pop_from_column`;
  - `Move::enact`, which moves crates one at a time, so a multi-crate move
    reverses their order;
  - `get_message`, which reads the top crate of every stack.
- `Layout` models `transpose` and `Stacks::parse`, which turn drawn rows into
  stacks, bottom crate first.
- `Solver` models `solve_part_1`: split the input at the blank line, parse the
  stacks, apply each instruction line in order, and read the message.
- `Example` and `StacksParserExample` restate the source's unit tests and its
  example puzzle (answer `CMZ`) about the model.

**Day 3, rucksack priorities.** `Rucksacks` models:

- the score table `CHAR_SCORE_MAP` (`a`–`z` score 1–26, `A`–`Z` score 27–52);
- Part 1: score the first item of a rucksack's first half that also occurs in
  its second half;
- Part 2: score the first item of each group of three rucksacks that occurs in
  all three.

`RucksackExample` computes both parts of the example input: 157 and 70.

Shared modules:

- `Wrappers`: `Option` and `Result`.
- `Seqs`: reverse, map, filter, flatten.
- `Text`: `str::lines`, `str::find`, digit counting and decimal numerals.
  `lines` drops a carriage return only as part of a `\r\n` line ending; a
  carriage return at the very end of the text stays on the last line.
- `Crates`: the day-5 data model and its `Fault`s.

Every panic of the Rust code is a `Failure` value that names the panic: an
`unwrap` of a parse error, `unimplemented!`, `assert_eq!`, an index out of range,
or an arithmetic underflow. A parser's nom error is `None`.

### Behaviour worth noting

The model reproduces these behaviours of the code as they are.

- **A column that is blank in every row creates no stack.** `Stacks::parse`
  pushes nothing for it.
  - If a later column is not blank, its first push is a `Vec::insert` past the
    end, which panics.
  - `Layout.PushColumns` fails exactly when a blank column precedes a non-blank
    one.
- **Running out of crates is not fatal.** When the source stack empties,
  `enact` returns `None` and keeps the moves already made, and `solve_part_1`
  ignores the result.
  - `StackEngine.Enacted.complete` records that outcome.
  - `Solver.RunInstructions` carries on with the next line.
- **Only the first keyword of an instruction is inspected.**
  - Each of the other two may be any of `move`, `from` and `to`.
  - A first keyword of `from` or `to` reaches `unimplemented!()`, a panic, not a
    parse error.
  - Whitespace between the pieces may be any run of spaces and tabs, and numbers
    may have leading zeros.
  - Text after the third number is returned as the remainder and ignored.
- **A malformed drawing line ends the drawing.** `parse_lines` stops at the
  first line that does not start with a slot, and everything after it is
  ignored.
- **An empty stack at the end panics.** `get_message` calls `last().unwrap()`
  on every stack. The model reports `EmptyStack`.

## Model

| member | source | states |
|---|---|---|
| StacksParser.ParseCrate | day-5/src/stacks_parser.rs:16-19 | succeeds exactly on `[`, a letter, `]`; yields `Some(letter)` and the input after the three characters |
| StacksParser.ParseEmptyCrate | day-5/src/stacks_parser.rs:21-23 | succeeds exactly on three leading spaces; yields no crate and the input after them |
| StacksParser.ParseSlot | day-5/src/stacks_parser.rs:25-27 | succeeds exactly on a crate or three spaces; always consumes exactly 3 characters, and what it consumed is the slot's drawing |
| StacksParser.MoreSlots | day-5/src/stacks_parser.rs:32 | the further slots of a row are all valid slots, and never more input is left than given |
| StacksParser.MoreSlotsText | day-5/src/stacks_parser.rs:32 | what `many0` consumed is exactly the drawing of the slots it returned |
| StacksParser.MoreSlotsStops | day-5/src/stacks_parser.rs:32 | `many0` stops only where no space-plus-slot follows |
| StacksParser.ParseLine | day-5/src/stacks_parser.rs:30-38 | succeeds exactly when the input starts with a slot; returns a non-empty row of valid slots and consumes something |
| StacksParser.ParseLineText | day-5/src/stacks_parser.rs:30-38 | what `parse_line` consumed is its row's drawing, followed by at most one line ending |
| StacksParser.ParseLines | day-5/src/stacks_parser.rs:40-42 | needs at least one row; succeeds exactly when the first line parses; stops where no further row parses |
| StacksParser.MoreLines | day-5/src/stacks_parser.rs:41 | `many0(parse_line)` returns valid rows and stops where `parse_line` fails |
| StacksParser.RowTextLength | day-5/src/main.rs:112-119 | a row of n slots is drawn with 4n − 1 characters |
| StacksParser.SlotRoundTrip | day-5/src/stacks_parser.rs:16-27 | a drawn slot parses back to itself, whatever follows it |
| StacksParser.MoreSlotsRoundTrip | day-5/src/stacks_parser.rs:31-32 | the drawing of further slots parses back to them when the row does not go on after them |
| StacksParser.RowRoundTrip | day-5/src/stacks_parser.rs:30-38 | a drawn row plus a line ending parses back to the row and leaves exactly the next line |
| StacksParser.RowRoundTripAtEnd | day-5/src/stacks_parser.rs:30-38 | a drawn row with nothing after it parses back to the row with an empty remainder |
| StacksParser.MoreLinesRoundTrip | day-5/src/stacks_parser.rs:41 | drawn rows, each with a line ending, parse back to the rows under `many0` |
| StacksParser.LinesRoundTrip | day-5/src/stacks_parser.rs:40-42 | a drawing of one or more rows parses back to the rows and leaves the following non-row line |
| StacksParser.RowsTextHasNoDigit | day-5/src/main.rs:74-78 | a drawing holds no digit and ends with a line ending, so the index line is found where it starts |
| StacksParser.RowsTextHasNoBlankLine | day-5/src/main.rs:187 | a drawing followed by a non-blank line holds no blank line, so the layout/instruction split falls after it |
| StacksParser.RowTextChars | day-5/src/main.rs:112-119 | a drawn row uses only brackets, spaces and letters and starts with `[` or a space |
| StacksParser.IndexLineIsNotARow | day-5/src/stacks_parser.rs:25-42 | a line starting with a space and a digit (the column-number line) is rejected by `parse_line` and `parse_lines` |
| StacksParserExample.ValidCrate | day-5/src/stacks_parser.rs:93-96 | `[i]` is the crate `i` |
| StacksParserExample.InvalidCrates | day-5/src/stacks_parser.rs:98-114 | `[yy]`, `[[z]` and `[[h]]` are rejected |
| StacksParserExample.EmptyCrates | day-5/src/stacks_parser.rs:67-83 | three spaces are a blank slot, one space is rejected, eight spaces leave five |
| StacksParserExample.TwoCrates | day-5/src/stacks_parser.rs:85-91 | `[a] [b]` is the row `a`, `b`, left to right |
| StacksParserExample.LeftoverLine | day-5/src/stacks_parser.rs:59-65 | a row stops at its line ending and leaves the next line `[s]   ` |
| StacksParserExample.ValidLine | day-5/src/stacks_parser.rs:49-57 | a 35-character row is nine slots, the first `D`, the last blank |
| InstructionParser.ParseKeyword | day-5/src/instruction_parser.rs:40-42 | yields one of `move`, `from`, `to` that prefixes the input, and fails exactly when none does |
| InstructionParser.Space1 | day-5/src/instruction_parser.rs:17 | succeeds exactly on a leading space or tab, and consumes the whole run of them |
| InstructionParser.Digit1 | day-5/src/instruction_parser.rs:36 | succeeds exactly on a leading digit; consumes the whole run of digits and yields its decimal value |
| InstructionParser.ParsePair | day-5/src/instruction_parser.rs:32-38 | on success the consumed text is one of the three keywords, a run of spaces or tabs and a run of digits, the number is that digit run's value, and no digit follows it |
| InstructionParser.PairThenSpace | day-5/src/instruction_parser.rs:15-19 | on success the consumed text is a written pair followed by a whole run of spaces or tabs, and the number is the pair's digit-run value |
| InstructionParser.ThreePairs | day-5/src/instruction_parser.rs:15-21 | on success the input is three written pairs separated by whitespace runs, then the remainder; the first keyword and the three numbers are the ones written |
| InstructionParser.ParseInstruction | day-5/src/instruction_parser.rs:14-30 | success only for a line that is `move`, then a written pair, then two more written pairs with any keywords, then the remainder, and the move holds the three digit-run values; `Unimplemented` only for a line starting `from` or `to` that is otherwise written the same way; a line starting with no keyword is a parse error |
| InstructionParser.Space1OfBlank | day-5/src/instruction_parser.rs:17 | one space before a non-blank consumes exactly that space |
| InstructionParser.Digit1OfDecimal | day-5/src/instruction_parser.rs:36 | the decimal numeral of n, not followed by a digit, reads back as n |
| InstructionParser.KeywordOf | day-5/src/instruction_parser.rs:40-42 | each keyword is recognised at the front of any text |
| InstructionParser.PairRoundTrip | day-5/src/instruction_parser.rs:32-38 | `keyword n` reads back as the keyword and n, leaving what follows |
| InstructionParser.PairThenSpaceRoundTrip | day-5/src/instruction_parser.rs:15-19 | `keyword n ` reads back and leaves the text after the space |
| InstructionParser.ThreePairsOfText | day-5/src/instruction_parser.rs:15-21 | any three written pairs read back, whatever their keywords |
| InstructionParser.Space1OfRun | day-5/src/instruction_parser.rs:17 | `space1` consumes a whole run of spaces and tabs of any length |
| InstructionParser.Digit1OfRun | day-5/src/instruction_parser.rs:36 | `digit1` consumes a whole digit run, leading zeros included, and yields its value |
| InstructionParser.PairOfWritten | day-5/src/instruction_parser.rs:32-38 | any keyword, whitespace run and digit run read back as the keyword and the run's value |
| InstructionParser.SpacedOfWritten | day-5/src/instruction_parser.rs:15-19 | a written pair and the whitespace run after it are consumed together |
| InstructionParser.InstructionOfWritten | day-5/src/instruction_parser.rs:14-30 | the converse of `ParseInstruction`'s soundness: any three written pairs, with any whitespace runs and digit runs, parse to the runs' values when the first keyword is `move`, and reach `unimplemented!` otherwise |
| InstructionParser.InstructionRoundTrip | day-5/src/instruction_parser.rs:14-30 | three written pairs parse to the move when the first keyword is `move`, whatever the other two keywords are, and reach `unimplemented!` otherwise; the rest is returned |
| InstructionParser.MoveRoundTrip | day-5/src/instruction_parser.rs:14-30 | `move q from f to t` parses to `Move(q, f, t)` with nothing left, for all naturals |
| InstructionParser.DisplayedMoveIsRejected | day-5/src/main.rs:149-159 | the `Display` form of a move, with a capital `M`, is a parse error |
| InstructionParser.RejectsUnknownOperation | day-5/src/instruction_parser.rs:73-77 | `asd 1 from 2 to 1` is a parse error |
| InstructionParser.RejectsMissingWhitespace | day-5/src/instruction_parser.rs:33-37 | a keyword not followed by whitespace is a parse error |
| InstructionParser.RejectsFusedExample | day-5/src/instruction_parser.rs:79-83 | `move1from2to1` is a parse error |
| InstructionParser.RejectsLetterAfterNumber | day-5/src/instruction_parser.rs:15-21 | a number followed by anything but whitespace or more digits is a parse error |
| InstructionParser.RejectsDigitExample | day-5/src/instruction_parser.rs:85-89 | `move 13s33 from 2 to 1` is a parse error |
| InstructionParser.RejectsMisspeltSecondKeyword | day-5/src/instruction_parser.rs:15-21 | a second keyword not followed by whitespace is a parse error |
| InstructionParser.RejectsFrommExample | day-5/src/instruction_parser.rs:91-95 | `move 56 fromm 2 to 4` is a parse error |
| InstructionParser.FirstPairFails | day-5/src/instruction_parser.rs:15-21 | when the first pair and its whitespace do not parse, the line is a parse error |
| InstructionParser.SecondPairFails | day-5/src/instruction_parser.rs:15-21 | when the second pair does not parse, the line is a parse error |
| InstructionParser.AcceptsSingleDigits | day-5/src/instruction_parser.rs:49-59 | `move 1 from 2 to 1` is `Move(1, 2, 1)` |
| InstructionParser.AcceptsMultipleDigits | day-5/src/instruction_parser.rs:61-71 | `move 15 from 243 to 1344` is `Move(15, 243, 1344)` |
| InstructionParser.AcceptsTabsAndLeadingZeros | day-5/src/instruction_parser.rs:15-21 | `move\t07  from 2 to 3` is `Move(7, 2, 3)`: tabs, runs of spaces and leading zeros are admitted |
| StackEngine.PopFromColumn | day-5/src/main.rs:45-47 | yields the top crate of column c, or nothing when the column is empty; the column loses exactly that crate and every other column is unchanged |
| StackEngine.PushToColumn | day-5/src/main.rs:49-56 | puts the crate on top of column c; when c is the width a new one-crate stack is added; every other column is unchanged |
| StackEngine.PopAfterPush | day-5/src/main.rs:45-56 | popping the column just pushed to gives the crate back, and the old stacks (plus an empty stack when a new column was made) |
| StackEngine.PushAfterPop | day-5/src/main.rs:45-56 | pushing back the crate just popped restores the stacks |
| StackEngine.PushCounts | day-5/src/main.rs:49-56 | a push adds exactly one crate in all |
| StackEngine.PopCounts | day-5/src/main.rs:45-47 | a pop removes exactly one crate when the column has one, and none otherwise |
| StackEngine.GetMessage | day-5/src/main.rs:64-70 | succeeds exactly when no stack is empty; one character per stack, in column order, each its stack's top crate |
| StackEngine.Enact | day-5/src/main.rs:161-184 | keeps the number of crates, never removes a stack and adds at most one; fails only by underflow or a column out of range |
| StackEngine.MoveCrates | day-5/src/main.rs:168-171 | as `Enact`; a new stack appears only when the destination is one past the last column |
| StackEngine.MoveCratesBetween | day-5/src/main.rs:168-171 | between two distinct columns, min(qty, source height) crates move: the source loses its top ones, the destination gains them reversed, all else unchanged; complete exactly when the source held qty |
| StackEngine.EnactBetween | day-5/src/main.rs:161-184 | `enact` between two distinct existing columns is the move above |
| StackEngine.MovedNothing | day-5/src/main.rs:168 | moving zero crates changes nothing |
| StackEngine.OneMove | day-5/src/main.rs:169-170 | one round of the loop keeps the width and takes one crate off the source |
| StackEngine.MoveCratesOntoNewColumn | day-5/src/main.rs:168-171 | moving onto the column one past the last adds an empty stack and then moves as between two columns |
| StackEngine.MoveCratesFaults | day-5/src/main.rs:169-170 | a source column of 0 underflows and one past the width is out of range; once a crate is popped, a destination of 0 underflows and one beyond width + 1 is out of range |
| Layout.Transpose | day-5/src/main.rs:294-309 | as many columns as the first row has entries; column j holds entry j of every row, in row order |
| Layout.TransposeTwice | day-5/src/main.rs:294-309 | transposing a rectangular grid twice gives it back |
| Layout.Kept | day-5/src/main.rs:91-96 | a column's stack is empty exactly when the column is blank, and holds exactly the labels of the column's crates |
| Layout.KeptBelow | day-5/src/main.rs:91-96 | the column's lowest slot (drawn in the last row) becomes the bottom of the stack, and a blank slot adds nothing: the stack lists the column's crates bottom first |
| Layout.PushAll | day-5/src/main.rs:98-100 | pushing a column's crates onto stack c appends them all when c exists, adds them as a new stack when c is the width, and fails beyond |
| Layout.PushColumns | day-5/src/main.rs:89-101 | succeeds exactly when no non-blank column follows a blank one, otherwise fails with a column out of range; the stacks are the leading non-blank columns' crates |
| Layout.PushNonBlankColumns | day-5/src/main.rs:89-101 | without blank columns every column becomes a stack of its own, in order |
| Layout.PushLastColumn | day-5/src/main.rs:89-101 | the last round of the loop keeps the success condition and the stacks' relation to the columns |
| Layout.BlankLastColumn | day-5/src/main.rs:89-101 | a blank last column adds no stack and leaves no gap |
| Layout.GapBeforeLast | day-5/src/main.rs:49-56 | a non-blank column after a missing stack is a gap |
| Layout.LastOfFull | day-5/src/main.rs:89-101 | after a stack per earlier column, a non-blank column adds its own |
| Layout.StacksFromRows | day-5/src/main.rs:80-87 | ragged rows fail exactly in `transpose`; a column count other than the index line's digit count fails the `assert_eq!`; success gives the leading non-blank columns' stacks |
| Layout.ParseStacks | day-5/src/main.rs:72-104 | empty text fails exactly at `lines().last().unwrap()`; on success there are at most as many stacks as digits on the last line |
| Layout.IndexAt | day-5/src/main.rs:78 | the last line is cut out at its first occurrence, which always exists |
| Layout.ParseDrawing | day-5/src/main.rs:72-104 | a drawing of rows followed by its index line gives exactly the stacks built from those rows, checked against the index line's digit count |
| Layout.ParseStacksOf | day-5/src/main.rs:72-104 | when the text before the first occurrence of the last line parses to rows, the stacks are the ones built from those rows and the last line's digit count; whatever `parse_lines` left over is ignored |
| Layout.DrawingLastLine | day-5/src/main.rs:74 | the index line is the drawing's last line |
| Layout.DrawingIndexAt | day-5/src/main.rs:78 | the index line is cut out where the rows end |
| Layout.DrawingRows | day-5/src/main.rs:79 | the text before the index line parses back to the rows, with nothing left |
| Layout.IndexLineFound | day-5/src/main.rs:78 | in a digit-free drawing ending with a line ending, the first occurrence of the index line is where it starts |
| Solver.RunInstructions | day-5/src/main.rs:203-211 | the instruction loop keeps the number of crates, adds at most one stack per line, and fails only by a parse error, `unimplemented!`, underflow or a column out of range |
| Solver.RunInstructionsAppend | day-5/src/main.rs:203-211 | running two blocks of lines is running the first, then the second on its result |
| Solver.RunStep | day-5/src/main.rs:203-211 | one round of the loop parses the line, enacts it and goes on with the rest |
| Solver.RunWrittenMove | day-5/src/main.rs:203-211 | a written move between distinct existing columns moves min(qty, height) crates and the loop goes on |
| Solver.SolvePart1 | day-5/src/main.rs:186-214 | fails at `split_once` exactly when the input has no blank line |
| Solver.LinesOfMoves | day-5/src/main.rs:203 | the lines of written moves are the moves' own lines |
| Solver.SolveWritten | day-5/src/main.rs:186-214 | a puzzle written from rows, an index line and moves solves to the message of the rows' stacks after those moves |
| Example.ExampleRowsParsed | day-5/src/stacks_parser.rs:116-130 | `parse_lines` on the example input reads the three drawn rows and stops at the index line |
| Example.ExampleTranspose | day-5/src/main.rs:294-309 | the example rows transpose to their three columns |
| Example.ExampleParsed | day-5/src/main.rs:72-104 | the example drawing gives the stacks `ZN`, `MCD`, `P` |
| Example.ExampleRun | day-5/src/main.rs:203-211 | the four example moves leave `C`, `M`, `PDNZ` |
| Example.ExampleMessage | day-5/src/main.rs:64-70 | the final example stacks read `CMZ` |
| Example.ExampleIsWritten | day-5/src/main.rs:311-319 | the example input is the drawing of its rows, its index line, a blank line and its moves |
| Example.ExampleSolved | day-5/src/main.rs:286-290 | `solve_part_1` of the example input is `CMZ` |
| Text.Find | day-5/src/main.rs:187 | the first occurrence of a pattern, or none exactly when it does not occur |
| Text.StripCr | day-5/src/main.rs:203 | a line closed by `\r\n` loses at most one trailing carriage return |
| Text.Lines | day-5/src/main.rs:203 | no line holds a line ending, each occurs in the text, and only empty text has no lines; the carriage-return rule is pinned by `LinesOfLine`, `LinesOfCrLf` and `FinalCrKept` |
| Text.LinesOfJoined | day-5/src/main.rs:203 | `lines` undoes joining plain lines with line endings; the last line keeps a trailing carriage return |
| Text.LinesOfLine | day-5/src/main.rs:203 | text without a line ending is one line, kept whole, a trailing carriage return included |
| Text.LinesOfCrLf | day-5/src/main.rs:203 | a line closed by `\r\n` loses both characters |
| Text.FinalCrKept | day-5/src/main.rs:203 | `x\rx\r` is one line with both carriage returns |
| Text.LastOfLines | day-5/src/main.rs:74 | after text ending in a line ending, a final line without one is the last of the lines, unchanged |
| Text.FindBlankLine | day-5/src/main.rs:187 | in text with no blank line before a `\n\n`, `split_once` splits there |
| Text.CountDigits | day-5/src/main.rs:75 | at most the text's length, and zero exactly when the text has no digit |
| Text.CountDigitsSnoc | day-5/src/main.rs:75 | one more character adds one to the count exactly when it is a digit, so the count is the number of digits on the index line |
| Text.DigitsValueOfDecimal | day-5/src/instruction_parser.rs:36 | parsing the decimal numeral of n gives n |
| Seqs.Reverse | day-5/src/main.rs:96 | same length, entries in opposite order |
| Seqs.Flatten | day-5/src/main.rs:95 | keeps exactly the present values, and is empty exactly when every entry is absent |
| Seqs.FlattenSnoc | day-5/src/main.rs:95 | an entry added at the end contributes its value, after the others, exactly when present |
| Seqs.Filter | day-3/src/main.rs:32-41 | keeps exactly the entries that pass, and its first entry is the first that passes |
| Seqs.FilterSnoc | day-3/src/main.rs:32-41 | an element added at the end is kept, after the others, exactly when it passes: the filter keeps order and multiplicity |
| Seqs.MapAppend | day-3/src/main.rs:47 | mapping a concatenation is concatenating the maps |
| Rucksacks.IndexOf | day-3/src/main.rs:6-10 | the first position of a character, or none exactly when it is absent |
| Rucksacks.Priority | day-3/src/main.rs:5-11 | scores exactly the ASCII letters: `a`–`z` are 1–26, `A`–`Z` are 27–52 |
| Rucksacks.ItemTypesAt | day-3/src/main.rs:6-10 | the table's 52 keys are `a`–`z` then `A`–`Z`, and a character is a key exactly when it is a letter |
| Rucksacks.ItemOfPriority | day-3/src/main.rs:5-11 | every score from 1 to 52 belongs to a letter |
| Rucksacks.PriorityRoundTrip | day-3/src/main.rs:5-11 | a score's letter has that score, and is the only character that does |
| Rucksacks.ScoreAll | day-3/src/main.rs:32-42 | every item scored, in order, or the first unscored item panics |
| Rucksacks.CommonScores | day-3/src/main.rs:28-42 | the scores of the shared items in order; panics exactly when a shared item is not a letter |
| Rucksacks.FirstCommonScore | day-3/src/main.rs:28-45 | the score of the first shared item, 0 exactly when nothing is shared, at most 52 |
| Rucksacks.Compartments | day-3/src/main.rs:23 | the halves make up the rucksack, and for an odd length the first is the shorter |
| Rucksacks.RucksackScore | day-3/src/main.rs:24-46 | the score of the first item of the first half that occurs in the second half, 0 exactly when none does, at most 52; panics exactly when a shared item is not a letter |
| Rucksacks.BadgeScore | day-3/src/main.rs:54-77 | the score of the first item of the first rucksack that occurs in both others, 0 exactly when none does, at most 52; panics exactly when such an item is not a letter |
| Rucksacks.FirstSharedUnique | day-3/src/main.rs:45 | the first shared position is unique |
| Rucksacks.RucksackScoreOfFirstShared | day-3/src/main.rs:24-46 | given the first shared position, the rucksack scores that item's priority |
| Rucksacks.BadgeScoreOfFirstShared | day-3/src/main.rs:54-77 | given the first position shared by all three, the group scores that item's priority |
| Rucksacks.SumScores | day-3/src/main.rs:47 | succeeds exactly when every score does; at most 52 per score; otherwise the first panic |
| Rucksacks.SumScoresOf | day-3/src/main.rs:47 | when every score succeeds, the total is the sum of the scores |
| Rucksacks.SumScoresAppend | day-3/src/main.rs:47 | totals of two runs of scores add up |
| Rucksacks.SumRucksacks | day-3/src/main.rs:20-48 | succeeds exactly when every rucksack does, at most 52 per rucksack, and a failure is a rucksack's own panic |
| Rucksacks.SumRucksacksOfScores | day-3/src/main.rs:20-48 | when every rucksack scores, Part 1 is the sum of the scores |
| Rucksacks.SumRucksacksAppend | day-3/src/main.rs:20-48 | Part 1 of two runs of rucksacks is the sum of their Part 1 totals |
| Rucksacks.SolvePart1 | day-3/src/main.rs:20-48 | empty input scores 0, and the total is at most 52 per line |
| Rucksacks.Groups | day-3/src/main.rs:53 | consecutive, non-overlapping triples of lines, as many as whole triples fit |
| Rucksacks.GroupsDropTail | day-3/src/main.rs:53 | one or two trailing lines form no group |
| Rucksacks.SumGroups | day-3/src/main.rs:50-78 | succeeds exactly when every group does, at most 52 per group, and a failure is a group's own panic |
| Rucksacks.SumGroupsOfScores | day-3/src/main.rs:50-78 | when every group scores, Part 2 is the sum of the scores |
| Rucksacks.SolvePart2 | day-3/src/main.rs:50-78 | empty input scores 0, and the total is at most 52 per whole triple of lines |
| Example.BlankDrawingGivesEmptyMessage | day-5/src/main.rs:89-101 | a drawing whose only column is blank builds no stack, and the release-build answer is the empty message |
| RucksackExample.ExampleLines | day-3/src/main.rs:80-85 | the example input is six rucksack lines |
| RucksackExample.Score1 | day-3/src/main.rs:80 | the first rucksack shares `p`: 16 |
| RucksackExample.Score2 | day-3/src/main.rs:81 | the second rucksack shares `L`: 38 |
| RucksackExample.Score3 | day-3/src/main.rs:82 | the third rucksack shares `P`: 42 |
| RucksackExample.Score4 | day-3/src/main.rs:83 | the fourth rucksack shares `v`: 22 |
| RucksackExample.Score5 | day-3/src/main.rs:84 | the fifth rucksack shares `t`: 20 |
| RucksackExample.Score6 | day-3/src/main.rs:85 | the sixth rucksack shares `s`: 19 |
| RucksackExample.ExamplePart1 | day-3/src/main.rs:20-48 | Part 1 of the example is 157 |
| RucksackExample.Badge1 | day-3/src/main.rs:80-82 | the first group's badge is `r`: 18 |
| RucksackExample.Badge2 | day-3/src/main.rs:83-85 | the second group's badge is `Z`: 52 |
| RucksackExample.ExamplePart2 | day-3/src/main.rs:50-78 | Part 2 of the example is 70 |
| RucksackExample.SharedCarriageReturn | day-3/src/main.rs:20-48 | the input `x\rx\r` panics: its one line keeps the final carriage return, which both halves share and which has no score |

## Left out

- Animation, `thread::sleep`, clearing the screen and the `println!` debug output of `enact` and `solve_part_1`. The model follows a release build run with an animation duration of 0, where none of these runs.
  - In a debug build, or with animation on, `solve_part_1` and `enact` format the stacks with `Display`, which calls `height`. `height` is `max().unwrap()` over the stacks, so it panics when there are none.
  - That happens when every drawn column is blank, because `Stacks::parse` then builds no stack.
  - In that case the model returns the release build's empty message (`Example.BlankDrawingGivesEmptyMessage`), where a debug build panics.
- `main` in both programs. It only prints the answers for the embedded inputs.
- The embedded `ACTUAL_INPUT` puzzles and the `ZWHVFWQWW` assertion. They are large puzzle data. Only the example inputs are evaluated.
- Day-5 `solve_part_2`: its body is `todo!()`.
- The full `Display for Stacks<Crate>` frame, `height`, `index_column`, and `Display` for `Move` and `Crate`. These are diagnostic rendering. Only the slot and row cell format is kept, as the inverse of the drawing parser. The `Move` display text is used only to show that the parser rejects it.
- `Width`: `Stacks::width` is the number of stacks. It carries no contract of its own.
- Machine integers. Every `usize` is a natural number:
  - the `usize` overflow of `str::parse` on very long digit runs is not modelled (it would be a parse error);
  - `from - 1` and `to - 1` with a column number of 0 are the `Underflow` fault;
  - sums of scores cannot overflow.
- `transpose` on no rows. It asserts that there are rows, but `parse_lines` always yields at least one row, so `Layout.Transpose` takes a non-empty grid as its precondition.
- The result of `enact`. `solve_part_1` ignores it and the remainder after each parsed instruction. The model records both and the solver ignores both, as the code does.
- `char::is_alphabetic` in `single_char`, and the scoring of day 3. These are modelled for ASCII letters only. Rust's `is_alphabetic` also accepts non-ASCII letters, and `split_at` works on bytes, so a multi-byte character could panic at a character boundary. Input is treated as a sequence of characters.
- The internals of nom, itertools, lazy_static and `HashMap`. Only the behaviour used is modelled:
  - `tag`, `char`, `satisfy`, `space1` (one or more spaces or tabs) and `digit1`;
  - `alt`, `count`, `many0`, `many1`, `opt`, `tuple` and `separated_pair`;
  - `tuples` over lines;
  - a fixed score table.
- The drawing test with eight rows of nine columns (`test_parse_blob`). The round-trip lemmas cover it, but it is not restated as a concrete example.
- Solver.SolvePart1: the contract states only the `split_once` failure. The full meaning is given by `Solver.SolveWritten`, which is stated for inputs written from rows, an index line and moves.
- Layout.ParseStacks: the contract bounds the number of stacks. The full meaning is given by `Layout.ParseDrawing` and `Layout.StacksFromRows`, which are stated for drawings written from rows.
