/** The data model of the day-5 crate puzzle: crates, stacks of crates,
    move instructions, and the ways a run can abort. */
module Crates {

  /** A crate is its one-character label (Rust `Crate(char)`). */
  type Crate = char

  /** One stack, bottom crate first and top crate last. */
  type Stack = seq<Crate>

  /** The stacks in column order; column `c` (0-based) is `stacks[c]`. */
  type Stacks = seq<Stack>

  /** `move qty from from to to`; `from` and `to` are 1-based column numbers. */
  datatype Move = Move(qty: nat, from: nat, to: nat)

  /** The panics of the program, each at the place the Rust code panics. */
  datatype Fault =
    | ParseError        // `unwrap` of a nom error
    | Unimplemented     // `unimplemented!()` for a `from`/`to` operation keyword
    | NoBlankLine       // `split_once("\n\n").unwrap()` on input without a blank line
    | NoLines           // `lines().last().unwrap()` on empty layout text
    | RaggedRows        // `transpose` reaching past the end of a shorter row
    | CountMismatch     // `assert_eq!` of column count against the index line
    | Underflow         // `from - 1` or `to - 1` with a column number of 0
    | ColumnOutOfRange  // `index_mut` or `Vec::insert` past the last column
    | EmptyStack        // `last().unwrap()` on an empty stack in `get_message`

  /** Number of crates over all stacks. */
  function TotalCrates(s: Stacks): nat
  {
    if |s| == 0 then 0 else TotalCrates(s[..|s| - 1]) + |s[|s| - 1]|
  }

  /** Replacing one stack changes the total by the difference in that stack's height. */
  lemma {:induction false} TotalCratesUpdate(s: Stacks, c: nat, v: Stack)
    requires c < |s|
    ensures TotalCrates(s[c := v]) + |s[c]| == TotalCrates(s) + |v|
  {
    var t := s[c := v];
    if c < |s| - 1 {
      assert t[..|t| - 1] == s[..|s| - 1][c := v];
      TotalCratesUpdate(s[..|s| - 1], c, v);
    } else {
      assert t[..|t| - 1] == s[..|s| - 1];
    }
  }

  /** Adding a stack at the end adds its crates to the total. */
  lemma TotalCratesAppend(s: Stacks, v: Stack)
    ensures TotalCrates(s + [v]) == TotalCrates(s) + |v|
  {
    assert (s + [v])[..|s|] == s;
  }
}
