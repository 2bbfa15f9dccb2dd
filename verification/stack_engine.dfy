/** The stack engine of `day-5/src/main.rs`: `Stacks` with `push_to_column`,
    `pop_from_column` and `get_message`, and `Move::enact`, which moves crates one
    at a time from the top of one stack to the top of another. */
module StackEngine {

  import opened Wrappers
  import opened Crates
  import Seqs

  function Width(s: Stacks): nat
  {
    |s|
  }

  /** `pop_from_column`: take the top crate of column `c`, if it has one.
      Column `c` must exist (`index_mut` panics otherwise). */
  function PopFromColumn(s: Stacks, c: nat): (r: (Option<Crate>, Stacks))
    requires c < |s|
    ensures |r.1| == |s| && forall j :: 0 <= j < |s| && j != c ==> r.1[j] == s[j]
    ensures r.0.None? <==> |s[c]| == 0
    ensures r.0.None? ==> r.1 == s
    ensures r.0.Some? ==> r.1[c] + [r.0.value] == s[c]
  {
    if |s[c]| == 0 then (None, s)
    else
      var top := s[c][|s[c]| - 1];
      assert s[c][..|s[c]| - 1] + [top] == s[c];
      (Some(top), s[c := s[c][..|s[c]| - 1]])
  }

  /** `push_to_column`: put `x` on top of column `c`; when `c` is one past the last
      column, a new stack holding only `x` is added. `Vec::insert` panics further out. */
  function PushToColumn(s: Stacks, c: nat, x: Crate): (r: Stacks)
    requires c <= |s|
    ensures c < |s| ==> |r| == |s|
    ensures c == |s| ==> |r| == |s| + 1 && r[..|s|] == s
    ensures r[c] == (if c < |s| then s[c] else []) + [x]
    ensures forall j :: 0 <= j < |s| && j != c ==> r[j] == s[j]
  {
    if c < |s| then s[c := s[c] + [x]] else s + [[x]]
  }

  /** Pushing then popping the same column gives back the crate and the stacks
      (with the one new, now empty, column when the push added it). */
  lemma PopAfterPush(s: Stacks, c: nat, x: Crate)
    requires c <= |s|
    ensures c < |s| ==> PopFromColumn(PushToColumn(s, c, x), c) == (Some(x), s)
    ensures c == |s| ==> PopFromColumn(PushToColumn(s, c, x), c) == (Some(x), s + [[]])
  {
    var t := PushToColumn(s, c, x);
    var below := if c < |s| then s[c] else [];
    assert t[c][..|t[c]| - 1] == below;
    if c < |s| {
      assert t[c := below] == s;
    } else {
      assert t[c := below] == s + [[]];
    }
  }

  /** Popping then pushing the popped crate back gives back the stacks. */
  lemma PushAfterPop(s: Stacks, c: nat)
    requires c < |s| && |s[c]| > 0
    ensures PushToColumn(PopFromColumn(s, c).1, c, PopFromColumn(s, c).0.value) == s
  {
  }

  lemma PushCounts(s: Stacks, c: nat, x: Crate)
    requires c <= |s|
    ensures TotalCrates(PushToColumn(s, c, x)) == TotalCrates(s) + 1
  {
    if c < |s| {
      TotalCratesUpdate(s, c, s[c] + [x]);
    } else {
      TotalCratesAppend(s, [x]);
    }
  }

  lemma PopCounts(s: Stacks, c: nat)
    requires c < |s|
    ensures TotalCrates(PopFromColumn(s, c).1) + (if |s[c]| > 0 then 1 else 0) == TotalCrates(s)
  {
    if |s[c]| > 0 {
      TotalCratesUpdate(s, c, s[c][..|s[c]| - 1]);
    }
  }

  /** `get_message`: the top crate of every stack, in column order; an empty stack
      makes `last().unwrap()` panic. */
  function GetMessage(s: Stacks): (r: Result<string, Fault>)
    ensures r.Success? <==> forall j :: 0 <= j < |s| ==> |s[j]| > 0
    ensures r.Success? ==> |r.value| == |s|
    ensures r.Success? ==> forall j :: 0 <= j < |s| ==> r.value[j] == s[j][|s[j]| - 1]
    ensures r.Failure? ==> r.error == EmptyStack
  {
    if |s| == 0 then Success([])
    else if |s[0]| == 0 then Failure(EmptyStack)
    else
      var rest :- GetMessage(s[1..]);
      Success([s[0][|s[0]| - 1]] + rest)
  }

  /** The state after `enact`: the stacks, and whether all `qty` single moves were
      made (`Some(())`) or the source ran empty first (`None` from the `?`). */
  datatype Enacted = Enacted(stacks: Stacks, complete: bool)

  /** `Move::enact`. */
  function Enact(m: Move, s: Stacks): (r: Result<Enacted, Fault>)
    ensures r.Success? ==> TotalCrates(r.value.stacks) == TotalCrates(s)
    ensures r.Success? ==> |s| <= |r.value.stacks| <= |s| + 1
    ensures r.Failure? ==> r.error in {Underflow, ColumnOutOfRange}
  {
    MoveCrates(s, m.qty, m.from, m.to)
  }

  /** `n` rounds of the `enact` loop: pop from column `from - 1`, push onto column
      `to - 1`. Each round evaluates `from - 1` before the pop and `to - 1` after it. */
  function MoveCrates(s: Stacks, n: nat, from: nat, to: nat): (r: Result<Enacted, Fault>)
    ensures r.Success? ==> TotalCrates(r.value.stacks) == TotalCrates(s)
    ensures r.Success? ==> |s| <= |r.value.stacks| <= |s| + 1
    ensures r.Success? && |r.value.stacks| == |s| + 1 ==> to == |s| + 1
    ensures r.Failure? ==> r.error in {Underflow, ColumnOutOfRange}
    decreases n
  {
    if n == 0 then Success(Enacted(s, true))
    else if from == 0 then Failure(Underflow)
    else if from - 1 >= |s| then Failure(ColumnOutOfRange)
    else
      var (popped, s1) := PopFromColumn(s, from - 1);
      match popped
      case None => Success(Enacted(s, false))
      case Some(x) =>
        if to == 0 then Failure(Underflow)
        else if to - 1 > |s1| then Failure(ColumnOutOfRange)
        else
          var s2 := PushToColumn(s1, to - 1, x);
          PopCounts(s, from - 1);
          PushCounts(s1, to - 1, x);
          MoveCrates(s2, n - 1, from, to)
  }

  /** The stacks after moving the top `k` crates of column `f` onto column `t`,
      one at a time: the source keeps its bottom part, and the destination gains
      the moved crates in reverse order. */
  function Moved(s: Stacks, f: nat, t: nat, k: nat): Stacks
    requires f < |s| && t < |s| && k <= |s[f]|
  {
    var src := s[f];
    s[f := src[..|src| - k]][t := s[t] + Seqs.Reverse(src[|src| - k..])]
  }

  /** Between two distinct existing columns, `enact` moves min(qty, height of the
      source) crates: the source loses exactly its top ones, the destination gains
      them reversed (the crate on top of the source is now buried deepest), every
      other stack is unchanged, and the result is `Some(())` exactly when the source
      held at least `qty` crates. */
  lemma {:induction false} MoveCratesBetween(s: Stacks, n: nat, from: nat, to: nat)
    requires 1 <= from <= |s| && 1 <= to <= |s| && from != to
    ensures var k := if n <= |s[from - 1]| then n else |s[from - 1]|;
      MoveCrates(s, n, from, to) == Success(Enacted(Moved(s, from - 1, to - 1, k), n <= |s[from - 1]|))
    decreases n
  {
    var f, t := from - 1, to - 1;
    var src := s[f];
    if n == 0 || |src| == 0 {
      MovedNothing(s, f, t);
    } else {
      var k := if n <= |src| then n else |src|;
      var s2 := OneMove(s, f, t);
      assert MoveCrates(s, n, from, to) == MoveCrates(s2, n - 1, from, to) by {
        MoveCratesUnfold(s, n, from, to);
      }
      assert MoveCrates(s2, n - 1, from, to) == Success(Enacted(Moved(s2, f, t, k - 1), n <= |src|)) by {
        MoveCratesBetween(s2, n - 1, from, to);
      }
      assert Moved(s2, f, t, k - 1) == Moved(s, f, t, k) by {
        MovedAfterOneMove(s, f, t, k);
      }
    }
  }

  /** `MoveCratesBetween` for one `Move`. */
  lemma EnactBetween(m: Move, s: Stacks)
    requires 1 <= m.from <= |s| && 1 <= m.to <= |s| && m.from != m.to
    ensures Enact(m, s) == Success(Enacted(Moved(s, m.from - 1, m.to - 1, if m.qty <= |s[m.from - 1]| then m.qty else |s[m.from - 1]|), m.qty <= |s[m.from - 1]|))
  {
    MoveCratesBetween(s, m.qty, m.from, m.to);
  }

  lemma MovedNothing(s: Stacks, f: nat, t: nat)
    requires f < |s| && t < |s|
    ensures Moved(s, f, t, 0) == s
  {
    var src := s[f];
    assert src[..|src|] == src;
    assert Seqs.Reverse(src[|src|..]) == [];
    assert s[t] + [] == s[t];
  }

  /** One round of the loop between existing columns, with a crate to move. */
  function OneMove(s: Stacks, f: nat, t: nat): (r: Stacks)
    requires f < |s| && t < |s| && f != t && |s[f]| > 0
    ensures |r| == |s| && |r[f]| + 1 == |s[f]|
  {
    var src := s[f];
    s[f := src[..|src| - 1]][t := s[t] + [src[|src| - 1]]]
  }

  lemma MoveCratesUnfold(s: Stacks, n: nat, from: nat, to: nat)
    requires 1 <= from <= |s| && 1 <= to <= |s| && from != to
    requires n > 0 && |s[from - 1]| > 0
    ensures MoveCrates(s, n, from, to) == MoveCrates(OneMove(s, from - 1, to - 1), n - 1, from, to)
  {
  }

  lemma MovedAfterOneMove(s: Stacks, f: nat, t: nat, k: nat)
    requires f < |s| && t < |s| && f != t && 1 <= k <= |s[f]|
    ensures var s2 := OneMove(s, f, t);
      k - 1 <= |s2[f]| && Moved(s2, f, t, k - 1) == Moved(s, f, t, k)
  {
    var src := s[f];
    var x := src[|src| - 1];
    var s2 := OneMove(s, f, t);
    var src2 := src[..|src| - 1];
    assert s2[f] == src2 && s2[t] == s[t] + [x];
    assert src2[..|src2| - (k - 1)] == src[..|src| - k];
    assert src2[|src2| - (k - 1)..] == src[|src| - k..|src| - 1];
    assert Seqs.Reverse(src[|src| - k..]) == [x] + Seqs.Reverse(src[|src| - k..|src| - 1]) by {
      assert src[|src| - k..][..k - 1] == src[|src| - k..|src| - 1];
    }
    var a := Moved(s2, f, t, k - 1);
    var b := Moved(s, f, t, k);
    assert |a| == |b|;
    forall j | 0 <= j < |a| ensures a[j] == b[j] {
      if j == t {
        assert a[j] == s[t] + [x] + Seqs.Reverse(src[|src| - k..|src| - 1]);
      }
    }
  }

  /** `enact` onto the column one past the last: the first crate moved creates that
      column, and the rest follow it as onto any other column. */
  lemma MoveCratesOntoNewColumn(s: Stacks, n: nat, from: nat)
    requires 1 <= from <= |s| && n >= 1 && |s[from - 1]| >= 1
    ensures var k := if n <= |s[from - 1]| then n else |s[from - 1]|;
      MoveCrates(s, n, from, |s| + 1) == Success(Enacted(Moved(s + [[]], from - 1, |s|, k), n <= |s[from - 1]|))
  {
    var grown := s + [[]];
    var f := from - 1;
    var k := if n <= |s[f]| then n else |s[f]|;
    MoveOntoGrown(s, n, from);
    assert MoveCrates(grown, n, from, |s| + 1) == Success(Enacted(Moved(grown, f, |s|, k), n <= |s[f]|)) by {
      assert grown[f] == s[f];
      MoveCratesBetween(grown, n, from, |s| + 1);
    }
  }

  /** Moving onto the column one past the last is moving onto an empty column
      added beforehand. */
  lemma MoveOntoGrown(s: Stacks, n: nat, from: nat)
    requires 1 <= from <= |s| && n >= 1 && |s[from - 1]| >= 1
    ensures MoveCrates(s, n, from, |s| + 1) == MoveCrates(s + [[]], n, from, |s| + 1)
  {
    assert (s + [[]])[from - 1] == s[from - 1];
    MoveCratesUnfoldNew(s, n, from);
    MoveCratesUnfold(s + [[]], n, from, |s| + 1);
  }

  lemma MoveCratesUnfoldNew(s: Stacks, n: nat, from: nat)
    requires 1 <= from <= |s| && n >= 1 && |s[from - 1]| >= 1
    ensures MoveCrates(s, n, from, |s| + 1) == MoveCrates(OneMove(s + [[]], from - 1, |s|), n - 1, from, |s| + 1)
  {
    var src := s[from - 1];
    var x := src[|src| - 1];
    var popped := s[from - 1 := src[..|src| - 1]];
    var a := OneMove(s + [[]], from - 1, |s|);
    var b := popped + [[x]];
    assert |a| == |b|;
    forall j | 0 <= j < |a| ensures a[j] == b[j] {
      if j == |s| {
        assert a[j] == [] + [x];
      }
    }
    assert a == b;
    assert PopFromColumn(s, from - 1) == (Some(x), popped);
    assert PushToColumn(popped, |s|, x) == b;
  }

  /** The panics of `enact`: a column number of 0 underflows, and a source column
      past the last, or a destination more than one past it, is out of range. */
  lemma MoveCratesFaults(s: Stacks, n: nat, from: nat, to: nat)
    requires n >= 1
    ensures from == 0 ==> MoveCrates(s, n, from, to) == Failure(Underflow)
    ensures from > |s| ==> MoveCrates(s, n, from, to) == Failure(ColumnOutOfRange)
    ensures 1 <= from <= |s| && |s[from - 1]| > 0 && to == 0 ==> MoveCrates(s, n, from, to) == Failure(Underflow)
    ensures 1 <= from <= |s| && |s[from - 1]| > 0 && to > |s| + 1 ==> MoveCrates(s, n, from, to) == Failure(ColumnOutOfRange)
  {
  }
}
