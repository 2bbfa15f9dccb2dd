/** Generic sequence helpers shared by both puzzles. */
module Seqs {

  import opened Wrappers

  /** The elements of `s` in the opposite order. */
  function Reverse<T>(s: seq<T>): (r: seq<T>)
    ensures |r| == |s|
    ensures forall i :: 0 <= i < |s| ==> r[i] == s[|s| - 1 - i]
  {
    if |s| == 0 then [] else [s[|s| - 1]] + Reverse(s[..|s| - 1])
  }

  lemma {:induction false} ReverseReverse<T>(s: seq<T>)
    ensures Reverse(Reverse(s)) == s
  {
    var r := Reverse(s);
    assert forall i :: 0 <= i < |s| ==> Reverse(r)[i] == s[i];
  }

  /** `f` applied to every element of `s`, in order (Rust's `Iterator::map`). */
  function Map<T, U>(f: T -> U, s: seq<T>): (r: seq<U>)
    ensures |r| == |s| && forall i :: 0 <= i < |s| ==> r[i] == f(s[i])
  {
    seq(|s|, i requires 0 <= i < |s| => f(s[i]))
  }

  lemma MapAppend<T, U>(f: T -> U, a: seq<T>, b: seq<T>)
    ensures Map(f, a + b) == Map(f, a) + Map(f, b)
  {
    assert forall i :: 0 <= i < |a + b| ==> (a + b)[i] == if i < |a| then a[i] else b[i - |a|];
  }

  /** The elements of `s` for which `keep` holds, in their original order. */
  function Filter<T(!new)>(s: seq<T>, keep: T -> bool): (r: seq<T>)
    ensures |r| <= |s|
    ensures forall x :: x in r <==> x in s && keep(x)
    ensures |r| > 0 ==> exists k :: 0 <= k < |s| && FirstWith(s, keep, k) && r[0] == s[k]
  {
    if |s| == 0 then []
    else if keep(s[0]) then
      assert FirstWith(s, keep, 0);
      [s[0]] + Filter(s[1..], keep)
    else
      var rest := Filter(s[1..], keep);
      assert |rest| > 0 ==> exists k :: 0 <= k < |s| && FirstWith(s, keep, k) && rest[0] == s[k] by {
        if |rest| > 0 {
          var k :| 0 <= k < |s| - 1 && FirstWith(s[1..], keep, k) && rest[0] == s[1..][k];
          assert FirstWith(s, keep, k + 1);
        }
      }
      rest
  }

  /** An element added at the end is kept after the others exactly when it passes:
      `Filter` keeps the passing elements in order and with their multiplicity. */
  lemma {:induction false} FilterSnoc<T(!new)>(s: seq<T>, x: T, keep: T -> bool)
    ensures Filter(s + [x], keep) == Filter(s, keep) + (if keep(x) then [x] else [])
    decreases |s|
  {
    if |s| == 0 {
      assert s + [x] == [x];
      assert [x][1..] == [];
    } else {
      assert (s + [x])[0] == s[0];
      assert (s + [x])[1..] == s[1..] + [x];
      FilterSnoc(s[1..], x, keep);
    }
  }

  /** `k` is the first index of `s` whose element satisfies `keep`. */
  ghost predicate FirstWith<T>(s: seq<T>, keep: T -> bool, k: int)
  {
    0 <= k < |s| && keep(s[k]) && forall j :: 0 <= j < k ==> !keep(s[j])
  }

  /** The non-empty entries of `s`, in order (Rust's `Iterator::flatten` on options). */
  function Flatten<T(!new)>(s: seq<Option<T>>): (r: seq<T>)
    ensures |r| <= |s|
    ensures forall x :: x in r <==> Some(x) in s
    ensures |r| == 0 <==> forall i :: 0 <= i < |s| ==> s[i].None?
  {
    if |s| == 0 then []
    else
      var rest := Flatten(s[1..]);
      assert forall x :: Some(x) in s <==> s[0] == Some(x) || Some(x) in s[1..];
      match s[0]
      case None => rest
      case Some(x) => [x] + rest
  }

  /** An entry added at the end is flattened after the others. */
  lemma {:induction false} FlattenSnoc<T(!new)>(s: seq<Option<T>>, v: Option<T>)
    ensures Flatten(s + [v]) == Flatten(s) + (if v.Some? then [v.value] else [])
    decreases |s|
  {
    if |s| == 0 {
      assert s + [v] == [v];
    } else {
      assert (s + [v])[1..] == s[1..] + [v];
      FlattenSnoc(s[1..], v);
    }
  }
}
