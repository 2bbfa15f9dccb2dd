/** Day 3 (day-3/src/main.rs): item types are scored by the `CHAR_SCORE_MAP`
    table; Part 1 scores the first item of each rucksack's first compartment that
    also sits in its second, Part 2 the first item of each group's first rucksack
    that also sits in the other two. Both answers are sums. */
module Rucksacks {
  import opened Wrappers
  import Seqs
  import Text

  /** A lookup of an item type the score table lacks panics (`HashMap::index`). */
  datatype Fault = UnscoredItem(item: char)

  /** `'a'..='z'` and `'A'..='Z'`, each range in character order. */
  function CharRange(first: char, n: nat): (r: seq<char>)
    requires first as int + n <= 0xD800
  {
    seq(n, i requires 0 <= i < n => (first as int + i) as char)
  }

  /** The table's keys in the order they are enumerated: lower case, then upper case. */
  const ItemTypes: seq<char> := CharRange('a', 26) + CharRange('A', 26)

  /** The first position of `c` in `s`. */
  function IndexOf(s: seq<char>, c: char): (r: Option<nat>)
    ensures r.None? <==> c !in s
    ensures r.Some? ==> r.value < |s| && s[r.value] == c && c !in s[..r.value]
  {
    if |s| == 0 then None
    else if s[0] == c then Some(0)
    else
      match IndexOf(s[1..], c)
      case None => None
      case Some(i) =>
        assert s[..i + 1] == [s[0]] + s[1..][..i];
        Some(i + 1)
  }

  /** `CHAR_SCORE_MAP`: an item type's score is its enumeration index plus one, so
      lower-case letters score 1 to 26 and upper-case letters 27 to 52; every other
      character is missing from the table. */
  function Priority(c: char): (r: Option<nat>)
    ensures r.Some? <==> Text.IsAsciiLetter(c)
    ensures 'a' <= c <= 'z' ==> r == Some(c as int - 'a' as int + 1)
    ensures 'A' <= c <= 'Z' ==> r == Some(c as int - 'A' as int + 27)
  {
    ItemTypesAt(c);
    match IndexOf(ItemTypes, c)
    case None => None
    case Some(i) => Some(i + 1)
  }

  /** Where a character sits among the table's keys, if at all. */
  lemma ItemTypesAt(c: char)
    ensures |ItemTypes| == 52
    ensures forall i :: 0 <= i < 26 ==> ItemTypes[i] as int == 'a' as int + i
    ensures forall i :: 26 <= i < 52 ==> ItemTypes[i] as int == 'A' as int + i - 26
    ensures c in ItemTypes <==> Text.IsAsciiLetter(c)
  {
    if 'a' <= c <= 'z' {
      assert ItemTypes[c as int - 'a' as int] == c;
    } else if 'A' <= c <= 'Z' {
      assert ItemTypes[26 + c as int - 'A' as int] == c;
    }
  }

  /** The item type a score belongs to: the inverse of the table. */
  function ItemOfPriority(p: nat): (c: char)
    requires 1 <= p <= 52
    ensures Text.IsAsciiLetter(c)
  {
    ItemTypesAt('a');
    ItemTypes[p - 1]
  }

  /** Every score from 1 to 52 belongs to exactly one item type. */
  lemma PriorityRoundTrip(p: nat, c: char)
    requires 1 <= p <= 52
    ensures Priority(ItemOfPriority(p)) == Some(p)
    ensures Priority(c) == Some(p) <==> c == ItemOfPriority(p)
  {
    ItemTypesAt(c);
  }

  /** `i` is the first position of `xs` whose item has no score. */
  ghost predicate FirstUnscored(xs: string, i: int) {
    0 <= i < |xs| && !Text.IsAsciiLetter(xs[i]) && forall j :: 0 <= j < i ==> Text.IsAsciiLetter(xs[j])
  }

  /** The scores of `xs`, in order (`filter_map` collected into a vector); the
      first item without a score panics. */
  function ScoreAll(xs: string): (r: Result<seq<nat>, Fault>)
    ensures r.Success? <==> forall i :: 0 <= i < |xs| ==> Text.IsAsciiLetter(xs[i])
    ensures r.Success? ==> |r.value| == |xs| && forall j :: 0 <= j < |xs| ==> Priority(xs[j]) == Some(r.value[j])
    ensures r.Failure? ==> exists i :: FirstUnscored(xs, i) && r.error == UnscoredItem(xs[i])
    decreases |xs|
  {
    if |xs| == 0 then Success([])
    else
      match Priority(xs[0])
      case None => Failure(UnscoredItem(xs[0]))
      case Some(p) =>
        var rest := ScoreAll(xs[1..]);
        assert rest.Failure? ==> exists i :: FirstUnscored(xs, i) && rest.error == UnscoredItem(xs[i]) by {
          if rest.Failure? {
            var i :| FirstUnscored(xs[1..], i) && rest.error == UnscoredItem(xs[1..][i]);
            assert FirstUnscored(xs, i + 1) by {
              forall j | 0 <= j < i + 1 ensures Text.IsAsciiLetter(xs[j]) {
                if j > 0 {
                  assert xs[j] == xs[1..][j - 1];
                }
              }
            }
          }
        }
        var tail :- rest;
        Success([p] + tail)
  }

  /** The scores of the items of `items` that `common` admits, in order. */
  function CommonScores(items: string, common: char -> bool): (r: Result<seq<nat>, Fault>)
    ensures r.Success? <==> forall i :: 0 <= i < |items| && common(items[i]) ==> Text.IsAsciiLetter(items[i])
    ensures r.Failure? ==> r.error.item in items && common(r.error.item) && !Text.IsAsciiLetter(r.error.item)
    ensures r.Success? ==> var kept := Seqs.Filter(items, common);
      |r.value| == |kept| && forall j :: 0 <= j < |kept| ==> Priority(kept[j]) == Some(r.value[j])
  {
    var kept := Seqs.Filter(items, common);
    var r := ScoreAll(kept);
    assert (forall i :: 0 <= i < |kept| ==> Text.IsAsciiLetter(kept[i])) <==>
      forall i :: 0 <= i < |items| && common(items[i]) ==> Text.IsAsciiLetter(items[i]) by {
      assert forall i :: 0 <= i < |kept| ==> kept[i] in kept;
      assert forall i :: 0 <= i < |items| && common(items[i]) ==> items[i] in kept;
    }
    assert r.Failure? ==> r.error.item in kept;
    r
  }

  /** The first score of `CommonScores`, or 0 when nothing is in common
      (`first().cloned()` inside `filter_map`, which then sums a missing score as
      nothing). Only the first common item counts, so at most 52. */
  function FirstCommonScore(items: string, common: char -> bool): (r: Result<nat, Fault>)
    ensures r.Success? <==> forall i :: 0 <= i < |items| && common(items[i]) ==> Text.IsAsciiLetter(items[i])
    ensures r.Success? ==> r.value <= 52
    ensures r.Success? ==> (r.value == 0 <==> forall i :: 0 <= i < |items| ==> !common(items[i]))
    ensures r.Success? && r.value > 0 ==>
      exists k :: Seqs.FirstWith(items, common, k) && Priority(items[k]) == Some(r.value)
  {
    var scores :- CommonScores(items, common);
    var kept := Seqs.Filter(items, common);
    assert |kept| == 0 <==> forall i :: 0 <= i < |items| ==> !common(items[i]) by {
      if |kept| > 0 {
        assert kept[0] in kept;
      } else {
        assert forall i :: 0 <= i < |items| ==> items[i] !in kept;
      }
    }
    if |scores| == 0 then Success(0) else Success(scores[0])
  }

  /** `split_at(len / 2)`: for an odd length the first compartment is the shorter. */
  function Compartments(rucksack: string): (r: (string, string))
    ensures r.0 + r.1 == rucksack
    ensures |r.0| == |rucksack| / 2 && |r.1| - |r.0| == |rucksack| % 2
  {
    (rucksack[..|rucksack| / 2], rucksack[|rucksack| / 2..])
  }

  /** One rucksack of Part 1: the first item of the first compartment that also
      occurs anywhere in the second. */
  function RucksackScore(rucksack: string): (r: Result<nat, Fault>)
    ensures var (left, right) := Compartments(rucksack);
      && (r.Success? <==> forall c :: c in left && c in right ==> Text.IsAsciiLetter(c))
      && (r.Success? ==> r.value <= 52)
      && (r.Success? ==> (r.value == 0 <==> forall c :: c in left ==> c !in right))
      && (r.Success? && r.value > 0 ==> exists k :: FirstShared(left, right, right, k) && Priority(left[k]) == Some(r.value))
  {
    var (left, right) := Compartments(rucksack);
    var r := FirstCommonScore(left, x => x in right);
    assert r.Success? && r.value > 0 ==> exists k :: FirstShared(left, right, right, k) && Priority(left[k]) == Some(r.value) by {
      if r.Success? && r.value > 0 {
        var k :| Seqs.FirstWith(left, x => x in right, k) && Priority(left[k]) == Some(r.value);
        assert FirstShared(left, right, right, k);
      }
    }
    r
  }

  /** `k` is the first position of `a` whose item also occurs in both `b` and `c`. */
  ghost predicate FirstShared(a: string, b: string, c: string, k: int) {
    && 0 <= k < |a| && a[k] in b && a[k] in c
    && forall j :: 0 <= j < k ==> !(a[j] in b && a[j] in c)
  }

  /** One group of Part 2: the first item of the first rucksack that also occurs in
      both the second and the third. */
  function BadgeScore(a: string, b: string, c: string): (r: Result<nat, Fault>)
    ensures r.Success? <==> forall x :: x in a && x in b && x in c ==> Text.IsAsciiLetter(x)
    ensures r.Success? ==> r.value <= 52
    ensures r.Success? ==> (r.value == 0 <==> forall x :: x in a ==> !(x in b && x in c))
    ensures r.Success? && r.value > 0 ==> exists k :: FirstShared(a, b, c, k) && Priority(a[k]) == Some(r.value)
  {
    var r := FirstCommonScore(a, x => x in b && x in c);
    assert r.Success? && r.value > 0 ==> exists k :: FirstShared(a, b, c, k) && Priority(a[k]) == Some(r.value) by {
      if r.Success? && r.value > 0 {
        var k :| Seqs.FirstWith(a, x => x in b && x in c, k) && Priority(a[k]) == Some(r.value);
        assert FirstShared(a, b, c, k);
      }
    }
    r
  }

  /** There is at most one first shared position. */
  lemma FirstSharedUnique(a: string, b: string, c: string, k: int, k': int)
    requires FirstShared(a, b, c, k) && FirstShared(a, b, c, k')
    ensures k == k'
  {
  }

  /** A rucksack whose compartments share only letters scores its first shared
      item. */
  lemma RucksackScoreOfFirstShared(rucksack: string, k: nat)
    requires var (left, right) := Compartments(rucksack);
      FirstShared(left, right, right, k) && forall c :: c in left && c in right ==> Text.IsAsciiLetter(c)
    ensures var left := Compartments(rucksack).0;
      Text.IsAsciiLetter(left[k]) && RucksackScore(rucksack) == Success(Priority(left[k]).value)
  {
    var (left, right) := Compartments(rucksack);
    assert left[k] in left;
    var r := RucksackScore(rucksack);
    assert r.value != 0;
    var k' :| FirstShared(left, right, right, k') && Priority(left[k']) == Some(r.value);
    FirstSharedUnique(left, right, right, k, k');
  }

  /** A group whose rucksacks share only letters scores the first item of the first
      rucksack that the other two also hold. */
  lemma BadgeScoreOfFirstShared(a: string, b: string, c: string, k: nat)
    requires FirstShared(a, b, c, k) && forall x :: x in a && x in b && x in c ==> Text.IsAsciiLetter(x)
    ensures Text.IsAsciiLetter(a[k]) && BadgeScore(a, b, c) == Success(Priority(a[k]).value)
  {
    assert a[k] in a;
    var r := BadgeScore(a, b, c);
    assert r.value != 0;
    var k' :| FirstShared(a, b, c, k') && Priority(a[k']) == Some(r.value);
    FirstSharedUnique(a, b, c, k, k');
  }

  /** `j` is the first failed score. */
  ghost predicate FirstFailed(results: seq<Result<nat, Fault>>, j: int) {
    && 0 <= j < |results| && results[j].Failure?
    && forall i :: 0 <= i < j ==> results[i].Success?
  }

  /** The `sum` that ends each part: scores are added in order and the first
      one that panicked ends the run with its panic. */
  function SumScores(results: seq<Result<nat, Fault>>): (r: Result<nat, Fault>)
    ensures r.Success? <==> forall j :: 0 <= j < |results| ==> results[j].Success?
    ensures r.Success? && (forall j :: 0 <= j < |results| ==> results[j].value <= 52) ==>
      r.value <= 52 * |results|
    ensures r.Failure? ==> exists j :: FirstFailed(results, j) && r == results[j]
    decreases |results|
  {
    if |results| == 0 then Success(0)
    else
      var first :- results[0];
      var rest := SumScores(results[1..]);
      assert rest.Failure? ==> exists j :: FirstFailed(results, j) && rest == results[j] by {
        if rest.Failure? {
          var j :| FirstFailed(results[1..], j) && rest == results[1..][j];
          assert FirstFailed(results, j + 1);
        }
      }
      var more :- rest;
      Success(first + more)
  }

  /** The sum of a sequence of scores. */
  function Sum(xs: seq<nat>): nat
  {
    if |xs| == 0 then 0 else xs[0] + Sum(xs[1..])
  }

  /** When every score is a value, the run's sum is the sum of those values. */
  lemma {:induction false} SumScoresOf(results: seq<Result<nat, Fault>>, scores: seq<nat>)
    requires |scores| == |results|
    requires forall j :: 0 <= j < |results| ==> results[j] == Success(scores[j])
    ensures SumScores(results) == Success(Sum(scores))
    decreases |results|
  {
    if |results| > 0 {
      SumScoresOf(results[1..], scores[1..]);
    }
  }

  /** Summing two runs of scores adds their sums, and fails exactly when one of
      them does. */
  lemma {:induction false} SumScoresAppend(a: seq<Result<nat, Fault>>, b: seq<Result<nat, Fault>>)
    ensures SumScores(a + b).Success? <==> SumScores(a).Success? && SumScores(b).Success?
    ensures SumScores(a + b).Success? ==> SumScores(a + b).value == SumScores(a).value + SumScores(b).value
    decreases |a|
  {
    if |a| == 0 {
      assert a + b == b;
    } else {
      assert (a + b)[0] == a[0] && (a + b)[1..] == a[1..] + b;
      SumScoresAppend(a[1..], b);
    }
  }

  /** The sum over all rucksacks; the first rucksack that panics ends the run. */
  function SumRucksacks(rucksacks: seq<string>): (r: Result<nat, Fault>)
    ensures r.Success? <==> forall j :: 0 <= j < |rucksacks| ==> RucksackScore(rucksacks[j]).Success?
    ensures r.Success? ==> r.value <= 52 * |rucksacks|
    ensures r.Failure? ==> exists j :: 0 <= j < |rucksacks| && r == RucksackScore(rucksacks[j])
  {
    SumScores(Seqs.Map(RucksackScore, rucksacks))
  }

  /** When every rucksack scores, the sum is the sum of their scores. */
  lemma SumRucksacksOfScores(rucksacks: seq<string>, scores: seq<nat>)
    requires |scores| == |rucksacks|
    requires forall j :: 0 <= j < |rucksacks| ==> RucksackScore(rucksacks[j]) == Success(scores[j])
    ensures SumRucksacks(rucksacks) == Success(Sum(scores))
  {
    SumScoresOf(Seqs.Map(RucksackScore, rucksacks), scores);
  }

  /** `solve_part_1`. */
  function SolvePart1(input: string): (r: Result<nat, Fault>)
    ensures |input| == 0 ==> r == Success(0)
    ensures r.Success? ==> r.value <= 52 * |Text.Lines(input)|
  {
    SumRucksacks(Text.Lines(input))
  }

  /** Summing two runs of rucksacks adds their sums, and fails exactly when one
      of them does. */
  lemma SumRucksacksAppend(a: seq<string>, b: seq<string>)
    ensures SumRucksacks(a + b).Success? <==> SumRucksacks(a).Success? && SumRucksacks(b).Success?
    ensures SumRucksacks(a + b).Success? ==>
      SumRucksacks(a + b).value == SumRucksacks(a).value + SumRucksacks(b).value
  {
    Seqs.MapAppend(RucksackScore, a, b);
    SumScoresAppend(Seqs.Map(RucksackScore, a), Seqs.Map(RucksackScore, b));
  }

  /** `tuples::<(_, _, _)>()`: consecutive, non-overlapping triples; one or two
      lines left over at the end form no group. */
  function Groups(lines: seq<string>): (r: seq<(string, string, string)>)
    ensures |r| == |lines| / 3
    ensures forall g :: 0 <= g < |r| ==> r[g] == (lines[3 * g], lines[3 * g + 1], lines[3 * g + 2])
    decreases |lines|
  {
    if |lines| < 3 then []
    else
      var rest := Groups(lines[3..]);
      assert forall g :: 0 <= g < |rest| ==>
        rest[g] == (lines[3 * (g + 1)], lines[3 * (g + 1) + 1], lines[3 * (g + 1) + 2]);
      [(lines[0], lines[1], lines[2])] + rest
  }

  /** The badge score of one group. */
  function GroupScore(group: (string, string, string)): Result<nat, Fault>
  {
    BadgeScore(group.0, group.1, group.2)
  }

  /** The sum over all groups; the first group that panics ends the run. */
  function SumGroups(groups: seq<(string, string, string)>): (r: Result<nat, Fault>)
    ensures r.Success? <==> forall g :: 0 <= g < |groups| ==>
      BadgeScore(groups[g].0, groups[g].1, groups[g].2).Success?
    ensures r.Success? ==> r.value <= 52 * |groups|
    ensures r.Failure? ==> exists g :: 0 <= g < |groups| && r == BadgeScore(groups[g].0, groups[g].1, groups[g].2)
  {
    SumScores(Seqs.Map(GroupScore, groups))
  }

  /** When every group scores, the sum is the sum of their badges' scores. */
  lemma SumGroupsOfScores(groups: seq<(string, string, string)>, scores: seq<nat>)
    requires |scores| == |groups|
    requires forall g :: 0 <= g < |groups| ==> BadgeScore(groups[g].0, groups[g].1, groups[g].2) == Success(scores[g])
    ensures SumGroups(groups) == Success(Sum(scores))
  {
    SumScoresOf(Seqs.Map(GroupScore, groups), scores);
  }

  /** `solve_part_2`. */
  function SolvePart2(input: string): (r: Result<nat, Fault>)
    ensures |input| == 0 ==> r == Success(0)
    ensures r.Success? ==> r.value <= 52 * (|Text.Lines(input)| / 3)
  {
    SumGroups(Groups(Text.Lines(input)))
  }

  /** Lines past the last complete triple change nothing in Part 2. */
  lemma {:induction false} GroupsDropTail(lines: seq<string>, extra: seq<string>)
    requires |lines| % 3 == 0 && |extra| < 3
    ensures Groups(lines + extra) == Groups(lines)
    decreases |lines|
  {
    if |lines| == 0 {
      assert lines + extra == extra;
    } else {
      assert (lines + extra)[3..] == lines[3..] + extra;
      assert (lines + extra)[..3] == lines[..3];
      GroupsDropTail(lines[3..], extra);
    }
  }
}
