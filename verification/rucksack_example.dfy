/** The example rucksacks of day-3/src/main.rs: Part 1 sums to 157 and Part 2
    to 70. */
module RucksackExample {
  import opened Wrappers
  import Seqs
  import Text
  import Rucksacks

  /** The example rucksacks, each split into its two compartments. */
  const Left1 := "vJrwpWtwJgWr"
  const Right1 := "hcsFMMfFFhFp"
  const Left2 := "jqHRNqRjqzjGDLGL"
  const Right2 := "rsFMfFZSrLrFZsSL"
  const Left3 := "PmmdzqPrV"
  const Right3 := "vPwwTWBwg"
  const Left4 := "wMqvLMZHhHMvwLH"
  const Right4 := "jbvcjnnSBnvTQFn"
  const Left5 := "ttgJtRGJ"
  const Right5 := "QctTZtZT"
  const Left6 := "CrZsJsPPZsGz"
  const Right6 := "wwsLwLmpwMDw"

  const Rucksack1 := Left1 + Right1
  const Rucksack2 := Left2 + Right2
  const Rucksack3 := Left3 + Right3
  const Rucksack4 := Left4 + Right4
  const Rucksack5 := Left5 + Right5
  const Rucksack6 := Left6 + Right6

  /** The example input: one rucksack per line, no line ending after the last. */
  const ExampleInput: string :=
    Rucksack1 + "\n" + Rucksack2 + "\n" + Rucksack3 + "\n" + Rucksack4 + "\n" + Rucksack5 + "\n" + Rucksack6

  const ExampleRucksacks: seq<string> := [Rucksack1, Rucksack2, Rucksack3, Rucksack4, Rucksack5, Rucksack6]

  /** Equal halves are the two compartments. */
  lemma Halves(left: string, right: string)
    requires |left| == |right|
    ensures Rucksacks.Compartments(left + right) == (left, right)
  {
    var line := left + right;
    assert line[..|left|] == left && line[|left|..] == right;
  }

  /** `vJrwpWtwJgWr|hcsFMMfFFhFp` shares `p`: 16. */
  lemma Score1()
    ensures Rucksacks.RucksackScore(Rucksack1) == Success(16)
  {
    Shared1();
    ScoreOf(Left1, Right1, 4);
  }

  lemma Shared1()
    ensures forall c :: c in Left1 ==> Text.IsAsciiLetter(c)
    ensures Rucksacks.FirstShared(Left1, Right1, Right1, 4) && Left1[4] == 'p'
  {
    AllLetters(Left1);
    assert 'v' !in Right1 && 'J' !in Right1 && 'r' !in Right1 && 'w' !in Right1;
    assert Right1[11] == 'p';
  }

  /** `jqHRNqRjqzjGDLGL|rsFMfFZSrLrFZsSL` shares `L`: 38. */
  lemma Score2()
    ensures Rucksacks.RucksackScore(Rucksack2) == Success(38)
  {
    Shared2();
    ScoreOf(Left2, Right2, 13);
  }

  lemma Shared2()
    ensures forall c :: c in Left2 ==> Text.IsAsciiLetter(c)
    ensures Rucksacks.FirstShared(Left2, Right2, Right2, 13) && Left2[13] == 'L'
  {
    var left, right := Left2, Right2;
    AllLetters(left);
    NoneShared(left[..13], "jqHRNzGD", right);
    assert right[9] == 'L';
  }

  /** Items drawn from `few`, none of which `right` holds, share nothing with it. */
  lemma NoneShared(items: string, few: string, right: string)
    requires forall j :: 0 <= j < |items| ==> items[j] in few
    requires forall c :: c in few ==> c !in right
    ensures forall j :: 0 <= j < |items| ==> items[j] !in right
  {
  }

  /** A rucksack of two equal, all-letter halves scores its first shared item. */
  lemma ScoreOf(left: string, right: string, k: nat)
    requires |left| == |right| && forall c :: c in left ==> Text.IsAsciiLetter(c)
    requires Rucksacks.FirstShared(left, right, right, k)
    ensures Rucksacks.RucksackScore(left + right) == Success(Rucksacks.Priority(left[k]).value)
  {
    Halves(left, right);
    Rucksacks.RucksackScoreOfFirstShared(left + right, k);
  }

  /** `PmmdzqPrV|vPwwTWBwg` shares `P`: 42. */
  lemma Score3()
    ensures Rucksacks.RucksackScore(Rucksack3) == Success(42)
  {
    Shared3();
    ScoreOf(Left3, Right3, 0);
  }

  lemma Shared3()
    ensures forall c :: c in Left3 ==> Text.IsAsciiLetter(c)
    ensures Rucksacks.FirstShared(Left3, Right3, Right3, 0) && Left3[0] == 'P'
  {
    AllLetters(Left3);
    assert Right3[1] == 'P';
  }

  /** `wMqvLMZHhHMvwLH|jbvcjnnSBnvTQFn` shares `v`: 22. */
  lemma Score4()
    ensures Rucksacks.RucksackScore(Rucksack4) == Success(22)
  {
    Shared4();
    ScoreOf(Left4, Right4, 3);
  }

  lemma Shared4()
    ensures forall c :: c in Left4 ==> Text.IsAsciiLetter(c)
    ensures Rucksacks.FirstShared(Left4, Right4, Right4, 3) && Left4[3] == 'v'
  {
    AllLetters(Left4);
    assert 'w' !in Right4 && 'M' !in Right4 && 'q' !in Right4;
    assert Right4[2] == 'v';
  }

  /** `ttgJtRGJ|QctTZtZT` shares `t`: 20. */
  lemma Score5()
    ensures Rucksacks.RucksackScore(Rucksack5) == Success(20)
  {
    Shared5();
    ScoreOf(Left5, Right5, 0);
  }

  lemma Shared5()
    ensures forall c :: c in Left5 ==> Text.IsAsciiLetter(c)
    ensures Rucksacks.FirstShared(Left5, Right5, Right5, 0) && Left5[0] == 't'
  {
    AllLetters(Left5);
    assert Right5[2] == 't';
  }

  /** `CrZsJsPPZsGz|wwsLwLmpwMDw` shares `s`: 19. */
  lemma Score6()
    ensures Rucksacks.RucksackScore(Rucksack6) == Success(19)
  {
    Shared6();
    ScoreOf(Left6, Right6, 3);
  }

  lemma Shared6()
    ensures forall c :: c in Left6 ==> Text.IsAsciiLetter(c)
    ensures Rucksacks.FirstShared(Left6, Right6, Right6, 3) && Left6[3] == 's'
  {
    AllLetters(Left6);
    assert 'C' !in Right6 && 'r' !in Right6 && 'Z' !in Right6;
    assert Right6[2] == 's';
  }

  /** A string of letters, index by index. */
  lemma AllLetters(s: string)
    requires forall j :: 0 <= j < |s| ==> Text.IsAsciiLetter(s[j])
    ensures forall c :: c in s ==> Text.IsAsciiLetter(c)
  {
  }

  /** A non-empty line of letters is kept by `Lines` as it is. */
  lemma LettersArePlain(l: string)
    requires |l| > 0 && forall c :: c in l ==> Text.IsAsciiLetter(c)
    ensures Text.PlainLine(l)
  {
    assert l[|l| - 1] in l;
  }

  lemma JoinedSix(a: string, b: string, c: string, d: string, e: string, f: string)
    ensures Text.Joined([a, b, c, d, e, f]) == a + "\n" + b + "\n" + c + "\n" + d + "\n" + e + "\n" + f
  {
    var ls := [a, b, c, d, e, f];
    assert ls[..5] == [a, b, c, d, e];
    assert [e][1..] == [] && [d, e][1..] == [e] && [c, d, e][1..] == [d, e];
    assert [b, c, d, e][1..] == [c, d, e] && [a, b, c, d, e][1..] == [b, c, d, e];
    assert Text.Terminated([e]) == e + "\n";
    assert Text.Terminated([d, e]) == d + "\n" + (e + "\n");
    assert Text.Terminated([c, d, e]) == c + "\n" + (d + "\n" + (e + "\n"));
    assert Text.Terminated([b, c, d, e]) == b + "\n" + (c + "\n" + (d + "\n" + (e + "\n")));
    assert Text.Terminated([a, b, c, d, e]) == a + "\n" + (b + "\n" + (c + "\n" + (d + "\n" + (e + "\n"))));
  }

  lemma Plain123()
    ensures Text.PlainLine(Rucksack1) && Text.PlainLine(Rucksack2) && Text.PlainLine(Rucksack3)
  {
    AllLetters(Rucksack1);
    LettersArePlain(Rucksack1);
    AllLetters(Rucksack2);
    LettersArePlain(Rucksack2);
    AllLetters(Rucksack3);
    LettersArePlain(Rucksack3);
  }

  lemma Plain456()
    ensures Text.PlainLine(Rucksack4) && Text.PlainLine(Rucksack5) && Text.PlainLine(Rucksack6)
  {
    AllLetters(Rucksack4);
    LettersArePlain(Rucksack4);
    AllLetters(Rucksack5);
    LettersArePlain(Rucksack5);
    AllLetters(Rucksack6);
    LettersArePlain(Rucksack6);
  }

  /** The example input splits into the six rucksacks. */
  lemma ExampleLines()
    ensures Text.Lines(ExampleInput) == ExampleRucksacks
  {
    JoinedSix(Rucksack1, Rucksack2, Rucksack3, Rucksack4, Rucksack5, Rucksack6);
    Plain123();
    Plain456();
    Text.LinesOfJoined(ExampleRucksacks);
  }

  /** Part 1 of the example: 16 + 38 + 42 + 22 + 20 + 19 = 157. */
  lemma ExamplePart1()
    ensures Rucksacks.SolvePart1(ExampleInput) == Success(157)
  {
    ExampleLines();
    Score1(); Score2(); Score3(); Score4(); Score5(); Score6();
    SumOfSix(Rucksacks.RucksackScore, Rucksack1, Rucksack2, Rucksack3, Rucksack4, Rucksack5, Rucksack6,
      16, 38, 42, 22, 20, 19);
  }

  /** Six scores that all succeed sum to the sum of their values. */
  lemma SumOfSix<T>(f: T -> Result<nat, Rucksacks.Fault>, x0: T, x1: T, x2: T, x3: T, x4: T, x5: T,
                    v0: nat, v1: nat, v2: nat, v3: nat, v4: nat, v5: nat)
    requires f(x0) == Success(v0) && f(x1) == Success(v1) && f(x2) == Success(v2)
    requires f(x3) == Success(v3) && f(x4) == Success(v4) && f(x5) == Success(v5)
    ensures Rucksacks.SumScores(Seqs.Map(f, [x0, x1, x2, x3, x4, x5])) == Success(v0 + v1 + v2 + v3 + v4 + v5)
  {
    var vs: seq<nat> := [v0, v1, v2, v3, v4, v5];
    Rucksacks.SumScoresOf(Seqs.Map(f, [x0, x1, x2, x3, x4, x5]), vs);
    assert vs[1..] == [v1, v2, v3, v4, v5] && [v1, v2, v3, v4, v5][1..] == [v2, v3, v4, v5];
    assert [v2, v3, v4, v5][1..] == [v3, v4, v5] && [v3, v4, v5][1..] == [v4, v5] && [v4, v5][1..] == [v5];
    assert Rucksacks.Sum([v5]) == v5;
    assert Rucksacks.Sum([v4, v5]) == v4 + v5;
    assert Rucksacks.Sum([v3, v4, v5]) == v3 + v4 + v5;
    assert Rucksacks.Sum([v2, v3, v4, v5]) == v2 + v3 + v4 + v5;
    assert Rucksacks.Sum([v1, v2, v3, v4, v5]) == v1 + v2 + v3 + v4 + v5;
  }

  /** Two scores that both succeed sum to the sum of their values. */
  lemma SumOfTwo<T>(f: T -> Result<nat, Rucksacks.Fault>, x0: T, x1: T, v0: nat, v1: nat)
    requires f(x0) == Success(v0) && f(x1) == Success(v1)
    ensures Rucksacks.SumScores(Seqs.Map(f, [x0, x1])) == Success(v0 + v1)
  {
    var vs: seq<nat> := [v0, v1];
    Rucksacks.SumScoresOf(Seqs.Map(f, [x0, x1]), vs);
    assert vs[1..][1..] == [];
  }

  /** The first group's badge is `r`: 18. */
  lemma Badge1()
    ensures Rucksacks.BadgeScore(Rucksack1, Rucksack2, Rucksack3) == Success(18)
  {
    BadgeShared1();
    Rucksacks.BadgeScoreOfFirstShared(Rucksack1, Rucksack2, Rucksack3, 2);
  }

  lemma BadgeShared1()
    ensures forall x :: x in Rucksack1 ==> Text.IsAsciiLetter(x)
    ensures Rucksacks.FirstShared(Rucksack1, Rucksack2, Rucksack3, 2) && Rucksack1[2] == 'r'
  {
    var a, b, c := Rucksack1, Rucksack2, Rucksack3;
    AllLetters(a);
    assert 'v' !in b && 'J' !in b;
    assert b[16] == 'r' && c[7] == 'r';
  }

  /** The second group's badge is `Z`: 52. */
  lemma Badge2()
    ensures Rucksacks.BadgeScore(Rucksack4, Rucksack5, Rucksack6) == Success(52)
  {
    var a, b, c := Rucksack4, Rucksack5, Rucksack6;
    AllLetters(a);
    NoneShared(a[..6], "wMqvL", b);
    assert b[12] == 'Z' && c[2] == 'Z';
    assert Rucksacks.FirstShared(a, b, c, 6);
    Rucksacks.BadgeScoreOfFirstShared(a, b, c, 6);
  }

  /** Part 2 of the example: 18 + 52 = 70. */
  lemma ExamplePart2()
    ensures Rucksacks.SolvePart2(ExampleInput) == Success(70)
  {
    ExampleLines();
    var groups := Rucksacks.Groups(ExampleRucksacks);
    assert groups == [(Rucksack1, Rucksack2, Rucksack3), (Rucksack4, Rucksack5, Rucksack6)];
    Badge1();
    Badge2();
    SumOfTwo(Rucksacks.GroupScore, groups[0], groups[1], 18, 52);
  }

  /** A carriage return that ends the input stays on the last line, so the
      rucksack `x\rx\r` has the halves `x\r` and `x\r`; the shared `'\r'` has no
      score and panics. */
  lemma SharedCarriageReturn()
    ensures Rucksacks.SolvePart1("x\rx\r").Failure?
  {
    Text.FinalCrKept();
    var (left, right) := Rucksacks.Compartments("x\rx\r");
    assert left == "x\r" && right == "x\r";
    assert '\r' in left && '\r' in right && !Text.IsAsciiLetter('\r');
  }
}
