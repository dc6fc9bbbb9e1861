/**
  Day 4: pairs of section ranges, one pair per line as `a-b,c-d`. The first part counts the pairs
  where one range contains the other, the second the pairs whose ranges overlap.
 */
module Day4 {
  import opened Wrappers
  import opened Text
  import opened Seqs
  import opened Lines

  /** A closed range of section ids, `lo-hi`, as the program reads it: nothing makes `lo <= hi`. */
  datatype Range = Range(lo: nat, hi: nat) {
    predicate WellFormed() {
      lo <= hi
    }

    predicate Holds(x: int) {
      lo <= x <= hi
    }
  }

  /** One range: the first two `-`-separated fields, each a `usize`; `None` where the program
      panics (a missing field, or a field that does not parse). Fields after the second are
      ignored. */
  function ParseRange(field: string): Option<Range> {
    var bounds := SplitOn(field, "-");
    if |bounds| < 2 then None
    else
      match (ParseUnsigned(bounds[0], USIZE_BOUND), ParseUnsigned(bounds[1], USIZE_BOUND))
      case (Some(lo), Some(hi)) => Some(Range(lo, hi))
      case _ => None
  }

  /** One line: the first two `,`-separated fields, each a range. */
  function ParsePair(line: string): Option<(Range, Range)> {
    var sides := SplitOn(line, ",");
    if |sides| < 2 then None
    else
      match (ParseRange(sides[0]), ParseRange(sides[1]))
      case (Some(left), Some(right)) => Some((left, right))
      case _ => None
  }

  /** The line the puzzle input would hold for a pair. */
  function FormatPair(left: Range, right: Range): string {
    Join([Join([Decimal(left.lo), Decimal(left.hi)], "-"), Join([Decimal(right.lo), Decimal(right.hi)], "-")], ",")
  }

  /** A decimal spelling holds only digits, so neither separator. */
  lemma {:induction false} DecimalHasNoSeparator(n: nat)
    ensures '-' !in Decimal(n) && ',' !in Decimal(n)
  {
    DigitsAccepts(Decimal(n));
  }

  lemma {:induction false} ParseRangeFormatted(r: Range)
    requires r.lo < USIZE_BOUND && r.hi < USIZE_BOUND
    ensures ParseRange(Join([Decimal(r.lo), Decimal(r.hi)], "-")) == Some(r)
    ensures ',' !in Join([Decimal(r.lo), Decimal(r.hi)], "-")
  {
    DecimalHasNoSeparator(r.lo);
    DecimalHasNoSeparator(r.hi);
    SplitOnJoin([Decimal(r.lo), Decimal(r.hi)], "-");
    ParseUnsignedDecimal(r.lo, USIZE_BOUND);
    ParseUnsignedDecimal(r.hi, USIZE_BOUND);
  }

  /** Every pair of `usize` ranges written as `a-b,c-d` reads back as itself. */
  lemma {:induction false} ParsePairFormatted(left: Range, right: Range)
    requires left.lo < USIZE_BOUND && left.hi < USIZE_BOUND
    requires right.lo < USIZE_BOUND && right.hi < USIZE_BOUND
    ensures ParsePair(FormatPair(left, right)) == Some((left, right))
  {
    ParseRangeFormatted(left);
    ParseRangeFormatted(right);
    SplitOnJoin([Join([Decimal(left.lo), Decimal(left.hi)], "-"), Join([Decimal(right.lo), Decimal(right.hi)], "-")], ",");
  }

  /** The test of the first part: one range lies inside the other. */
  predicate Contained(left: Range, right: Range) {
    (left.lo >= right.lo && left.hi <= right.hi) || (right.lo >= left.lo && right.hi <= left.hi)
  }

  /** The test of the second part, with both of the program's disjuncts. */
  predicate Overlaps(left: Range, right: Range) {
    (left.hi >= right.lo && left.lo <= right.hi) || (right.hi >= left.lo && right.lo <= left.hi)
  }

  /** Both tests ignore which range comes first; the second disjunct of the overlap test is the
      first with its operands swapped, so the first alone decides it. */
  lemma {:induction false} TestsSymmetric(left: Range, right: Range)
    ensures Contained(left, right) <==> Contained(right, left)
    ensures Overlaps(left, right) <==> Overlaps(right, left)
    ensures Overlaps(left, right) <==> left.hi >= right.lo && left.lo <= right.hi
  {
  }

  /** For well-formed ranges, containment is inclusion of the sets of sections, one way or the
      other. */
  lemma {:induction false} ContainedMeansInclusion(left: Range, right: Range)
    requires left.WellFormed() && right.WellFormed()
    ensures Contained(left, right) <==>
      (forall x :: left.Holds(x) ==> right.Holds(x)) || (forall x :: right.Holds(x) ==> left.Holds(x))
  {
    if forall x :: left.Holds(x) ==> right.Holds(x) {
      assert left.Holds(left.lo) && left.Holds(left.hi);
    } else if forall x :: right.Holds(x) ==> left.Holds(x) {
      assert right.Holds(right.lo) && right.Holds(right.hi);
    }
  }

  /** For well-formed ranges, overlapping means some section is in both. */
  lemma {:induction false} OverlapsMeansShared(left: Range, right: Range)
    requires left.WellFormed() && right.WellFormed()
    ensures Overlaps(left, right) <==> exists x :: left.Holds(x) && right.Holds(x)
  {
    if Overlaps(left, right) {
      var x := if left.lo >= right.lo then left.lo else right.lo;
      assert left.Holds(x) && right.Holds(x);
    }
  }

  /** For well-formed ranges, a contained pair overlaps. */
  lemma {:induction false} ContainedOverlaps(left: Range, right: Range)
    requires left.WellFormed() && right.WellFormed()
    ensures Contained(left, right) ==> Overlaps(left, right)
  {
  }

  /** Without well-formedness it need not: `3-1,2-3` is contained but does not overlap. */
  lemma {:induction false} IllFormedContainedApart()
    ensures ParsePair("3-1,2-3") == Some((Range(3, 1), Range(2, 3)))
    ensures Contained(Range(3, 1), Range(2, 3)) && !Overlaps(Range(3, 1), Range(2, 3))
  {
    assert FormatPair(Range(3, 1), Range(2, 3)) == "3-1,2-3" by {
      assert Decimal(3) == "3" && Decimal(1) == "1" && Decimal(2) == "2";
    }
    ParsePairFormatted(Range(3, 1), Range(2, 3));
  }

  /** The ranges of every line, or `None` if some line makes the program panic. */
  function Pairs(lines: seq<string>): Option<seq<(Range, Range)>> {
    ParseEach(lines, ParsePair)
  }

  /** How many pairs pass the first part's test. */
  function CountContained(pairs: seq<(Range, Range)>): nat {
    if pairs == [] then 0
    else
      var (left, right) := pairs[|pairs| - 1];
      CountContained(pairs[..|pairs| - 1]) + if Contained(left, right) then 1 else 0
  }

  /** How many pairs pass the second part's test. */
  function CountOverlapping(pairs: seq<(Range, Range)>): nat {
    if pairs == [] then 0
    else
      var (left, right) := pairs[|pairs| - 1];
      CountOverlapping(pairs[..|pairs| - 1]) + if Overlaps(left, right) then 1 else 0
  }

  /** The answer of the first part, or `None` if the program panics. */
  function ContainedPairs(lines: seq<string>): Option<nat> {
    match Pairs(lines)
    case None => None
    case Some(pairs) => Some(CountContained(pairs))
  }

  /** The answer of the second part, or `None` if the program panics. */
  function OverlappingPairs(lines: seq<string>): Option<nat> {
    match Pairs(lines)
    case None => None
    case Some(pairs) => Some(CountOverlapping(pairs))
  }

  lemma {:induction false} CountContainedStep(pairs: seq<(Range, Range)>, pair: (Range, Range))
    ensures CountContained(pairs + [pair]) == CountContained(pairs) + if Contained(pair.0, pair.1) then 1 else 0
  {
    assert (pairs + [pair])[..|pairs|] == pairs;
  }

  lemma {:induction false} CountOverlappingStep(pairs: seq<(Range, Range)>, pair: (Range, Range))
    ensures CountOverlapping(pairs + [pair]) == CountOverlapping(pairs) + if Overlaps(pair.0, pair.1) then 1 else 0
  {
    assert (pairs + [pair])[..|pairs|] == pairs;
  }

  /** `part_one`: count the contained pairs, line by line. */
  method PartOne(input: seq<string>) returns (r: Option<nat>)
    ensures r == ContainedPairs(input)
  {
    var containedPairs := 0;
    ghost var pairs := [];
    for i := 0 to |input|
      invariant Pairs(input[..i]) == Some(pairs)
      invariant containedPairs == CountContained(pairs)
    {
      EachStep(input, ParsePair, i, pairs);
      var pair := ParsePair(input[i]);
      if pair.None? {
        return None;
      }
      var (left, right) := pair.value;
      CountContainedStep(pairs, pair.value);
      if (left.lo >= right.lo && left.hi <= right.hi) || (right.lo >= left.lo && right.hi <= left.hi) {
        containedPairs := containedPairs + 1;
      }
      pairs := pairs + [pair.value];
    }
    PrefixWhole(input);
    r := Some(containedPairs);
  }

  /** `part_two`: count the overlapping pairs, line by line. */
  method PartTwo(input: seq<string>) returns (r: Option<nat>)
    ensures r == OverlappingPairs(input)
  {
    var overlapPairs := 0;
    ghost var pairs := [];
    for i := 0 to |input|
      invariant Pairs(input[..i]) == Some(pairs)
      invariant overlapPairs == CountOverlapping(pairs)
    {
      EachStep(input, ParsePair, i, pairs);
      var pair := ParsePair(input[i]);
      if pair.None? {
        return None;
      }
      var (left, right) := pair.value;
      CountOverlappingStep(pairs, pair.value);
      if (left.hi >= right.lo && left.lo <= right.hi) || (right.hi >= left.lo && right.lo <= left.hi) {
        overlapPairs := overlapPairs + 1;
      }
      pairs := pairs + [pair.value];
    }
    PrefixWhole(input);
    r := Some(overlapPairs);
  }

  /** A count is at most the number of pairs, and for well-formed ranges the first part's count is
      at most the second's. */
  lemma {:induction false} CountsBounded(pairs: seq<(Range, Range)>)
    ensures CountContained(pairs) <= |pairs| && CountOverlapping(pairs) <= |pairs|
    ensures (forall k :: 0 <= k < |pairs| ==> pairs[k].0.WellFormed() && pairs[k].1.WellFormed())
      ==> CountContained(pairs) <= CountOverlapping(pairs)
    decreases |pairs|
  {
    if pairs != [] {
      var n := |pairs| - 1;
      CountsBounded(pairs[..n]);
      assert forall k :: 0 <= k < n ==> pairs[..n][k] == pairs[k];
    }
  }

  /** Both answers are at most the number of lines, and the first at most the second when every
      range is well formed. */
  lemma {:induction false} AnswersBounded(lines: seq<string>)
    requires Pairs(lines).Some?
    ensures ContainedPairs(lines).value <= |lines| && OverlappingPairs(lines).value <= |lines|
    ensures (forall k :: 0 <= k < |lines| ==> (ParsePair(lines[k]).Some?
      && ParsePair(lines[k]).value.0.WellFormed() && ParsePair(lines[k]).value.1.WellFormed()))
      ==> ContainedPairs(lines).value <= OverlappingPairs(lines).value
  {
    EachLineByLine(lines, ParsePair);
    CountsBounded(Pairs(lines).value);
  }

  /** A line of four single digits reads back as those digits. */
  lemma {:induction false} ParseDigitPair(a: nat, b: nat, c: nat, d: nat)
    requires a < 10 && b < 10 && c < 10 && d < 10
    ensures ParsePair([DigitChar(a), '-', DigitChar(b), ',', DigitChar(c), '-', DigitChar(d)])
         == Some((Range(a, b), Range(c, d)))
  {
    assert Decimal(a) == [DigitChar(a)] && Decimal(b) == [DigitChar(b)];
    assert Decimal(c) == [DigitChar(c)] && Decimal(d) == [DigitChar(d)];
    var left, right := [DigitChar(a), '-', DigitChar(b)], [DigitChar(c), '-', DigitChar(d)];
    JoinTwo([DigitChar(a)], [DigitChar(b)], "-");
    assert [DigitChar(a)] + "-" + [DigitChar(b)] == left;
    JoinTwo([DigitChar(c)], [DigitChar(d)], "-");
    assert [DigitChar(c)] + "-" + [DigitChar(d)] == right;
    JoinTwo(left, right, ",");
    assert left + "," + right == [DigitChar(a), '-', DigitChar(b), ',', DigitChar(c), '-', DigitChar(d)];
    ParsePairFormatted(Range(a, b), Range(c, d));
  }

  /** The pairs of the puzzle's example. */
  lemma {:induction false} ExampleParses()
    ensures Pairs(["2-4,6-8", "2-3,4-5", "5-7,7-9", "2-8,3-7", "6-6,4-6", "2-6,4-8"])
         == Some([(Range(2, 4), Range(6, 8)), (Range(2, 3), Range(4, 5)), (Range(5, 7), Range(7, 9)),
                  (Range(2, 8), Range(3, 7)), (Range(6, 6), Range(4, 6)), (Range(2, 6), Range(4, 8))])
  {
    var lines := ["2-4,6-8", "2-3,4-5", "5-7,7-9", "2-8,3-7", "6-6,4-6", "2-6,4-8"];
    var pairs := [(Range(2, 4), Range(6, 8)), (Range(2, 3), Range(4, 5)), (Range(5, 7), Range(7, 9)),
                  (Range(2, 8), Range(3, 7)), (Range(6, 6), Range(4, 6)), (Range(2, 6), Range(4, 8))];
    assert DigitChar(2) == '2' && DigitChar(3) == '3' && DigitChar(4) == '4' && DigitChar(5) == '5';
    assert DigitChar(6) == '6' && DigitChar(7) == '7' && DigitChar(8) == '8' && DigitChar(9) == '9';
    forall k | 0 <= k < |lines|
      ensures ParsePair(lines[k]) == Some(pairs[k])
    {
      if k == 0 {
        ParseDigitPair(2, 4, 6, 8);
      } else if k == 1 {
        ParseDigitPair(2, 3, 4, 5);
      } else if k == 2 {
        ParseDigitPair(5, 7, 7, 9);
      } else if k == 3 {
        ParseDigitPair(2, 8, 3, 7);
      } else if k == 4 {
        ParseDigitPair(6, 6, 4, 6);
      } else {
        ParseDigitPair(2, 6, 4, 8);
      }
    }
    EachFromLines(lines, ParsePair, pairs);
  }

  /** The first part's test holds for two of the example's pairs, the second's for four. */
  lemma {:induction false} ExampleCounts()
    ensures CountContained([(Range(2, 4), Range(6, 8)), (Range(2, 3), Range(4, 5)), (Range(5, 7), Range(7, 9)),
                            (Range(2, 8), Range(3, 7)), (Range(6, 6), Range(4, 6)), (Range(2, 6), Range(4, 8))]) == 2
    ensures CountOverlapping([(Range(2, 4), Range(6, 8)), (Range(2, 3), Range(4, 5)), (Range(5, 7), Range(7, 9)),
                              (Range(2, 8), Range(3, 7)), (Range(6, 6), Range(4, 6)), (Range(2, 6), Range(4, 8))]) == 4
  {
    var pairs := [(Range(2, 4), Range(6, 8)), (Range(2, 3), Range(4, 5)), (Range(5, 7), Range(7, 9)),
                  (Range(2, 8), Range(3, 7)), (Range(6, 6), Range(4, 6)), (Range(2, 6), Range(4, 8))];
    assert pairs[..1][..0] == [];
    assert CountContained(pairs[..1]) == 0 && CountOverlapping(pairs[..1]) == 0;
    assert pairs[..2][..1] == pairs[..1];
    assert CountContained(pairs[..2]) == 0 && CountOverlapping(pairs[..2]) == 0;
    assert pairs[..3][..2] == pairs[..2];
    assert CountContained(pairs[..3]) == 0 && CountOverlapping(pairs[..3]) == 1;
    assert pairs[..4][..3] == pairs[..3];
    assert CountContained(pairs[..4]) == 1 && CountOverlapping(pairs[..4]) == 2;
    assert pairs[..5][..4] == pairs[..4];
    assert CountContained(pairs[..5]) == 2 && CountOverlapping(pairs[..5]) == 3;
    assert pairs[..6][..5] == pairs[..5];
    PrefixWhole(pairs);
  }

  /** The puzzle's example: two of its six pairs are contained and four overlap. */
  lemma {:induction false} ExampleAnswers()
    ensures ContainedPairs(["2-4,6-8", "2-3,4-5", "5-7,7-9", "2-8,3-7", "6-6,4-6", "2-6,4-8"]) == Some(2)
    ensures OverlappingPairs(["2-4,6-8", "2-3,4-5", "5-7,7-9", "2-8,3-7", "6-6,4-6", "2-6,4-8"]) == Some(4)
  {
    ExampleParses();
    ExampleCounts();
  }
  /** A line of decimal bounds `a-b,c-d` reads back as those ranges. */
  lemma {:induction false} ParseSpelledPair(a: nat, b: nat, c: nat, d: nat)
    requires a < USIZE_BOUND && b < USIZE_BOUND && c < USIZE_BOUND && d < USIZE_BOUND
    ensures ParsePair(Decimal(a) + "-" + Decimal(b) + "," + Decimal(c) + "-" + Decimal(d))
         == Some((Range(a, b), Range(c, d)))
  {
    var left, right := Decimal(a) + "-" + Decimal(b), Decimal(c) + "-" + Decimal(d);
    JoinTwo(Decimal(a), Decimal(b), "-");
    JoinTwo(Decimal(c), Decimal(d), "-");
    JoinTwo(left, right, ",");
    assert left + "," + right == Decimal(a) + "-" + Decimal(b) + "," + Decimal(c) + "-" + Decimal(d);
    ParsePairFormatted(Range(a, b), Range(c, d));
  }

  /** The lines of the extended example, the first example followed by seven more. */
  const EXTENDED: seq<string> := ["2-4,6-8", "2-3,4-5", "5-7,7-9", "2-8,3-7", "6-6,4-6", "2-6,4-8",
    "1-1,4-4", "1-2,2-3", "1-5,2-3", "2-3,1-5", "8-9,7-8", "1-2,11-12", "3-99,1-2"]

  /** The pairs of the extended example. */
  const EXTENDED_PAIRS: seq<(Range, Range)> := [
    (Range(2, 4), Range(6, 8)), (Range(2, 3), Range(4, 5)), (Range(5, 7), Range(7, 9)),
    (Range(2, 8), Range(3, 7)), (Range(6, 6), Range(4, 6)), (Range(2, 6), Range(4, 8)),
    (Range(1, 1), Range(4, 4)), (Range(1, 2), Range(2, 3)), (Range(1, 5), Range(2, 3)),
    (Range(2, 3), Range(1, 5)), (Range(8, 9), Range(7, 8)), (Range(1, 2), Range(11, 12)),
    (Range(3, 99), Range(1, 2))]

  /** A two-digit number is spelled by its tens digit and then its units digit. */
  lemma {:induction false} DecimalTwoDigits(n: nat)
    requires 10 <= n < 100
    ensures Decimal(n) == [DigitChar(n / 10), DigitChar(n % 10)]
  {
    assert Decimal(n) == Decimal(n / 10) + [DigitChar(n % 10)];
  }

  /** The line of the extended example with two-digit bounds on its right. */
  lemma {:induction false} ParseTwoDigitRight()
    ensures ParsePair("1-2,11-12") == Some((Range(1, 2), Range(11, 12)))
  {
    var one, two := DigitChar(1), DigitChar(2);
    assert one == '1' && two == '2';
    assert Decimal(1) == [one] && Decimal(2) == [two];
    DecimalTwoDigits(11);
    DecimalTwoDigits(12);
    assert Decimal(11) == [one, one] && Decimal(12) == [one, two];
    ParseSpelledPair(1, 2, 11, 12);
    assert [one] + "-" + [two] + "," + [one, one] + "-" + [one, two] == "1-2,11-12";
  }

  /** The line of the extended example with a two-digit bound on its left. */
  lemma {:induction false} ParseTwoDigitLeft()
    ensures ParsePair("3-99,1-2") == Some((Range(3, 99), Range(1, 2)))
  {
    var one, two, three, nine := DigitChar(1), DigitChar(2), DigitChar(3), DigitChar(9);
    assert one == '1' && two == '2' && three == '3' && nine == '9';
    assert Decimal(1) == [one] && Decimal(2) == [two] && Decimal(3) == [three];
    DecimalTwoDigits(99);
    assert Decimal(99) == [nine, nine];
    ParseSpelledPair(3, 99, 1, 2);
    assert [three] + "-" + [nine, nine] + "," + [one] + "-" + [two] == "3-99,1-2";
  }

  /** The first seven lines of the extended example read as their pairs. */
  lemma {:induction false} ExtendedFirstLines(k: nat)
    requires k < 7
    ensures ParsePair(EXTENDED[k]) == Some(EXTENDED_PAIRS[k])
  {
    assert DigitChar(1) == '1' && DigitChar(2) == '2' && DigitChar(3) == '3' && DigitChar(4) == '4';
    assert DigitChar(5) == '5' && DigitChar(6) == '6' && DigitChar(7) == '7' && DigitChar(8) == '8';
    assert DigitChar(9) == '9';
    var lines, pairs := EXTENDED[..7], EXTENDED_PAIRS[..7];
    assert lines[k] == EXTENDED[k] && pairs[k] == EXTENDED_PAIRS[k];
    assert lines == ["2-4,6-8", "2-3,4-5", "5-7,7-9", "2-8,3-7", "6-6,4-6", "2-6,4-8", "1-1,4-4"];
    if k == 0 { ParseDigitPair(2, 4, 6, 8); }
    else if k == 1 { ParseDigitPair(2, 3, 4, 5); }
    else if k == 2 { ParseDigitPair(5, 7, 7, 9); }
    else if k == 3 { ParseDigitPair(2, 8, 3, 7); }
    else if k == 4 { ParseDigitPair(6, 6, 4, 6); }
    else if k == 5 { ParseDigitPair(2, 6, 4, 8); }
    else { ParseDigitPair(1, 1, 4, 4); }
  }

  /** The last six lines of the extended example read as their pairs. */
  lemma {:induction false} ExtendedLastLines(k: nat)
    requires 7 <= k < |EXTENDED|
    ensures ParsePair(EXTENDED[k]) == Some(EXTENDED_PAIRS[k])
  {
    assert DigitChar(1) == '1' && DigitChar(2) == '2' && DigitChar(3) == '3' && DigitChar(5) == '5';
    assert DigitChar(7) == '7' && DigitChar(8) == '8' && DigitChar(9) == '9';
    var lines := EXTENDED[7..];
    assert lines[k - 7] == EXTENDED[k];
    assert lines == ["1-2,2-3", "1-5,2-3", "2-3,1-5", "8-9,7-8", "1-2,11-12", "3-99,1-2"];
    if k == 7 { ParseDigitPair(1, 2, 2, 3); }
    else if k == 8 { ParseDigitPair(1, 5, 2, 3); }
    else if k == 9 { ParseDigitPair(2, 3, 1, 5); }
    else if k == 10 { ParseDigitPair(8, 9, 7, 8); }
    else if k == 11 { ParseTwoDigitRight(); }
    else { ParseTwoDigitLeft(); }
  }

  /** Every line of the extended example reads as its pair, two-digit bounds included. */
  lemma {:induction false} ExtendedParses()
    ensures Pairs(EXTENDED) == Some(EXTENDED_PAIRS)
  {
    forall k | 0 <= k < |EXTENDED|
      ensures ParsePair(EXTENDED[k]) == Some(EXTENDED_PAIRS[k])
    {
      if k < 7 { ExtendedFirstLines(k); } else { ExtendedLastLines(k); }
    }
    EachFromLines(EXTENDED, ParsePair, EXTENDED_PAIRS);
  }

  /** Eight of the extended example's thirteen pairs overlap. */
  lemma {:induction false} ExtendedCounts()
    ensures CountOverlapping(EXTENDED_PAIRS) == 8
  {
    var pairs := EXTENDED_PAIRS;
    assert pairs[..1][..0] == [];
    assert CountOverlapping(pairs[..1]) == 0;
    assert pairs[..2][..1] == pairs[..1];
    assert CountOverlapping(pairs[..2]) == 0;
    assert pairs[..3][..2] == pairs[..2];
    assert CountOverlapping(pairs[..3]) == 1;
    assert pairs[..4][..3] == pairs[..3];
    assert CountOverlapping(pairs[..4]) == 2;
    assert pairs[..5][..4] == pairs[..4];
    assert CountOverlapping(pairs[..5]) == 3;
    assert pairs[..6][..5] == pairs[..5];
    assert CountOverlapping(pairs[..6]) == 4;
    assert pairs[..7][..6] == pairs[..6];
    assert CountOverlapping(pairs[..7]) == 4;
    assert pairs[..8][..7] == pairs[..7];
    assert CountOverlapping(pairs[..8]) == 5;
    assert pairs[..9][..8] == pairs[..8];
    assert CountOverlapping(pairs[..9]) == 6;
    assert pairs[..10][..9] == pairs[..9];
    assert CountOverlapping(pairs[..10]) == 7;
    assert pairs[..11][..10] == pairs[..10];
    assert CountOverlapping(pairs[..11]) == 8;
    assert pairs[..12][..11] == pairs[..11];
    assert CountOverlapping(pairs[..12]) == 8;
    assert pairs[..13][..12] == pairs[..12];
    PrefixWhole(pairs);
  }

  /** The extended example: part two answers 8. */
  lemma {:induction false} ExtendedAnswer()
    ensures OverlappingPairs(EXTENDED) == Some(8)
  {
    ExtendedParses();
    ExtendedCounts();
  }
}
