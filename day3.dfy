/**
  Day 3: rucksacks. Each line is split into two compartments, the items they share are found with
  a table of 52 marks indexed by priority, and the priorities of the shared items are added up;
  the second part does the same for the item common to each group of three lines.
 */
module Day3 {
  import opened Wrappers
  import opened Text
  import opened Seqs

  /** The `n` characters from `first` on, as `first..` followed by `take(n)` gives them. */
  function CharRange(first: char, n: nat): (s: seq<char>)
    requires first as int + n <= 0xD800
    ensures |s| == n && forall j :: 0 <= j < n ==> s[j] as int == first as int + j
  {
    if n == 0 then [] else CharRange(first, n - 1) + [(first as int + n - 1) as char]
  }

  /** The items in priority order: `'a'..='z'` chained with `'A'..='Z'`. */
  const ALPHABET: seq<char> := CharRange('a', 26) + CharRange('A', 26)

  predicate IsLetter(c: char) {
    'a' <= c <= 'z' || 'A' <= c <= 'Z'
  }

  /** `Iterator::position`: the index of the first `c` in `s`, if there is one. */
  function Position(s: seq<char>, c: char): (r: Option<nat>)
    ensures r.Some? ==> r.value < |s| && s[r.value] == c && c !in s[..r.value]
    ensures r.None? <==> c !in s
  {
    if Find(s, c, 0) < |s| then Some(Find(s, c, 0)) else None
  }

  /** The priority of an item: 1 to 26 for `a` to `z`, 27 to 52 for `A` to `Z`, and 1 for
      anything else. */
  function Priority(c: char): (p: nat)
    ensures 1 <= p <= 52
  {
    if 'a' <= c <= 'z' then c as int - 'a' as int + 1
    else if 'A' <= c <= 'Z' then c as int - 'A' as int + 27
    else 1
  }

  /** Where each letter sits in the alphabet. */
  lemma {:induction false} AlphabetEntries()
    ensures |ALPHABET| == 52
    ensures forall j :: 0 <= j < 26 ==> ALPHABET[j] as int == 'a' as int + j
    ensures forall j :: 26 <= j < 52 ==> ALPHABET[j] as int == 'A' as int + j - 26
  {
    var lower, upper := CharRange('a', 26), CharRange('A', 26);
    assert forall j :: 0 <= j < 26 ==> ALPHABET[j] == lower[j];
    assert forall j :: 26 <= j < 52 ==> ALPHABET[j] == upper[j - 26];
  }

  /** `get_priority` as the program computes it: one more than the position of the item in the
      alphabet, with position 0 for an item that is not in it. */
  lemma {:induction false} PriorityIsPosition(c: char)
    ensures Priority(c) == Position(ALPHABET, c).GetOr(0) + 1
  {
    AlphabetEntries();
    var k := Find(ALPHABET, c, 0);
    if IsLetter(c) {
      var j := Priority(c) - 1;
      assert ALPHABET[j] as int == c as int;
      assert k <= j;
      assert ALPHABET[k] as int == c as int;
    }
  }

  /** A letter is the entry of the alphabet at its priority, so letters with the same priority are
      the same letter. */
  lemma {:induction false} PriorityNamesLetter(c: char)
    requires IsLetter(c)
    ensures ALPHABET[Priority(c) - 1] == c
  {
    AlphabetEntries();
    assert ALPHABET[Priority(c) - 1] as int == c as int;
  }

  /** `split_rucksack`: the two compartments, the first of them `|s| / 2` long. */
  function SplitRucksack(s: string): (halves: (string, string))
    ensures halves.0 + halves.1 == s && |halves.0| == |s| / 2
  {
    (s[..|s| / 2], s[|s| / 2..])
  }

  /** The priorities of the items of a compartment. */
  function Priorities(a: string): set<nat> {
    if a == [] then {} else Priorities(a[..|a| - 1]) + {Priority(a[|a| - 1])}
  }

  /** A compartment that grows by one item gains that item's priority. */
  lemma {:induction false} PrioritiesStep(a: string, i: nat)
    requires i < |a|
    ensures Priorities(a[..i + 1]) == Priorities(a[..i]) + {Priority(a[i])}
  {
    PrefixStep(a, i);
  }

  lemma {:induction false} PrioritiesMembers(a: string, p: nat)
    ensures p in Priorities(a) <==> exists k :: 0 <= k < |a| && Priority(a[k]) == p
    decreases |a|
  {
    if a != [] {
      var n := |a| - 1;
      PrioritiesMembers(a[..n], p);
      if p in Priorities(a) {
        if p in Priorities(a[..n]) {
          var k :| 0 <= k < n && Priority(a[..n][k]) == p;
          assert a[..n][k] == a[k];
        } else {
          assert Priority(a[n]) == p;
        }
      } else {
        forall k | 0 <= k < |a| ensures Priority(a[k]) != p {
          if k < n {
            assert a[..n][k] == a[k];
          }
        }
      }
    }
  }

  /** The items of `b`, each once, in the order they first occur in `b`, whose priority is the
      priority of some item of `a`. */
  function Common(a: string, b: string): seq<char> {
    if b == [] then []
    else
      var rest := Common(a, b[..|b| - 1]);
      var c := b[|b| - 1];
      if Priority(c) in Priorities(a) && c !in rest then rest + [c] else rest
  }

  /** `get_common_items`: mark the priorities of `a`, then collect the items of `b` that are marked
      and not yet collected. */
  method GetCommonItems(a: string, b: string) returns (common: seq<char>)
    ensures common == Common(a, b)
  {
    var marks := new nat[52](_ => 0);
    for i := 0 to |a|
      invariant forall p :: 0 <= p < 52 ==> (marks[p] == 1 <==> p + 1 in Priorities(a[..i]))
    {
      PrioritiesStep(a, i);
      marks[Priority(a[i]) - 1] := 1;
    }
    PrefixWhole(a);
    common := [];
    for j := 0 to |b|
      invariant forall p :: 0 <= p < 52 ==> (marks[p] == 1 <==> p + 1 in Priorities(a))
      invariant common == Common(a, b[..j])
    {
      CommonStep(a, b, j);
      var item := b[j];
      if marks[Priority(item) - 1] == 1 && item !in common {
        common := common + [item];
      }
    }
    PrefixWhole(b);
  }

  /** One more item of `b` is collected when its priority is marked and it is not yet collected. */
  lemma {:induction false} CommonStep(a: string, b: string, j: nat)
    requires j < |b|
    ensures Common(a, b[..j + 1]) == if Priority(b[j]) in Priorities(a) && b[j] !in Common(a, b[..j])
      then Common(a, b[..j]) + [b[j]] else Common(a, b[..j])
  {
    PrefixStep(b, j);
  }

  /** An item is common exactly when it is in `b` and its priority is that of an item of `a`. */
  lemma {:induction false} CommonMembers(a: string, b: string, c: char)
    ensures c in Common(a, b) <==> c in b && Priority(c) in Priorities(a)
    decreases |b|
  {
    if b != [] {
      var n := |b| - 1;
      CommonMembers(a, b[..n], c);
      assert b == b[..n] + [b[n]];
    }
  }

  /** No item is listed twice. */
  lemma {:induction false} CommonDistinct(a: string, b: string)
    ensures forall i, j :: 0 <= i < j < |Common(a, b)| ==> Common(a, b)[i] != Common(a, b)[j]
    decreases |b|
  {
    if b != [] {
      CommonDistinct(a, b[..|b| - 1]);
    }
  }

  /** At most one item per position of `b`. */
  lemma {:induction false} CommonLength(a: string, b: string)
    ensures |Common(a, b)| <= |b|
    decreases |b|
  {
    if b != [] {
      CommonLength(a, b[..|b| - 1]);
    }
  }

  /** The first `x` of `s` is in `s[..n]` when `s[..n]` holds one, and at the same place. */
  lemma {:induction false} FindInPrefix(s: string, n: nat, x: char)
    requires n <= |s| && Find(s[..n], x, 0) < n
    ensures Find(s, x, 0) == Find(s[..n], x, 0)
  {
    var k' := Find(s[..n], x, 0);
    var k := Find(s, x, 0);
    assert s[k'] == x;
  }

  /** Items are listed in the order of their first occurrence in `b`. */
  lemma {:induction false} CommonOrder(a: string, b: string)
    ensures forall i, j :: 0 <= i < j < |Common(a, b)| ==>
      Find(b, Common(a, b)[i], 0) < Find(b, Common(a, b)[j], 0)
    ensures forall i :: 0 <= i < |Common(a, b)| ==> Find(b, Common(a, b)[i], 0) < |b|
    decreases |b|
  {
    if b != [] {
      var n := |b| - 1;
      var rest := Common(a, b[..n]);
      CommonOrder(a, b[..n]);
      forall i | 0 <= i < |rest| ensures Find(b, rest[i], 0) == Find(b[..n], rest[i], 0) {
        FindInPrefix(b, n, rest[i]);
      }
      var c := b[n];
      if Priority(c) in Priorities(a) && c !in rest {
        CommonMembers(a, b[..n], c);
        assert Find(b, c, 0) == n by {
          assert c !in b[..n];
          assert forall k :: 0 <= k < n ==> b[k] == b[..n][k];
        }
      }
    }
  }

  /** The items common to a compartment and itself are its distinct items. */
  lemma {:induction false} CommonSelf(s: string, c: char)
    ensures c in Common(s, s) <==> c in s
  {
    CommonMembers(s, s, c);
    if c in s {
      var k :| 0 <= k < |s| && s[k] == c;
      PrioritiesMembers(s, Priority(c));
    }
  }

  /** Two compartments of letters with no letter in common share nothing. */
  lemma {:induction false} CommonDisjoint(a: string, b: string)
    requires forall k :: 0 <= k < |a| ==> IsLetter(a[k])
    requires forall k :: 0 <= k < |b| ==> IsLetter(b[k])
    requires forall k :: 0 <= k < |b| ==> b[k] !in a
    ensures Common(a, b) == []
  {
    if Common(a, b) != [] {
      var c := Common(a, b)[0];
      CommonMembers(a, b, c);
      var k :| 0 <= k < |b| && b[k] == c;
      LetterMarked(a, c);
    }
  }

  /** `sum_item_priorities`. */
  function SumPriorities(items: seq<char>): nat {
    if items == [] then 0 else SumPriorities(items[..|items| - 1]) + Priority(items[|items| - 1])
  }

  /** Every item adds between 1 and 52. */
  lemma {:induction false} SumPrioritiesBounds(items: seq<char>)
    ensures |items| <= SumPriorities(items) <= 52 * |items|
    decreases |items|
  {
    if items != [] {
      SumPrioritiesBounds(items[..|items| - 1]);
    }
  }

  /** The points of one rucksack: the priorities of the items both compartments hold. */
  function RucksackScore(line: string): nat {
    var (left, right) := SplitRucksack(line);
    SumPriorities(Common(left, right))
  }

  /** A rucksack scores at most 52 points per item of its second compartment. */
  lemma {:induction false} RucksackScoreBound(line: string)
    ensures RucksackScore(line) <= 52 * (|line| - |line| / 2)
  {
    var (left, right) := SplitRucksack(line);
    CommonLength(left, right);
    SumPrioritiesBounds(Common(left, right));
  }

  /** The first answer: the rucksack points of every line. */
  function Rucksacks(lines: seq<string>): nat {
    if lines == [] then 0 else Rucksacks(lines[..|lines| - 1]) + RucksackScore(lines[|lines| - 1])
  }

  /** `part_one`. */
  method PartOne(input: seq<string>) returns (total: nat)
    ensures total == Rucksacks(input)
  {
    total := 0;
    for i := 0 to |input|
      invariant total == Rucksacks(input[..i])
    {
      PrefixStep(input, i);
      var (left, right) := SplitRucksack(input[i]);
      var common := GetCommonItems(left, right);
      total := total + SumPriorities(common);
    }
    PrefixWhole(input);
  }

  /** The badge items of a group of three: items of the third elf's line whose priority is that of
      an item the first two lines share. */
  function Badges(first: string, second: string, third: string): seq<char> {
    Common(Common(first, second), third)
  }

  /** A badge is in the third line and shares its priority with an item of the second line whose
      priority is also that of an item of the first. */
  lemma {:induction false} BadgesMembers(first: string, second: string, third: string, c: char)
    ensures c in Badges(first, second, third) <==> (c in third
      && exists k :: (0 <= k < |second| && Priority(second[k]) == Priority(c)
        && Priority(c) in Priorities(first)))
  {
    var shared := Common(first, second);
    CommonMembers(shared, third, c);
    PrioritiesMembers(shared, Priority(c));
    if c in Badges(first, second, third) {
      var i :| 0 <= i < |shared| && Priority(shared[i]) == Priority(c);
      CommonMembers(first, second, shared[i]);
    } else if c in third {
      forall k | 0 <= k < |second| && Priority(second[k]) == Priority(c)
        ensures Priority(c) !in Priorities(first)
      {
        CommonMembers(first, second, second[k]);
      }
    }
  }

  /** The second answer: the badge points of each group of three lines. */
  function Groups(lines: seq<string>): nat
    requires |lines| % 3 == 0
  {
    if lines == [] then 0
    else
      var n := |lines|;
      Groups(lines[..n - 3]) + SumPriorities(Badges(lines[n - 3], lines[n - 2], lines[n - 1]))
  }

  /** One more group adds its badge points. */
  lemma {:induction false} GroupsStep(lines: seq<string>, i: nat)
    requires i % 3 == 0 && i + 3 <= |lines|
    ensures Groups(lines[..i + 3])
      == Groups(lines[..i]) + SumPriorities(Badges(lines[i], lines[i + 1], lines[i + 2]))
  {
    var next := lines[..i + 3];
    assert next[..i] == lines[..i];
    assert next[i] == lines[i] && next[i + 1] == lines[i + 1] && next[i + 2] == lines[i + 2];
  }

  /** `part_two`; the line count must be a multiple of 3, or the program indexes past the end. */
  method PartTwo(input: seq<string>) returns (total: nat)
    requires |input| % 3 == 0
    ensures total == Groups(input)
  {
    total := 0;
    var i := 0;
    while i < |input|
      invariant i <= |input| && i % 3 == 0
      invariant total == Groups(input[..i])
    {
      NextGroup(i, |input|);
      var firstSecond := GetCommonItems(input[i], input[i + 1]);
      var badges := GetCommonItems(firstSecond, input[i + 2]);
      GroupsStep(input, i);
      total := total + SumPriorities(badges);
      i := i + 3;
    }
    PrefixWhole(input);
  }

  /** A group that starts before the end of a whole number of groups ends within it. */
  lemma {:induction false} NextGroup(i: nat, n: nat)
    requires i % 3 == 0 && n % 3 == 0 && i < n
    ensures i + 3 <= n && (i + 3) % 3 == 0
  {
    var p, q := i / 3, n / 3;
    assert i == 3 * p && n == 3 * q;
  }

  /** Every character of the text is a letter. */
  predicate Letters(s: string) {
    forall k :: 0 <= k < |s| ==> IsLetter(s[k])
  }

  /** Among letters a priority names one letter, so a letter's priority is marked by a text of
      letters exactly when the letter occurs in it. */
  lemma {:induction false} LetterMarked(a: string, x: char)
    requires Letters(a) && IsLetter(x)
    ensures Priority(x) in Priorities(a) <==> x in a
  {
    PrioritiesMembers(a, Priority(x));
    if x in a {
      var k :| 0 <= k < |a| && a[k] == x;
      assert Priority(a[k]) == Priority(x);
    }
    if Priority(x) in Priorities(a) {
      var k :| 0 <= k < |a| && Priority(a[k]) == Priority(x);
      PriorityNamesLetter(a[k]);
      PriorityNamesLetter(x);
    }
  }

  /** When `c`'s priority is marked by `a` and no other item of `b` is marked, the common items
      are `c` alone, or nothing when `b` does not hold `c`. */
  lemma {:induction false} CommonOnly(a: string, b: string, c: char)
    requires Priority(c) in Priorities(a)
    requires forall k :: 0 <= k < |b| && Priority(b[k]) in Priorities(a) ==> b[k] == c
    ensures Common(a, b) == if c in b then [c] else []
    decreases |b|
  {
    if b != [] {
      var n := |b| - 1;
      var front := b[..n];
      forall k | 0 <= k < |front| && Priority(front[k]) in Priorities(a)
        ensures front[k] == c
      {
        assert front[k] == b[k];
      }
      CommonOnly(a, front, c);
      assert b == front + [b[n]];
      assert c in b <==> c in front || b[n] == c;
    }
  }

  /** Two texts of letters that share exactly the letter `c` have `[c]` as their common items. */
  lemma {:induction false} CommonIsOne(a: string, b: string, c: char)
    requires Letters(a) && Letters(b)
    requires c in a && c in b
    requires forall k :: 0 <= k < |b| && b[k] in a ==> b[k] == c
    ensures Common(a, b) == [c]
  {
    LetterMarked(a, c);
    forall k | 0 <= k < |b| && Priority(b[k]) in Priorities(a)
      ensures b[k] == c
    {
      LetterMarked(a, b[k]);
    }
    CommonOnly(a, b, c);
  }

  /** Three texts of letters whose third shares exactly the letter `c` with both others have the
      badge `[c]`. */
  lemma {:induction false} BadgeIsOne(first: string, second: string, third: string, c: char)
    requires Letters(first) && Letters(second) && Letters(third)
    requires c in first && c in second && c in third
    requires forall k :: 0 <= k < |third| && third[k] in first && third[k] in second ==> third[k] == c
    ensures Badges(first, second, third) == [c]
  {
    var shared := Common(first, second);
    forall i | 0 <= i < |shared|
      ensures IsLetter(shared[i]) && shared[i] in first && shared[i] in second
    {
      CommonMembers(first, second, shared[i]);
      var j :| 0 <= j < |second| && second[j] == shared[i];
      LetterMarked(first, shared[i]);
    }
    LetterMarked(first, c);
    CommonMembers(first, second, c);
    forall k | 0 <= k < |third| && third[k] in shared
      ensures third[k] == c
    {
      var i :| 0 <= i < |shared| && shared[i] == third[k];
    }
    CommonIsOne(shared, third, c);
  }

  /** A rucksack whose compartments share the single item `c` scores the priority of `c`. */
  lemma {:induction false} RucksackOfOne(line: string, c: char)
    requires var (left, right) := SplitRucksack(line); Common(left, right) == [c]
    ensures RucksackScore(line) == Priority(c)
  {
    assert SumPriorities([c]) == SumPriorities([]) + Priority(c);
  }

  /** The puzzle's example. */
  const EXAMPLE: seq<string> := ["vJrwpWtwJgWrhcsFMMfFFhFp", "jqHRNqRjqzjGDLGLrsFMfFZSrLrFZsSL",
    "PmmdzqPrVvPwwTWBwg", "wMqvLMZHhHMvwLHjbvcjnnSBnvTQFn", "ttgJtRGJQctTZtZT",
    "CrZsJsPPZsGzwwsLwLmpwMDw"]

  /** The compartments of line 1 of the example share only `p`. */
  lemma {:induction false} ExampleCommon1()
    ensures Common("vJrwpWtwJgWr", "hcsFMMfFFhFp") == ['p']
  {
    CommonIsOne("vJrwpWtwJgWr", "hcsFMMfFFhFp", 'p');
  }

  /** Line 1 of the example scores 16, the priority of `p`. */
  lemma {:induction false} ExampleRucksack1()
    ensures RucksackScore(EXAMPLE[0]) == 16
  {
    var line := EXAMPLE[0];
    assert line == "vJrwpWtwJgWrhcsFMMfFFhFp";
    assert line[..12] == "vJrwpWtwJgWr" && line[12..] == "hcsFMMfFFhFp";
    ExampleCommon1();
    RucksackOfOne(line, 'p');
  }

  /** The compartments of line 2 of the example share only `L`. */
  lemma {:induction false} ExampleCommon2()
    ensures Common("jqHRNqRjqzjGDLGL", "rsFMfFZSrLrFZsSL") == ['L']
  {
    CommonIsOne("jqHRNqRjqzjGDLGL", "rsFMfFZSrLrFZsSL", 'L');
  }

  /** Line 2 of the example scores 38, the priority of `L`. */
  lemma {:induction false} ExampleRucksack2()
    ensures RucksackScore(EXAMPLE[1]) == 38
  {
    var line := EXAMPLE[1];
    assert line == "jqHRNqRjqzjGDLGLrsFMfFZSrLrFZsSL";
    assert line[..16] == "jqHRNqRjqzjGDLGL" && line[16..] == "rsFMfFZSrLrFZsSL";
    ExampleCommon2();
    RucksackOfOne(line, 'L');
  }

  /** The compartments of line 3 of the example share only `P`. */
  lemma {:induction false} ExampleCommon3()
    ensures Common("PmmdzqPrV", "vPwwTWBwg") == ['P']
  {
    CommonIsOne("PmmdzqPrV", "vPwwTWBwg", 'P');
  }

  /** Line 3 of the example scores 42, the priority of `P`. */
  lemma {:induction false} ExampleRucksack3()
    ensures RucksackScore(EXAMPLE[2]) == 42
  {
    var line := EXAMPLE[2];
    assert line == "PmmdzqPrVvPwwTWBwg";
    assert line[..9] == "PmmdzqPrV" && line[9..] == "vPwwTWBwg";
    ExampleCommon3();
    RucksackOfOne(line, 'P');
  }

  /** The compartments of line 4 of the example share only `v`. */
  lemma {:induction false} ExampleCommon4()
    ensures Common("wMqvLMZHhHMvwLH", "jbvcjnnSBnvTQFn") == ['v']
  {
    CommonIsOne("wMqvLMZHhHMvwLH", "jbvcjnnSBnvTQFn", 'v');
  }

  /** Line 4 of the example scores 22, the priority of `v`. */
  lemma {:induction false} ExampleRucksack4()
    ensures RucksackScore(EXAMPLE[3]) == 22
  {
    var line := EXAMPLE[3];
    assert line == "wMqvLMZHhHMvwLHjbvcjnnSBnvTQFn";
    assert line[..15] == "wMqvLMZHhHMvwLH" && line[15..] == "jbvcjnnSBnvTQFn";
    ExampleCommon4();
    RucksackOfOne(line, 'v');
  }

  /** The compartments of line 5 of the example share only `t`. */
  lemma {:induction false} ExampleCommon5()
    ensures Common("ttgJtRGJ", "QctTZtZT") == ['t']
  {
    CommonIsOne("ttgJtRGJ", "QctTZtZT", 't');
  }

  /** Line 5 of the example scores 20, the priority of `t`. */
  lemma {:induction false} ExampleRucksack5()
    ensures RucksackScore(EXAMPLE[4]) == 20
  {
    var line := EXAMPLE[4];
    assert line == "ttgJtRGJQctTZtZT";
    assert line[..8] == "ttgJtRGJ" && line[8..] == "QctTZtZT";
    ExampleCommon5();
    RucksackOfOne(line, 't');
  }

  /** The compartments of line 6 of the example share only `s`. */
  lemma {:induction false} ExampleCommon6()
    ensures Common("CrZsJsPPZsGz", "wwsLwLmpwMDw") == ['s']
  {
    CommonIsOne("CrZsJsPPZsGz", "wwsLwLmpwMDw", 's');
  }

  /** Line 6 of the example scores 19, the priority of `s`. */
  lemma {:induction false} ExampleRucksack6()
    ensures RucksackScore(EXAMPLE[5]) == 19
  {
    var line := EXAMPLE[5];
    assert line == "CrZsJsPPZsGzwwsLwLmpwMDw";
    assert line[..12] == "CrZsJsPPZsGz" && line[12..] == "wwsLwLmpwMDw";
    ExampleCommon6();
    RucksackOfOne(line, 's');
  }

  /** A text whose items all come from a set of letters is a text of letters. */
  lemma {:induction false} LettersWithin(s: string, items: set<char>)
    requires forall j :: 0 <= j < |s| ==> s[j] in items
    requires forall x :: x in items ==> IsLetter(x)
    ensures Letters(s)
  {
  }

  /** Items of `third` held by both other lines are among those in both their item sets. */
  lemma {:induction false} SharedWithin(first: string, second: string, third: string, c: char,
                                        items1: set<char>, items2: set<char>)
    requires forall j :: 0 <= j < |first| ==> first[j] in items1
    requires forall j :: 0 <= j < |second| ==> second[j] in items2
    requires forall k :: 0 <= k < |third| && third[k] in items1 && third[k] in items2 ==> third[k] == c
    ensures forall k :: 0 <= k < |third| && third[k] in first && third[k] in second ==> third[k] == c
  {
  }

  /** The items of line 1 of the example, as a set of letters. */
  lemma {:induction false} ExampleItems1()
    ensures forall j :: 0 <= j < |EXAMPLE[0]| ==> EXAMPLE[0][j] in {'F', 'J', 'M', 'W', 'c', 'f', 'g', 'h', 'p', 'r', 's', 't', 'v', 'w'}
    ensures Letters(EXAMPLE[0])
  {
    var line, items := EXAMPLE[0], {'F', 'J', 'M', 'W', 'c', 'f', 'g', 'h', 'p', 'r', 's', 't', 'v', 'w'};
    assert line == "vJrwpWtwJgWrhcsFMMfFFhFp";
    assert forall j :: 0 <= j < |line| ==> line[j] in items;
    LettersWithin(line, items);
  }

  /** The items of line 2 of the example, as a set of letters. */
  lemma {:induction false} ExampleItems2()
    ensures forall j :: 0 <= j < |EXAMPLE[1]| ==> EXAMPLE[1][j] in {'D', 'F', 'G', 'H', 'L', 'M', 'N', 'R', 'S', 'Z', 'f', 'j', 'q', 'r', 's', 'z'}
    ensures Letters(EXAMPLE[1])
  {
    var line, items := EXAMPLE[1], {'D', 'F', 'G', 'H', 'L', 'M', 'N', 'R', 'S', 'Z', 'f', 'j', 'q', 'r', 's', 'z'};
    assert line == "jqHRNqRjqzjGDLGLrsFMfFZSrLrFZsSL";
    assert forall j :: 0 <= j < |line| ==> line[j] in items;
    LettersWithin(line, items);
  }

  /** The items of line 3 of the example, as a set of letters. */
  lemma {:induction false} ExampleItems3()
    ensures forall j :: 0 <= j < |EXAMPLE[2]| ==> EXAMPLE[2][j] in {'B', 'P', 'T', 'V', 'W', 'd', 'g', 'm', 'q', 'r', 'v', 'w', 'z'}
    ensures Letters(EXAMPLE[2])
  {
    var line, items := EXAMPLE[2], {'B', 'P', 'T', 'V', 'W', 'd', 'g', 'm', 'q', 'r', 'v', 'w', 'z'};
    assert line == "PmmdzqPrVvPwwTWBwg";
    assert forall j :: 0 <= j < |line| ==> line[j] in items;
    LettersWithin(line, items);
  }

  /** The items of line 4 of the example, as a set of letters. */
  lemma {:induction false} ExampleItems4()
    ensures forall j :: 0 <= j < |EXAMPLE[3]| ==> EXAMPLE[3][j] in {'B', 'F', 'H', 'L', 'M', 'Q', 'S', 'T', 'Z', 'b', 'c', 'h', 'j', 'n', 'q', 'v', 'w'}
    ensures Letters(EXAMPLE[3])
  {
    var line, items := EXAMPLE[3], {'B', 'F', 'H', 'L', 'M', 'Q', 'S', 'T', 'Z', 'b', 'c', 'h', 'j', 'n', 'q', 'v', 'w'};
    assert line == "wMqvLMZHhHMvwLHjbvcjnnSBnvTQFn";
    assert forall j :: 0 <= j < |line| ==> line[j] in items;
    LettersWithin(line, items);
  }

  /** The items of line 5 of the example, as a set of letters. */
  lemma {:induction false} ExampleItems5()
    ensures forall j :: 0 <= j < |EXAMPLE[4]| ==> EXAMPLE[4][j] in {'G', 'J', 'Q', 'R', 'T', 'Z', 'c', 'g', 't'}
    ensures Letters(EXAMPLE[4])
  {
    var line, items := EXAMPLE[4], {'G', 'J', 'Q', 'R', 'T', 'Z', 'c', 'g', 't'};
    assert line == "ttgJtRGJQctTZtZT";
    assert forall j :: 0 <= j < |line| ==> line[j] in items;
    LettersWithin(line, items);
  }

  /** The items of line 6 of the example, as a set of letters. */
  lemma {:induction false} ExampleItems6()
    ensures forall j :: 0 <= j < |EXAMPLE[5]| ==> EXAMPLE[5][j] in {'C', 'D', 'G', 'J', 'L', 'M', 'P', 'Z', 'm', 'p', 'r', 's', 'w', 'z'}
    ensures Letters(EXAMPLE[5])
  {
    var line, items := EXAMPLE[5], {'C', 'D', 'G', 'J', 'L', 'M', 'P', 'Z', 'm', 'p', 'r', 's', 'w', 'z'};
    assert line == "CrZsJsPPZsGzwwsLwLmpwMDw";
    assert forall j :: 0 <= j < |line| ==> line[j] in items;
    LettersWithin(line, items);
  }

  /** `r` is the one item of the third line of group 1 that the other two both hold. */
  lemma {:induction false} ExampleShared1()
    ensures forall k :: 0 <= k < |EXAMPLE[2]| && EXAMPLE[2][k] in EXAMPLE[0] && EXAMPLE[2][k] in EXAMPLE[1] ==> EXAMPLE[2][k] == 'r'
  {
    var first, second, third := EXAMPLE[0], EXAMPLE[1], EXAMPLE[2];
    ExampleItems1(); ExampleItems2();
    assert third == "PmmdzqPrVvPwwTWBwg";
    var items1, items2 := {'F', 'J', 'M', 'W', 'c', 'f', 'g', 'h', 'p', 'r', 's', 't', 'v', 'w'},
      {'D', 'F', 'G', 'H', 'L', 'M', 'N', 'R', 'S', 'Z', 'f', 'j', 'q', 'r', 's', 'z'};
    assert forall k :: 0 <= k < |third| && third[k] in items1 && third[k] in items2 ==> third[k] == 'r';
    SharedWithin(first, second, third, 'r', items1, items2);
  }

  /** Group 1 of the example has the badge `r`. */
  lemma {:induction false} ExampleBadge1()
    ensures Badges(EXAMPLE[0], EXAMPLE[1], EXAMPLE[2]) == ['r']
  {
    var first, second, third := EXAMPLE[0], EXAMPLE[1], EXAMPLE[2];
    ExampleItems1(); ExampleItems2(); ExampleItems3();
    ExampleShared1();
    assert first == "vJrwpWtwJgWrhcsFMMfFFhFp" && 'r' in first;
    assert second == "jqHRNqRjqzjGDLGLrsFMfFZSrLrFZsSL" && 'r' in second;
    assert third == "PmmdzqPrVvPwwTWBwg" && 'r' in third;
    BadgeIsOne(first, second, third, 'r');
  }

  /** `Z` is the one item of the third line of group 2 that the other two both hold. */
  lemma {:induction false} ExampleShared2()
    ensures forall k :: 0 <= k < |EXAMPLE[5]| && EXAMPLE[5][k] in EXAMPLE[3] && EXAMPLE[5][k] in EXAMPLE[4] ==> EXAMPLE[5][k] == 'Z'
  {
    var first, second, third := EXAMPLE[3], EXAMPLE[4], EXAMPLE[5];
    ExampleItems4(); ExampleItems5();
    assert third == "CrZsJsPPZsGzwwsLwLmpwMDw";
    var items1, items2 := {'B', 'F', 'H', 'L', 'M', 'Q', 'S', 'T', 'Z', 'b', 'c', 'h', 'j', 'n', 'q', 'v', 'w'},
      {'G', 'J', 'Q', 'R', 'T', 'Z', 'c', 'g', 't'};
    assert forall k :: 0 <= k < |third| && third[k] in items1 && third[k] in items2 ==> third[k] == 'Z';
    SharedWithin(first, second, third, 'Z', items1, items2);
  }

  /** Group 2 of the example has the badge `Z`. */
  lemma {:induction false} ExampleBadge2()
    ensures Badges(EXAMPLE[3], EXAMPLE[4], EXAMPLE[5]) == ['Z']
  {
    var first, second, third := EXAMPLE[3], EXAMPLE[4], EXAMPLE[5];
    ExampleItems4(); ExampleItems5(); ExampleItems6();
    ExampleShared2();
    assert first == "wMqvLMZHhHMvwLHjbvcjnnSBnvTQFn" && 'Z' in first;
    assert second == "ttgJtRGJQctTZtZT" && 'Z' in second;
    assert third == "CrZsJsPPZsGzwwsLwLmpwMDw" && 'Z' in third;
    BadgeIsOne(first, second, third, 'Z');
  }

  /** One more rucksack adds its points to the first answer. */
  lemma {:induction false} RucksacksStep(lines: seq<string>, i: nat, before: nat, score: nat)
    requires i < |lines| && Rucksacks(lines[..i]) == before && RucksackScore(lines[i]) == score
    ensures Rucksacks(lines[..i + 1]) == before + score
  {
    PrefixStep(lines, i);
  }

  /** The first 1 rucksack of the example scores 16. */
  lemma {:induction false} ExampleRucksacksUpTo1()
    ensures Rucksacks(EXAMPLE[..1]) == 16
  {
    assert EXAMPLE[..0] == [];
    ExampleRucksack1();
    RucksacksStep(EXAMPLE, 0, 0, 16);
  }

  /** The first 2 rucksacks of the example score 54. */
  lemma {:induction false} ExampleRucksacksUpTo2()
    ensures Rucksacks(EXAMPLE[..2]) == 54
  {
    ExampleRucksacksUpTo1();
    ExampleRucksack2();
    RucksacksStep(EXAMPLE, 1, 16, 38);
  }

  /** The first 3 rucksacks of the example score 96. */
  lemma {:induction false} ExampleRucksacksUpTo3()
    ensures Rucksacks(EXAMPLE[..3]) == 96
  {
    ExampleRucksacksUpTo2();
    ExampleRucksack3();
    RucksacksStep(EXAMPLE, 2, 54, 42);
  }

  /** The first 4 rucksacks of the example score 118. */
  lemma {:induction false} ExampleRucksacksUpTo4()
    ensures Rucksacks(EXAMPLE[..4]) == 118
  {
    ExampleRucksacksUpTo3();
    ExampleRucksack4();
    RucksacksStep(EXAMPLE, 3, 96, 22);
  }

  /** The first 5 rucksacks of the example score 138. */
  lemma {:induction false} ExampleRucksacksUpTo5()
    ensures Rucksacks(EXAMPLE[..5]) == 138
  {
    ExampleRucksacksUpTo4();
    ExampleRucksack5();
    RucksacksStep(EXAMPLE, 4, 118, 20);
  }

  /** The first 6 rucksacks of the example score 157. */
  lemma {:induction false} ExampleRucksacksUpTo6()
    ensures Rucksacks(EXAMPLE[..6]) == 157
  {
    ExampleRucksacksUpTo5();
    ExampleRucksack6();
    RucksacksStep(EXAMPLE, 5, 138, 19);
  }

  /** On the example the first part answers 157: the six rucksacks score 16, 38, 42, 22, 20 and 19. */
  lemma {:induction false} ExampleRucksacks()
    ensures Rucksacks(EXAMPLE) == 157
  {
    ExampleRucksacksUpTo6();
    PrefixWhole(EXAMPLE);
  }

  /** The first group of the example scores 18, the priority of its badge `r`. */
  lemma {:induction false} ExampleGroupsUpTo1()
    ensures Groups(EXAMPLE[..3]) == 18
  {
    assert EXAMPLE[..0] == [];
    GroupsStep(EXAMPLE, 0);
    ExampleBadge1();
    assert SumPriorities(['r']) == SumPriorities([]) + Priority('r');
  }

  /** On the example the second part answers 70: the two groups' badges are worth 18 and 52. */
  lemma {:induction false} ExampleGroups()
    ensures Groups(EXAMPLE) == 70
  {
    ExampleGroupsUpTo1();
    GroupsStep(EXAMPLE, 3);
    ExampleBadge2();
    assert SumPriorities(['Z']) == SumPriorities([]) + Priority('Z');
    PrefixWhole(EXAMPLE);
  }
}
