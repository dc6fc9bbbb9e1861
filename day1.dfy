/**
  Day 1: lines of calorie counts, one group per elf, groups closed by an empty line. The totals of
  the closed groups are sorted and the three largest are added up.
 */
module Day1 {
  import opened Wrappers
  import opened Text
  import opened Sorting

  /** The calories on one line: a line that is not an `i32` counts as 0. */
  function Calories(line: string): int {
    ParseI32(line).GetOr(0)
  }

  /** The state of the grouping loop after the given lines, reading each line that is not empty
      with `value`: the totals pushed so far, one at each empty line, and the running total of the
      group still open. */
  function ScanBy(lines: seq<string>, value: string -> int): (seq<int>, int) {
    if lines == [] then ([], 0)
    else
      var (totals, running) := ScanBy(lines[..|lines| - 1], value);
      var line := lines[|lines| - 1];
      if line == "" then (totals + [running], 0) else (totals, running + value(line))
  }

  /** The grouping loop's state when lines are read as calorie counts. */
  function Scan(lines: seq<string>): (seq<int>, int) {
    ScanBy(lines, Calories)
  }

  /** The grouping loop. `elfIndex` is kept as the source keeps it, although nothing reads it. */
  method ElfTotals(lines: seq<string>) returns (totals: seq<int>)
    ensures totals == Scan(lines).0
  {
    totals := [];
    var elfIndex := 0;
    var totalForElf := 0;
    for i := 0 to |lines|
      invariant (totals, totalForElf) == Scan(lines[..i])
      invariant elfIndex == |totals|
    {
      assert lines[..i + 1][..i] == lines[..i];
      var calorie := lines[i];
      if calorie == "" {
        totals := totals + [totalForElf];
        elfIndex := elfIndex + 1;
        totalForElf := 0;
        continue;
      }
      var v := ParseI32(calorie).GetOr(0);
      totalForElf := totalForElf + v;
    }
    assert lines[..|lines|] == lines;
  }

  /** The sum of the three largest totals; `None` when there are fewer than three, where
      `len() - 3` underflows and the program panics. */
  function TopThreeSum(totals: seq<int>): (r: Option<int>)
    ensures r.Some? <==> |totals| >= 3
  {
    if |totals| < 3 then None
    else
      var sorted := SortAsc(totals);
      Some(sorted[|sorted| - 1] + sorted[|sorted| - 2] + sorted[|sorted| - 3])
  }

  /** The whole of the program after reading its input: group, sort, add the top three. */
  method MostCalories(lines: seq<string>) returns (r: Option<int>)
    ensures r == TopThreeSum(Scan(lines).0)
  {
    var totals := ElfTotals(lines);
    if |totals| < 3 {
      return None;
    }
    var sorted := SortAsc(totals);
    var n := |sorted|;
    r := Some(sorted[n - 1] + sorted[n - 2] + sorted[n - 3]);
  }

  /** The number of empty lines. */
  function EmptyLines(lines: seq<string>): nat {
    if lines == [] then 0 else (if lines[0] == "" then 1 else 0) + EmptyLines(lines[1..])
  }

  lemma {:induction false} EmptyLinesAppend(a: seq<string>, b: seq<string>)
    ensures EmptyLines(a + b) == EmptyLines(a) + EmptyLines(b)
    decreases |a|
  {
    if a != [] {
      assert (a + b)[1..] == a[1..] + b;
      EmptyLinesAppend(a[1..], b);
    } else {
      assert a + b == b;
    }
  }

  /** One total is pushed per empty line. */
  lemma {:induction false} OneTotalPerEmptyLine(lines: seq<string>, value: string -> int)
    ensures |ScanBy(lines, value).0| == EmptyLines(lines)
    decreases |lines|
  {
    if lines != [] {
      var init := lines[..|lines| - 1];
      OneTotalPerEmptyLine(init, value);
      EmptyLinesAppend(init, [lines[|lines| - 1]]);
      assert init + [lines[|lines| - 1]] == lines;
    }
  }

  /** The sum of a group of lines, each read with `value`. */
  function GroupSumBy(group: seq<string>, value: string -> int): int {
    if group == [] then 0 else GroupSumBy(group[..|group| - 1], value) + value(group[|group| - 1])
  }

  /** An input laid out group by group, each group followed by an empty line. */
  function Layout(groups: seq<seq<string>>): seq<string> {
    if groups == [] then [] else Layout(groups[..|groups| - 1]) + groups[|groups| - 1] + [""]
  }

  /** A group holds no empty line. */
  predicate Open(group: seq<string>) {
    forall k :: 0 <= k < |group| ==> group[k] != ""
  }

  /** A line that is not empty only adds to the running total. */
  lemma {:induction false} ScanLine(prefix: seq<string>, line: string, value: string -> int)
    requires line != ""
    ensures ScanBy(prefix + [line], value)
      == (ScanBy(prefix, value).0, ScanBy(prefix, value).1 + value(line))
  {
    assert (prefix + [line])[..|prefix|] == prefix;
  }

  /** An empty line closes the running total. */
  lemma {:induction false} ScanEmptyLine(prefix: seq<string>, value: string -> int)
    ensures ScanBy(prefix + [""], value)
      == (ScanBy(prefix, value).0 + [ScanBy(prefix, value).1], 0)
  {
    assert (prefix + [""])[..|prefix|] == prefix;
  }

  /** Lines that are not empty only add to the running total. */
  lemma {:induction false} ScanOpenGroup(prefix: seq<string>, group: seq<string>, value: string -> int)
    requires Open(group)
    ensures ScanBy(prefix + group, value)
      == (ScanBy(prefix, value).0, ScanBy(prefix, value).1 + GroupSumBy(group, value))
    decreases |group|
  {
    if group == [] {
      assert prefix + group == prefix;
    } else {
      var n := |group| - 1;
      var init, line := group[..n], group[n];
      assert Open(init) by {
        forall k | 0 <= k < n ensures init[k] != "" {
          assert init[k] == group[k];
        }
      }
      var p := prefix + init;
      assert group == init + [line];
      assert prefix + group == p + [line];
      ScanOpenGroup(prefix, init, value);
      ScanLine(p, line, value);
      assert GroupSumBy(group, value) == GroupSumBy(init, value) + value(line);
    }
  }

  /** One more group and its empty line push one more total: the running total plus the group. */
  lemma {:induction false} ScanLayoutSnoc(init: seq<seq<string>>, group: seq<string>, value: string -> int)
    requires Open(group)
    ensures ScanBy(Layout(init + [group]), value) == (ScanBy(Layout(init), value).0
      + [ScanBy(Layout(init), value).1 + GroupSumBy(group, value)], 0)
  {
    var groups := init + [group];
    assert groups[..|init|] == init && groups[|init|] == group;
    ScanOpenGroup(Layout(init), group, value);
    ScanEmptyLine(Layout(init) + group, value);
  }

  /** Laid out groups give one total per group, in order, and nothing left running. */
  lemma {:induction false} ScanLayout(groups: seq<seq<string>>, value: string -> int)
    requires forall g :: 0 <= g < |groups| ==> Open(groups[g])
    ensures ScanBy(Layout(groups), value).1 == 0 && |ScanBy(Layout(groups), value).0| == |groups|
    ensures forall g :: 0 <= g < |groups| ==>
      ScanBy(Layout(groups), value).0[g] == GroupSumBy(groups[g], value)
    decreases |groups|
  {
    if groups != [] {
      var n := |groups| - 1;
      var init := groups[..n];
      assert forall g :: 0 <= g < n ==> init[g] == groups[g];
      assert groups == init + [groups[n]];
      ScanLayout(init, value);
      ScanLayoutSnoc(init, groups[n], value);
    }
  }

  /** Every total is the calorie sum of one group, in input order, and a trailing group that no
      empty line closes is never totalled. */
  lemma {:induction false} TotalsAreGroupSums(groups: seq<seq<string>>, tail: seq<string>)
    requires forall g :: 0 <= g < |groups| ==> Open(groups[g])
    requires Open(tail)
    ensures |Scan(Layout(groups) + tail).0| == |groups|
    ensures forall g :: 0 <= g < |groups| ==>
      Scan(Layout(groups) + tail).0[g] == GroupSumBy(groups[g], Calories)
  {
    ScanLayout(groups, Calories);
    ScanOpenGroup(Layout(groups), tail, Calories);
  }

  lemma {:induction false} TopThreeSumOrdered(t: seq<int>, hi: nat, mid: nat, lo: nat)
    requires hi < |t| && mid < |t| && lo < |t| && hi != mid && mid != lo && hi != lo
    requires t[lo] <= t[mid] <= t[hi]
    ensures TopThreeSum(t).Some? && t[hi] + t[mid] + t[lo] <= TopThreeSum(t).value
  {
    TopThreeBound(t, hi, mid, lo);
  }

  /** The answer is at least the sum of any three totals of distinct elves. */
  lemma {:induction false} TopThreeSumIsMaximal(totals: seq<int>, i: nat, j: nat, k: nat)
    requires i < |totals| && j < |totals| && k < |totals| && i != j && j != k && i != k
    ensures TopThreeSum(totals).Some?
    ensures totals[i] + totals[j] + totals[k] <= TopThreeSum(totals).value
  {
    var t := totals;
    if t[i] <= t[j] <= t[k] {
      TopThreeSumOrdered(t, k, j, i);
    } else if t[i] <= t[k] <= t[j] {
      TopThreeSumOrdered(t, j, k, i);
    } else if t[j] <= t[i] <= t[k] {
      TopThreeSumOrdered(t, k, i, j);
    } else if t[j] <= t[k] <= t[i] {
      TopThreeSumOrdered(t, i, k, j);
    } else if t[k] <= t[i] <= t[j] {
      TopThreeSumOrdered(t, j, i, k);
    } else {
      TopThreeSumOrdered(t, i, j, k);
    }
  }

  /** The answer is made of three totals of the input, each used no more often than it occurs. */
  lemma {:induction false} TopThreeSumFromTotals(totals: seq<int>)
    requires |totals| >= 3
    ensures var sorted := SortAsc(totals); var top := sorted[|sorted| - 3..];
      multiset(top) <= multiset(totals) && TopThreeSum(totals).value == top[0] + top[1] + top[2]
  {
    var sorted := SortAsc(totals);
    var n := |sorted|;
    SortAscPermutes(totals);
    assert sorted == sorted[..n - 3] + sorted[n - 3..];
  }
}
