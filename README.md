# Advent of Code 2022 solvers, days 1, 2, 3, 4, 10 and 11, in Dafny

This project models the deterministic cores of six Advent of Code 2022 solvers written in Rust, and proves
properties of them. Each day is one module; four shared modules hold what the days have in common.

- `Wrappers`: `Option`, standing for a Rust `unwrap()`/`expect()` that panics, or a `Result`.
- `Text`: the parts of Rust's string library the solvers use, stated on `seq<char>`. These are
  `strip_prefix`, `ends_with`, `split`, `split_once`, and `parse` for `u64`, `usize` and `i32`.
- `Lines` (`ParseEach`): reading an input line by line, where one line that cannot be read makes the
  program panic.
- `Sorting`: an insertion sort as the specification of Rust's `sort`, with lemmas about its last entries.

The days:

- **Day 1 (calorie groups).** The loop of `main` sums the lines of each group and pushes the total at
  every empty line. A line that is not an `i32` counts 0. The answer is the sum of the three largest
  totals after sorting.
- **Day 2 (rock, paper, scissors).** The `RPSShape` methods are the letter decoder and the score of a
  round. The loop adds up each round twice: once with the second letter read as a shape, once read as
  the outcome to arrange.
- **Day 3 (rucksacks).** `get_priority` gives a letter's position in `a..z` followed by `A..Z`, plus 1.
  `split_rucksack` halves a line. `get_common_items` marks the priorities of the first text. It then
  collects, in order and without repeats, the characters of the second text whose priority is marked.
  The two parts add up priorities per line and per group of three lines.
- **Day 4 (section ranges).** Each line is `a-b,c-d`. Part one counts the pairs where one range lies
  inside the other; part two counts the pairs that overlap.
- **Day 10 (CPU and CRT).** `OP::from_str` reads `noop` and `addx v`. A `Program` is modelled as a
  class with the fields `pc`, `cycle_pc`, `x_reg`, `signal_strength` and `pixel_buffer`. Its methods
  update those fields one cycle at a time. Part one returns the signal strength, part two the pixels.
- **Day 11 (monkeys).**
  - Each six-line descriptor is read into a `Monkey`. The class has the mutable fields `items` and
    `inspected`, and a constant `Rule`: the operation, the divisor of the test, the two targets, and
    the relief divisor `worry_div_by`.
  - The rounds run the monkeys in index order. Each monkey inspects and throws its items one at a
    time, and each item goes to the back of its target's queue.
  - The answer is the product of the two largest inspection counts. Part one divides worry levels
    by 3 and plays 20 rounds. Part two plays 10000 rounds and keeps worry levels modulo the product
    of all divisors.

Every imperative method is proved against a specification function of the same state:

| method | specification function |
|---|---|
| `Day11.Monkey.Inspect` | `Inspected` |
| `Day11.ThrowItem` | `Throw` |
| `Day11.TakeTurn` | `Turn` |
| `Day11.PlayRound` | `RoundFrom` |
| `Day11.PlayRounds` | `Rounds` |
| `Day10.Program` methods | `Step`, `Advance`, `AddSignal`, `Draw` |

The lemmas then state what the program promises about those functions:
- item conservation, FIFO order and growing counters;
- that the part-two modulo saves every divisibility test;
- day 10's cycle invariants, and its agreement with an independent trace of `X`.

Day 11's operation parser reads a `-` operation with the prefix `"+ "` (`day11/src/main.rs:100`), so
no subtraction can ever be read. The model keeps this as the code is written; `ParseOperationNoSub`
and `ParseOperationText` state the consequence.

## Model

| member | source | states |
|---|---|---|
| Day1.ElfTotals | day1/src/main.rs:10-24 | The grouping loop's totals are exactly the totals of the line-by-line scan `Scan`. |
| Day1.TopThreeSum | day1/src/main.rs:26-30 | There is an answer exactly when there are at least three totals; otherwise `len() - 3` underflows and the program panics. |
| Day1.MostCalories | day1/src/main.rs:10-30 | The program's answer is the top-three sum of the scanned totals. |
| Day1.OneTotalPerEmptyLine | day1/src/main.rs:15-20 | The number of totals pushed equals the number of empty lines. |
| Day1.ScanLine | day1/src/main.rs:22-23 | A line that is not empty adds its value to the running total and pushes nothing. |
| Day1.ScanEmptyLine | day1/src/main.rs:15-19 | An empty line pushes the running total and resets it to 0. |
| Day1.ScanOpenGroup | day1/src/main.rs:14-24 | A run of non-empty lines adds their sum to the running total and pushes nothing. |
| Day1.ScanLayoutSnoc | day1/src/main.rs:14-24 | A group followed by an empty line pushes the group's sum. |
| Day1.ScanLayout | day1/src/main.rs:14-24 | For an input made of groups each closed by an empty line, total `g` is the sum of group `g`, and the running total ends at 0. |
| Day1.TotalsAreGroupSums | day1/src/main.rs:14-24 | With the program's own reading of a line (an `i32`, or 0 when it does not parse), each total is its group's sum; a trailing group with no empty line after it is not counted. |
| Day1.TopThreeSumOrdered | day1/src/main.rs:26-30 | Any three ordered totals at distinct positions add up to at most the answer. |
| Day1.TopThreeSumIsMaximal | day1/src/main.rs:26-30 | No three distinct elves carry more than the answer. |
| Day1.TopThreeSumFromTotals | day1/src/main.rs:26-30 | The answer is the sum of the last three sorted totals, which are a sub-multiset of the totals. |
| Day2.Shape.Score | day2/src/main.rs:22-28 | Rock scores 1, Paper 2 and Scissors 3, and only those shapes score those values. |
| Day2.Shape.Versus | day2/src/main.rs:63-82 | A game scores 0, 3 or 6. |
| Day2.Shape.ToLose | day2/src/main.rs:30-36 | The shape returned loses against this one: 0 for it, 6 for this one. |
| Day2.Shape.ToWin | day2/src/main.rs:38-44 | The shape returned beats this one: 6 for it, 0 for this one. |
| Day2.Shape.ToDraw | day2/src/main.rs:46-52 | The shape returned is this one, and it draws. |
| Day2.Shape.OutcomeRequired | day2/src/main.rs:54-61 | `X` gives a losing shape, `Z` a winning one, and every other text (`Y` included) a drawing one. |
| Day2.VersusDecides | day2/src/main.rs:71-81 | Two shapes with the same result against a third are the same shape. |
| Day2.VersusAntisymmetric | day2/src/main.rs:71-81 | A shape draws against itself, and the two results of a game add up to 6. |
| Day2.VersusCyclic | day2/src/main.rs:71-81 | The result table is `3 * ((score(a) - score(b) + 1) mod 3)`. |
| Day2.WinLoseInverse | day2/src/main.rs:30-44 | `to_win` and `to_lose` are inverse to each other. |
| Day2.FromStr | day2/src/main.rs:90-100 | `A`/`X` read as Rock, `B`/`Y` as Paper and `C`/`Z` as Scissors, and nothing else reads as a shape. |
| Day2.RoundScore | day2/src/main.rs:134-141 | A round scores between 1 and 9. |
| Day2.RoundScoreDecodes | day2/src/main.rs:134-141 | The player's shape and the game result can be read back from the round's score. |
| Day2.ParseRoundFields | day2/src/main.rs:113-116 | An accepted line is two shape letters around a space, and the round holds their shapes. |
| Day2.ParseRoundLetters | day2/src/main.rs:113-125 | Two shape letters around a space read as those shapes, with the arranged shape the outcome the second letter asks for. |
| Day2.ScoreLine | day2/src/main.rs:113-127 | One loop pass succeeds exactly when the line reads. It then adds the round's points under both readings. |
| Day2.Scores | day2/src/main.rs:110-128 | The two totals of the loop are the tally of the guide, or `None` when some line makes the program panic. |
| Day2.ParseRoundAccepts | day2/src/main.rs:113-116 | A line is accepted exactly when it is two shape letters around a space. |
| Day2.GuideAcceptsLetters | day2/src/main.rs:112-116 | The guide reads exactly when every line is two shape letters around a space. |
| Day2.TotalBounds | day2/src/main.rs:110-128 | Each total is between 1 and 9 points per round. |
| Day2.ReadingsAgree | day2/src/main.rs:119-127 | The two readings score a round alike exactly when the arranged shape is the written one. |
| Day3.CharRange | day3/src/main.rs:74-77 | A character range holds `n` consecutive characters. |
| Day3.Position | day3/src/main.rs:78 | `position` finds the first index holding the character (no earlier index holds it), and fails exactly when the character is absent. |
| Day3.Priority | day3/src/main.rs:72-79 | Every priority is between 1 and 52. |
| Day3.AlphabetEntries | day3/src/main.rs:74-77 | The alphabet is `a..z` followed by `A..Z`, 52 letters. |
| Day3.PriorityIsPosition | day3/src/main.rs:72-79 | A priority is one more than the alphabet position, or 1 for a character not in the alphabet. |
| Day3.PriorityNamesLetter | day3/src/main.rs:72-79 | A letter's priority indexes that letter in the alphabet: lower case 1-26, upper case 27-52. |
| Day3.SplitRucksack | day3/src/main.rs:68-70 | The halves put back together give the line, and the first half has `len / 2` characters. |
| Day3.PrioritiesStep | day3/src/main.rs:52-54 | Marking one more item marks its priority. |
| Day3.PrioritiesMembers | day3/src/main.rs:52-54 | A priority is marked exactly when some item of the compartment has it. |
| Day3.GetCommonItems | day3/src/main.rs:48-66 | The loops with the 52-slot mark array compute exactly `Common`. |
| Day3.CommonStep | day3/src/main.rs:56-62 | One more item of the second text is pushed exactly when its priority is marked and it is not yet collected. |
| Day3.CommonMembers | day3/src/main.rs:56-62 | A character is common exactly when it occurs in the second text and shares its priority with an item of the first. |
| Day3.CommonDistinct | day3/src/main.rs:56-62 | The common items hold no duplicates. |
| Day3.CommonLength | day3/src/main.rs:56-62 | There are no more common items than items in the second text. |
| Day3.FindInPrefix | day3/src/main.rs:56-62 | A character found in a prefix is found at the same place in the whole text. |
| Day3.CommonOrder | day3/src/main.rs:56-62 | The common items are in the order of their first occurrence in the second text. |
| Day3.CommonSelf | day3/src/main.rs:124-131 | A text's items in common with itself are exactly its distinct characters. |
| Day3.CommonDisjoint | day3/src/main.rs:124-131 | Letter texts with no letter in common have no common items. |
| Day3.SumPrioritiesBounds | day3/src/main.rs:43-46 | The sum of priorities is between 1 and 52 per item. |
| Day3.RucksackScoreBound | day3/src/main.rs:20-24 | A rucksack scores at most 52 per item of its second half. |
| Day3.PartOne | day3/src/main.rs:17-26 | The loop's total is the sum over the lines of the priorities of their common items. |
| Day3.BadgesMembers | day3/src/main.rs:32-35 | A badge is in the third line and shares its priority with an item of the second line, and that priority is also marked by the first line. |
| Day3.GroupsStep | day3/src/main.rs:31-38 | One more group of three lines adds its badges' priorities. |
| Day3.PartTwo | day3/src/main.rs:28-41 | The loop's total is the sum over groups of three lines, given a line count that is a multiple of 3. |
| Day3.LetterMarked | day3/src/main.rs:52-58 | For texts of letters, a letter's priority is marked exactly when the letter occurs in the text. |
| Day3.CommonOnly | day3/src/main.rs:56-62 | When only `c` among the items of `b` is marked, the common items are `[c]` if `b` holds `c` and empty otherwise. |
| Day3.CommonIsOne | day3/src/main.rs:48-66 | Two letter texts sharing exactly the letter `c` have `[c]` as their common items. |
| Day3.BadgeIsOne | day3/src/main.rs:32-35 | Three letter texts whose third shares exactly `c` with both others have the badge `[c]`. |
| Day3.ExampleRucksacks | day3/src/main.rs:140-152 | The example's six rucksacks score 16, 38, 42, 22, 20 and 19, so the first answer is 157. |
| Day3.ExampleGroups | day3/src/main.rs:154-166 | The example's two groups have badges `r` and `Z`, so the second answer is 70. |
| Day4.DecimalHasNoSeparator | day4/src/main.rs:20-22 | A decimal number contains neither `-` nor `,`. |
| Day4.ParseRangeFormatted | day4/src/main.rs:21-27 | A range written `lo-hi` reads back as itself. |
| Day4.ParsePairFormatted | day4/src/main.rs:20-27 | A pair written `a-b,c-d` reads back as itself. |
| Day4.TestsSymmetric | day4/src/main.rs:29-31 | Both tests are symmetric in the two ranges, and each disjunct of the overlap test is the other with its operands swapped. |
| Day4.ContainedMeansInclusion | day4/src/main.rs:29-31 | For well-formed ranges, the containment test holds exactly when one range's sections all lie in the other. |
| Day4.OverlapsMeansShared | day4/src/main.rs:51-53 | For well-formed ranges, the overlap test holds exactly when some section lies in both. |
| Day4.ContainedOverlaps | day4/src/main.rs:29-53 | For well-formed ranges, containment implies overlap. |
| Day4.IllFormedContainedApart | day4/src/main.rs:24-53 | A reversed range such as `3-1` is accepted, and can be "contained" in a range it does not overlap. |
| Day4.CountContainedStep | day4/src/main.rs:29-33 | One more pair adds 1 exactly when it passes the containment test. |
| Day4.CountOverlappingStep | day4/src/main.rs:51-55 | One more pair adds 1 exactly when it passes the overlap test. |
| Day4.PartOne | day4/src/main.rs:17-37 | The counter loop returns the number of contained pairs, or `None` when some line makes the program panic. |
| Day4.PartTwo | day4/src/main.rs:39-59 | The counter loop returns the number of overlapping pairs, or `None` when some line makes the program panic. |
| Day4.CountsBounded | day4/src/main.rs:17-58 | Both counts are at most the number of pairs; with well-formed ranges, the first count is at most the second. |
| Day4.AnswersBounded | day4/src/main.rs:17-58 | Both answers are at most the number of lines; with well-formed ranges, part one's is at most part two's. |
| Day4.ParseDigitPair | day4/src/main.rs:20-27 | A line of four one-digit bounds reads as those ranges. |
| Day4.ExampleParses | day4/src/main.rs:67-74 | The example's six lines read as their six pairs. |
| Day4.ExampleCounts | day4/src/main.rs:67-76 | The example's pairs count 2 contained and 4 overlapping. |
| Day4.ExampleAnswers | day4/src/main.rs:65-77 | On the example, part one answers 2 and part two answers 4. |
| Day4.ParseSpelledPair | day4/src/main.rs:20-27 | Any line `a-b,c-d` of decimal `usize` bounds reads as those two ranges. |
| Day4.ExtendedParses | day4/src/main.rs:80-96 | The thirteen lines of the extended example, two-digit bounds included, read as their pairs. |
| Day4.ExtendedCounts | day4/src/main.rs:80-97 | Eight of the extended example's thirteen pairs overlap. |
| Day4.ExtendedAnswer | day4/src/main.rs:80-97 | On the extended example, part two answers 8. |
| Day10.ParseOpPrefix | day10/src/main.rs:15-28 | `from_str` accepts exactly `noop` and any text starting `addx `; the rest of the text is the value. |
| Day10.ParseNoop | day10/src/main.rs:19-20 | `noop` reads as `NOOP`. |
| Day10.ParseAddx | day10/src/main.rs:23-24 | `addx` followed by any `i32` reads as that addition. |
| Day10.ParseAddxUnreadable | day10/src/main.rs:24 | `addx` followed by a value that is not an `i32` reads as `Addx(0)`. |
| Day10.SignalCyclesEvery40 | day10/src/main.rs:83-84 | The signal cycles are the ones from 20 to 220 that are 20 more than a multiple of 40. |
| Day10.Pixel | day10/src/main.rs:101-105 | A pixel is `#` exactly when the column is within 1 of `X`, and `.` otherwise. |
| Day10.StepNoop | day10/src/main.rs:58-61 | `noop` advances `pc` by 1, keeps `X` and appends the one pixel drawn with the old `X`. |
| Day10.StepAddx | day10/src/main.rs:63-69 | `addx v` advances `pc` by 2, changes `X` by exactly `v`, and appends two pixels drawn with the old `X`. |
| Day10.AdvanceSignal | day10/src/main.rs:71-89 | A cycle increments `pc`. The signal strength grows by `pc * X` exactly when the new `pc` is a signal cycle, and is unchanged otherwise. |
| Day10.CycleConsistent | day10/src/main.rs:71-106 | A cycle keeps the buffer length at `pc - 1` and `cycle_pc == (pc - 1) % 40`, so `cycle_pc` stays below 40. |
| Day10.StepConsistent | day10/src/main.rs:50-69 | Every instruction keeps those invariants. |
| Day10.CycleFollows | day10/src/main.rs:71-106 | A cycle extends the trace of `X` by the current value and keeps the state in step with it. |
| Day10.InitialFollows | day10/src/main.rs:40-48 | The initial state agrees with the empty trace and `X = 1`. |
| Day10.StepFollows | day10/src/main.rs:50-69 | An instruction extends the trace by the `X` of each of its cycles. |
| Day10.RunFollowsTrace | day10/src/main.rs:126-152 | After any program, three things agree with the independent trace of `X`: the counters, every pixel, and the signal strength. |
| Day10.RunConsistent | day10/src/main.rs:126-152 | After any program, the buffer length and `cycle_pc` invariants hold. |
| Day10.Program.constructor | day10/src/main.rs:40-48 | A new program starts at `pc = 1`, `cycle_pc = 0`, `X = 1`, with signal 0 and an empty buffer. |
| Day10.Program.ExecuteOp | day10/src/main.rs:50-56 | It returns 0 and performs the instruction's step. |
| Day10.Program.NoopOp | day10/src/main.rs:58-61 | The fields are updated to one cycle of `noop`. |
| Day10.Program.AddxOp | day10/src/main.rs:63-69 | The fields are updated to the two cycles of `addx`, with `X` changed between the second pixel and the second increment. |
| Day10.Program.IncrementPc | day10/src/main.rs:71-80 | `pc` and `cycle_pc` advance, the column wraps at 40, then the signal check runs. |
| Day10.Program.CalcSignalStrength | day10/src/main.rs:82-89 | The signal strength grows by `pc * X` at a signal cycle, and nothing else changes. |
| Day10.Program.DrawPixel | day10/src/main.rs:100-106 | One pixel for the current column and `X` is pushed, and nothing else changes. |
| Day10.RunLines | day10/src/main.rs:127-138 | The instruction loop ends in the state of running every line, or `None` when a line makes the program panic. |
| Day10.PartOne | day10/src/main.rs:126-141 | The answer is the signal strength after all lines. |
| Day10.PartTwo | day10/src/main.rs:143-152 | The answer is the pixel buffer after all lines. |
| Day10.AnswersFollowTrace | day10/src/main.rs:126-152 | Part one's answer is the sum of the signal cycles' strengths computed from the trace of `X`. Part two's pixel `k` is `#` exactly when `k % 40` is within 1 of `X` during cycle `k + 1`. |
| Day11.Relieve | day11/src/main.rs:157-161 | With `worry_div_by == 1` the result is below the modulo and congruent to the worry level modulo it; otherwise it is at most the worry level. |
| Day11.ThrowTarget | day11/src/main.rs:164-170 | The target is `target_true` when the worry level is divisible by the test's divisor, and `target_false` otherwise. |
| Day11.ModOfMultiple | day11/src/main.rs:157-158 | When `d` divides `M`, `(x % M) % d == x % d`. |
| Day11.ApplyCongruent | day11/src/main.rs:148-153 | Every operation that can be read maps levels congruent modulo `m` to congruent levels. |
| Day11.InspectCongruent | day11/src/main.rs:146-170 | Inspecting congruent levels modulo `m` (reducing modulo `m`, or modulo any multiple of it) gives congruent results and the same target. |
| Day11.Throw | day11/src/main.rs:24-27 | One pass of the `while` loop keeps one queue and one count per monkey. |
| Day11.ThrowMoves | day11/src/main.rs:24-27 | The front item leaves the thrower's queue and its relieved worry joins the back of the target's queue; the target is another monkey; other queues are unchanged; only the thrower's count grows, by 1. |
| Day11.ThrowConserves | day11/src/main.rs:24-27 | A throw keeps the total number of items. |
| Day11.Turn | day11/src/main.rs:23-28 | After its turn a monkey holds no items. |
| Day11.TurnCounts | day11/src/main.rs:23-28 | A turn adds the length of the monkey's queue to its count and to no other, and keeps the total number of items. |
| Day11.RoundFrom | day11/src/main.rs:22-29 | The rest of a round keeps one queue and one count per monkey. |
| Day11.Rounds | day11/src/main.rs:22-30 | Playing any number of rounds keeps one queue and one count per monkey. |
| Day11.RoundFromConserves | day11/src/main.rs:22-29 | A round keeps the total number of items. |
| Day11.RoundsConserve | day11/src/main.rs:22-30 | Any number of rounds keeps the total number of items. |
| Day11.RoundFromCountsGrow | day11/src/main.rs:22-29 | No monkey's count decreases during a round. |
| Day11.RoundsCountsGrow | day11/src/main.rs:22-30 | No monkey's count decreases over any number of rounds. |
| Day11.ThrowCongruent | day11/src/main.rs:43-52 | Throws from troops congruent modulo `m` give congruent troops. This holds when the relief is modulo `m` or any multiple of `m`, and `m` is a multiple of every divisor. |
| Day11.TurnCongruent | day11/src/main.rs:43-52 | The same for a whole turn. |
| Day11.RoundFromCongruent | day11/src/main.rs:43-52 | The same for the rest of a round. |
| Day11.RoundsCongruent | day11/src/main.rs:43-53 | The same for any number of rounds, and the counts of inspections are equal. |
| Day11.ProductDivisible | day11/src/main.rs:43 | The product of all divisors is positive and a multiple of each of them. |
| Day11.TopTwoProductMaximal | day11/src/main.rs:32-33 | No two distinct monkeys' counts multiply to more than the answer. |
| Day11.TopTwoProductFromCounts | day11/src/main.rs:32-33 | The answer is attained: it is the product of the two largest sorted counts, which are counts the monkeys really have (a sub-multiset of them). |
| Day11.After | day11/src/main.rs:112-133 | A number read after its prefix is below the type's bound. |
| Day11.ParseItems | day11/src/main.rs:83-91 | A list of starting items that reads holds at least one item. |
| Day11.ParseOperationNoSub | day11/src/main.rs:98-101 | No text reads as a subtraction; a text starting with `-` always fails. |
| Day11.ParseOperationText | day11/src/main.rs:98-107 | `+ n` reads as `Add(n)`, `* n` as `Multi(n)` and `* old` as `MultiSelf`; `- n` fails. |
| Day11.ParseMultiText | day11/src/main.rs:102-105 | `* n` is not taken for `* old`: it reads as `Multi(n)`. |
| Day11.ParseMonkey | day11/src/main.rs:78-144 | An accepted descriptor carries the part's relief divisor, no subtraction, and at least one item. |
| Day11.ParseTroop | day11/src/main.rs:17-19 | There is one monkey per block between empty lines. |
| Day11.ParseItemsText | day11/src/main.rs:83-91 | A `", "`-separated list of `u64` values reads back as itself. |
| Day11.SplitMonkeyLines | day11/src/main.rs:79-81 | A descriptor in the puzzle's format splits into its six lines. |
| Day11.ParseMonkeyFormatted | day11/src/main.rs:78-144 | A descriptor in the puzzle's format reads back as its operation, divisor, targets and items, together with the part's relief divisor. |
| Day11.ParseTroopRules | day11/src/main.rs:17-41 | Every monkey read from an input carries the part's relief divisor and no subtraction. |
| Day11.Monkey.constructor | day11/src/main.rs:135-143 | A new monkey holds its rule and starting items, with no inspections. |
| Day11.Monkey.Inspect | day11/src/main.rs:146-162 | Exactly the front item is removed and the rest keep their order. The count grows by 1. The result is the item after the operation and the relief. |
| Day11.Monkey.GetThrowTarget | day11/src/main.rs:164-170 | The target chosen by the divisibility test. |
| Day11.ThrowItem | day11/src/main.rs:24-27 | Inspecting and pushing onto the target's back changes the monkeys exactly as one throw. |
| Day11.TakeTurn | day11/src/main.rs:23-28 | The `while` loop changes the monkeys exactly as a whole turn. |
| Day11.PlayRound | day11/src/main.rs:23-29 | The loop over the monkeys changes them exactly as a round. |
| Day11.PlayRounds | day11/src/main.rs:22-30 | The loop over the rounds changes the monkeys exactly as that many rounds. |
| Day11.MonkeyBusiness | day11/src/main.rs:32-33 | There is an answer exactly when there are at least two monkeys. |
| Day11.Build | day11/src/main.rs:17-19 | One new, distinct monkey per descriptor, holding its rule and starting items, with no inspections. |
| Day11.Simulate | day11/src/main.rs:22-33 | Playing the rounds on the monkeys and sorting the counts gives the monkey business computed by the specification. |
| Day11.PartOne | day11/src/main.rs:15-34 | The answer is the monkey business after 20 rounds that divide by 3, or `None` when the program panics in reading. |
| Day11.PartTwo | day11/src/main.rs:36-56 | The answer is the monkey business after 10000 rounds modulo the product of the divisors, or `None` when the program panics in reading. |
| Day11.PartTwoModuloSound | day11/src/main.rs:43-53 | Reducing modulo any positive multiple of the product of the divisors gives the same answer as reducing modulo the product itself. |

## Left out

- File reading, command-line arguments, `include_str!` of the puzzle input, and every `println!`/`print!`. This covers the debug prints in `draw_pixel` and `Monkey::new`, and the 40-column printing of the image. None of it affects the answers.
- `str::lines()` for days 1-4 and 10 is part of reading the file: those days take the input already split into lines, as `read_lines` returns them.
- Day11.ParseMonkey: a descriptor is split at `'\n'` only. Rust's `lines()` also drops a `'\r'` before each `'\n'`, so the model does not read descriptors with CRLF line endings, which the source reads. A trailing empty line changes nothing, because only the first six lines are read.
- Day3.SplitRucksack: a line is a sequence of characters, and the model halves the character count. Rust's `split_at(sack.len() / 2)` halves the UTF-8 byte length and panics when that is not a character boundary. The two agree on ASCII lines, and the model keeps that assumption.
- Machine integer widths. Values are unbounded, so these cases are not modelled:
  - an `i32` overflow of day 1's totals and day 10's `X`, products and signal;
  - a `u64` overflow of day 11's worry levels, counts or product of divisors;
  - a `usize` overflow of day 3's and day 4's totals.

  Parsing keeps the width bounds: `u64`, `usize` and `i32` values outside their range fail to parse, as in Rust.
- Day1.TopThreeSum: fewer than three totals give `None`, the panic of `len() - 3` in a debug build. A release build would wrap around and add 0 for the missing totals.
- Day1.ElfTotals: `elf_index` is kept as the source keeps it, but it is never read.
- Day3.PartTwo: requires a line count that is a multiple of 3; other counts make `input[i + 1]` or `input[i + 2]` panic.
- Day10: the example program's signal strength 13140 and its image are not proved. Running the whole example is a computation too large for the verifier.
- Day11: the examples' answers 10605 and 2713310158 are not proved. They need 20 and 10000 rounds of the simulation.
- Day11.PartOne and Day11.PartTwo require every monkey read to be playable:
  - its divisor is not 0;
  - both targets are other monkeys, within range.

  The source panics, or for a monkey throwing to itself loops forever, only when such a rule is actually used. For a rule that never fires, the source still finishes; this precondition excludes those inputs too.
- Day11.Monkey.Inspect: the `Sub` arm is modelled with a precondition that the item is at least the subtrahend (`item - n` underflows otherwise). No `Sub` can be read from a descriptor, so this case never arises.
- Day11.Simulate: the `sort_by` of the monkey vector (largest count first, then `[0] * [1]`) is modelled as the product of the last two counts in ascending order. `sort_by` is stable, but only the two largest values matter.
- Day11.Monkey.Inspect: the modulo of the second part is passed in, as the source passes it; `monkeys.iter().map().product()` is the function `Product`.
