/**
  Day 11: monkeys passing items. Each monkey holds a queue of worry levels; on its turn it takes
  every item from the front, applies its operation, reduces the result (divides it by 3, or in the
  second part takes it modulo the product of all divisors), and throws it to the back of one of
  two monkeys' queues depending on a divisibility test. The answer is the product of the two
  largest numbers of inspections.
 */
module Day11 {
  import opened Wrappers
  import opened Text
  import opened Seqs
  import opened Lines
  import opened Sorting

  /** The operation `new = old <op>`. The program can parse no `Sub` (see `ParseOperationNoSub`). */
  datatype Operation = Add(n: nat) | Sub(n: nat) | Multi(n: nat) | MultiSelf

  /** What a monkey's descriptor fixes: its operation, its test and its two targets, and the
      divisor of the first part's relief (1 selects the modulo of the second part). */
  datatype Rule = Rule(op: Operation, targetCond: nat, targetTrue: nat, targetFalse: nat, worryDivBy: nat)

  /** The operation applied to a worry level; a `Sub` below zero makes the program panic. */
  function Apply(op: Operation, item: nat): nat
    requires op.Sub? ==> item >= op.n
  {
    match op
    case Add(n) => item + n
    case Sub(n) => item - n
    case Multi(n) => item * n
    case MultiSelf => item * item
  }

  /** The relief step of `inspect`: with `worry_div_by == 1` the result is taken modulo `modulo`,
      otherwise divided by `worry_div_by`. */
  function Relieve(worryDivBy: nat, modulo: nat, worry: nat): (r: nat)
    requires worryDivBy > 0 && (worryDivBy == 1 ==> modulo > 0)
    ensures worryDivBy == 1 ==> r < modulo && r % modulo == worry % modulo
    ensures worryDivBy != 1 ==> r <= worry
  {
    if worryDivBy == 1 then
      ModIdempotent(worry, modulo);
      worry % modulo
    else
      DivAtMost(worry, worryDivBy);
      worry / worryDivBy
  }

  lemma {:induction false} ModIdempotent(x: nat, m: nat)
    requires m > 0
    ensures (x % m) % m == x % m
  {
    DivUnique(x % m, m, 0, x % m);
  }

  lemma {:induction false} DivAtMost(x: nat, d: nat)
    requires d > 0
    ensures x / d <= x
  {
    var q := x / d;
    if q >= 1 {
      MulAtLeast(q, d);
      MulAtLeast(d, q);
    }
  }

  /** The worry level an item has when the monkey with `rule` has inspected it. */
  function Inspected(rule: Rule, modulo: nat, item: nat): nat
    requires rule.worryDivBy > 0 && (rule.worryDivBy == 1 ==> modulo > 0)
    requires rule.op.Sub? ==> item >= rule.op.n
  {
    Relieve(rule.worryDivBy, modulo, Apply(rule.op, item))
  }

  /** `get_throw_target`: the first target when the test's divisor divides the worry level. */
  function ThrowTarget(rule: Rule, item: nat): (t: nat)
    requires rule.targetCond > 0
    ensures item % rule.targetCond == 0 ==> t == rule.targetTrue
    ensures item % rule.targetCond != 0 ==> t == rule.targetFalse
  {
    if item % rule.targetCond == 0 then rule.targetTrue else rule.targetFalse
  }

  /** Reducing modulo a multiple of `d` leaves the remainder modulo `d` unchanged. */
  lemma {:induction false} ModOfMultiple(x: nat, m: nat, d: nat)
    requires d > 0 && m > 0 && m % d == 0
    ensures (x % m) % d == x % d
  {
    var k: nat := m / d;
    assert m == k * d;
    var q: nat := x / m;
    assert x == q * m + x % m;
    MulNonneg(q, k);
    var qk: nat := q * k;
    assert x == qk * d + x % m by {
      assert q * m == q * (k * d) == (q * k) * d;
    }
    ModAddMultiple(x % m, qk, d);
  }

  lemma MulNonneg(a: nat, b: nat)
    ensures a * b >= 0
  {
  }

  /** Adding a multiple of `d` leaves the remainder modulo `d` unchanged. */
  lemma {:induction false} ModAddMultiple(r: nat, k: nat, d: nat)
    requires d > 0
    ensures (k * d + r) % d == r % d
  {
    var y := k * d + r;
    assert y == (k + r / d) * d + r % d by {
      assert r == (r / d) * d + r % d;
      assert (k + r / d) * d == k * d + (r / d) * d;
    }
    assert 0 <= r % d < d;
    DivUnique(y, d, k + r / d, r % d);
  }

  /** Euclidean division is unique. */
  lemma {:induction false} DivUnique(y: int, d: int, q: int, r: int)
    requires d > 0 && y == q * d + r && 0 <= r < d
    ensures y % d == r && y / d == q
  {
    var q', r' := y / d, y % d;
    var e := q - q';
    assert e * d == r' - r by {
      MulSub(q, q', d);
    }
    if e >= 1 {
      MulAtLeast(e, d);
    } else if e <= -1 {
      MulAtLeast(-e, d);
    }
  }

  lemma MulSub(a: int, b: int, d: int)
    ensures (a - b) * d == a * d - b * d
  {
  }

  lemma MulAtLeast(e: int, d: int)
    requires e >= 1 && d > 0
    ensures e * d >= d
  {
  }

  lemma MulShape(k: int, m: int, r: int, c: int)
    ensures (k * m + r) * c == (k * c) * m + r * c
  {
  }

  lemma {:induction false} ModOfShape(k: nat, m: nat, r: nat, c: nat)
    requires m > 0
    ensures ((k * m + r) * c) % m == (r * c) % m
  {
    MulShape(k, m, r, c);
    ModAddMultiple(r * c, k * c, m);
  }

  /** Multiplying by the same factor respects congruence modulo `m`. */
  lemma {:induction false} MulCongruent(a: nat, b: nat, c: nat, m: nat)
    requires m > 0 && a % m == b % m
    ensures (a * c) % m == (b * c) % m
  {
    var ka, kb := a / m, b / m;
    var ra, rb := a % m, b % m;
    assert a == ka * m + ra && b == kb * m + rb;
    ModOfShape(ka, m, ra, c);
    ModOfShape(kb, m, rb, c);
  }

  /** Adding the same amount respects congruence modulo `m`. */
  lemma {:induction false} AddCongruent(a: nat, b: nat, c: nat, m: nat)
    requires m > 0 && a % m == b % m
    ensures (a + c) % m == (b + c) % m
  {
    var ka, kb := a / m, b / m;
    var ra, rb := a % m, b % m;
    var xa, xb := ka * m + ra + c, kb * m + rb + c;
    assert xa == a + c && xb == b + c;
    ModOfSum(ka, m, ra, c);
    ModOfSum(kb, m, rb, c);
  }

  lemma {:induction false} ModOfSum(k: nat, m: nat, r: nat, c: nat)
    requires m > 0
    ensures (k * m + r + c) % m == (r + c) % m
  {
    ModAddMultiple(r + c, k, m);
  }

  /** The operations that the program can parse respect congruence modulo `m`. */
  lemma {:induction false} ApplyCongruent(op: Operation, a: nat, b: nat, m: nat)
    requires !op.Sub? && m > 0 && a % m == b % m
    ensures Apply(op, a) % m == Apply(op, b) % m
  {
    match op
    case Add(n) => AddCongruent(a, b, n, m);
    case Multi(n) => MulCongruent(a, b, n, m);
    case MultiSelf =>
      MulCongruent(a, b, a, m);
      MulCongruent(a, b, b, m);
      assert b * a == a * b;
  }

  /** The precondition of a run: every monkey's operation can be applied, its divisor is not 0, both
      of its targets are other monkeys (an index out of range panics and a monkey throwing to
      itself would never finish its turn), and its relief can be computed. */
  predicate Playable(rules: seq<Rule>, modulo: nat) {
    forall i :: 0 <= i < |rules| ==> RulePlayable(rules[i], i, |rules|, modulo)
  }

  predicate RulePlayable(rule: Rule, i: nat, n: nat, modulo: nat) {
    && !rule.op.Sub? && rule.targetCond > 0
    && rule.targetTrue < n && rule.targetFalse < n && rule.targetTrue != i && rule.targetFalse != i
    && rule.worryDivBy > 0 && (rule.worryDivBy == 1 ==> modulo > 0)
  }

  /** The changing part of the monkeys: each one's queue of items and its count of inspections. */
  datatype Troop = Troop(queues: seq<seq<nat>>, counts: seq<nat>)

  predicate Shaped(rules: seq<Rule>, troop: Troop) {
    |troop.queues| == |rules| && |troop.counts| == |rules|
  }

  /** One pass of the `while` loop: monkey `i` inspects its front item and throws it to the back of
      its target's queue. */
  function Throw(rules: seq<Rule>, modulo: nat, troop: Troop, i: nat): (r: Troop)
    requires Playable(rules, modulo) && Shaped(rules, troop) && i < |rules| && troop.queues[i] != []
    ensures Shaped(rules, r)
  {
    var worry := Inspected(rules[i], modulo, troop.queues[i][0]);
    var target := ThrowTarget(rules[i], worry);
    var queues := troop.queues[i := troop.queues[i][1..]];
    Troop(queues[target := queues[target] + [worry]], troop.counts[i := troop.counts[i] + 1])
  }

  /** Monkey `i`'s turn: it throws until its queue is empty. */
  function Turn(rules: seq<Rule>, modulo: nat, troop: Troop, i: nat): (r: Troop)
    requires Playable(rules, modulo) && Shaped(rules, troop) && i < |rules|
    ensures Shaped(rules, r) && r.queues[i] == []
    decreases |troop.queues[i]|
  {
    if troop.queues[i] == [] then troop
    else
      var next := Throw(rules, modulo, troop, i);
      assert |next.queues[i]| < |troop.queues[i]|;
      Turn(rules, modulo, next, i)
  }

  /** The turns of monkeys `i`, `i + 1`, ... in index order: the rest of a round. */
  function RoundFrom(rules: seq<Rule>, modulo: nat, troop: Troop, i: nat): (r: Troop)
    requires Playable(rules, modulo) && Shaped(rules, troop) && i <= |rules|
    ensures Shaped(rules, r)
    decreases |rules| - i
  {
    if i == |rules| then troop else RoundFrom(rules, modulo, Turn(rules, modulo, troop, i), i + 1)
  }

  /** `rounds` rounds, each the turns of all monkeys in index order. */
  function Rounds(rules: seq<Rule>, modulo: nat, troop: Troop, rounds: nat): (r: Troop)
    requires Playable(rules, modulo) && Shaped(rules, troop)
    ensures Shaped(rules, r)
    decreases rounds
  {
    if rounds == 0 then troop else Rounds(rules, modulo, RoundFrom(rules, modulo, troop, 0), rounds - 1)
  }

  /** The number of items held by all monkeys together. */
  function TotalItems(queues: seq<seq<nat>>): nat {
    if queues == [] then 0 else TotalItems(queues[..|queues| - 1]) + |queues[|queues| - 1]|
  }

  lemma {:induction false} TotalItemsUpdate(queues: seq<seq<nat>>, j: nat, q: seq<nat>)
    requires j < |queues|
    ensures TotalItems(queues[j := q]) + |queues[j]| == TotalItems(queues) + |q|
    decreases |queues|
  {
    var n := |queues| - 1;
    var updated := queues[j := q];
    assert updated[..n] == if j < n then queues[..n][j := q] else queues[..n];
    if j < n {
      TotalItemsUpdate(queues[..n], j, q);
    }
  }

  /** A throw moves one item from one queue to another: no item is lost or made. */
  lemma {:induction false} ThrowConserves(rules: seq<Rule>, modulo: nat, troop: Troop, i: nat)
    requires Playable(rules, modulo) && Shaped(rules, troop) && i < |rules| && troop.queues[i] != []
    ensures TotalItems(Throw(rules, modulo, troop, i).queues) == TotalItems(troop.queues)
  {
    var worry := Inspected(rules[i], modulo, troop.queues[i][0]);
    var target := ThrowTarget(rules[i], worry);
    var queues := troop.queues[i := troop.queues[i][1..]];
    TotalItemsUpdate(troop.queues, i, troop.queues[i][1..]);
    TotalItemsUpdate(queues, target, queues[target] + [worry]);
  }

  /** A throw takes the front item of the thrower, appends its new worry level at the back of the
      target's queue, counts one inspection for the thrower, and leaves everything else as it was. */
  lemma {:induction false} ThrowMoves(rules: seq<Rule>, modulo: nat, troop: Troop, i: nat)
    requires Playable(rules, modulo) && Shaped(rules, troop) && i < |rules| && troop.queues[i] != []
    ensures var r := Throw(rules, modulo, troop, i);
      var worry := Inspected(rules[i], modulo, troop.queues[i][0]);
      var target := ThrowTarget(rules[i], worry);
      && target != i
      && r.queues[i] == troop.queues[i][1..]
      && r.queues[target] == troop.queues[target] + [worry]
      && (forall k :: 0 <= k < |rules| && k != i && k != target ==> r.queues[k] == troop.queues[k])
      && r.counts == troop.counts[i := troop.counts[i] + 1]
  {
  }

  /** A turn counts one inspection per item the monkey held at its start, and changes no other
      monkey's count. */
  lemma {:induction false} TurnCounts(rules: seq<Rule>, modulo: nat, troop: Troop, i: nat)
    requires Playable(rules, modulo) && Shaped(rules, troop) && i < |rules|
    ensures Turn(rules, modulo, troop, i).counts == troop.counts[i := troop.counts[i] + |troop.queues[i]|]
    ensures TotalItems(Turn(rules, modulo, troop, i).queues) == TotalItems(troop.queues)
    decreases |troop.queues[i]|
  {
    if troop.queues[i] != [] {
      var next := Throw(rules, modulo, troop, i);
      ThrowMoves(rules, modulo, troop, i);
      ThrowConserves(rules, modulo, troop, i);
      TurnCounts(rules, modulo, next, i);
    }
  }

  /** Rounds only move items around: the total is the same at the end. */
  lemma {:induction false} RoundsConserve(rules: seq<Rule>, modulo: nat, troop: Troop, rounds: nat)
    requires Playable(rules, modulo) && Shaped(rules, troop)
    ensures TotalItems(Rounds(rules, modulo, troop, rounds).queues) == TotalItems(troop.queues)
    decreases rounds
  {
    if rounds > 0 {
      RoundFromConserves(rules, modulo, troop, 0);
      RoundsConserve(rules, modulo, RoundFrom(rules, modulo, troop, 0), rounds - 1);
    }
  }

  lemma {:induction false} RoundFromConserves(rules: seq<Rule>, modulo: nat, troop: Troop, i: nat)
    requires Playable(rules, modulo) && Shaped(rules, troop) && i <= |rules|
    ensures TotalItems(RoundFrom(rules, modulo, troop, i).queues) == TotalItems(troop.queues)
    decreases |rules| - i
  {
    if i < |rules| {
      TurnCounts(rules, modulo, troop, i);
      RoundFromConserves(rules, modulo, Turn(rules, modulo, troop, i), i + 1);
    }
  }

  /** No monkey's count of inspections ever goes down during a round. */
  lemma {:induction false} RoundFromCountsGrow(rules: seq<Rule>, modulo: nat, troop: Troop, i: nat)
    requires Playable(rules, modulo) && Shaped(rules, troop) && i <= |rules|
    ensures forall k :: 0 <= k < |rules| ==> RoundFrom(rules, modulo, troop, i).counts[k] >= troop.counts[k]
    decreases |rules| - i
  {
    if i < |rules| {
      TurnCounts(rules, modulo, troop, i);
      RoundFromCountsGrow(rules, modulo, Turn(rules, modulo, troop, i), i + 1);
    }
  }

  /** ... nor over any number of rounds. */
  lemma {:induction false} RoundsCountsGrow(rules: seq<Rule>, modulo: nat, troop: Troop, rounds: nat)
    requires Playable(rules, modulo) && Shaped(rules, troop)
    ensures forall k :: 0 <= k < |rules| ==> Rounds(rules, modulo, troop, rounds).counts[k] >= troop.counts[k]
    decreases rounds
  {
    if rounds > 0 {
      RoundFromCountsGrow(rules, modulo, troop, 0);
      RoundsCountsGrow(rules, modulo, RoundFrom(rules, modulo, troop, 0), rounds - 1);
    }
  }

  /** Two configurations that agree on the counts and on the number of items in every queue, and
      whose items agree modulo `m` position by position. */
  ghost predicate Congruent(a: Troop, b: Troop, m: nat)
    requires m > 0
  {
    && |a.queues| == |b.queues| && a.counts == b.counts
    && (forall i :: 0 <= i < |a.queues| ==> |a.queues[i]| == |b.queues[i]|)
    && (forall i, k :: 0 <= i < |a.queues| && 0 <= k < |a.queues[i]| && k < |b.queues[i]| ==>
          a.queues[i][k] % m == b.queues[i][k] % m)
  }

  /** Every monkey relieves worry by the modulo, as in the second part, and every test's divisor
      divides `m`. */
  predicate ModuloRules(rules: seq<Rule>, m: nat) {
    forall i :: 0 <= i < |rules| ==> rules[i].worryDivBy == 1 && rules[i].targetCond > 0 && m % rules[i].targetCond == 0
  }

  /** The remainders modulo `m` of the worry levels decide every throw, whichever multiple of `m` the
      program reduces by. */
  lemma {:induction false} InspectCongruent(rule: Rule, m: nat, m': nat, x: nat, y: nat)
    requires !rule.op.Sub? && rule.worryDivBy == 1 && rule.targetCond > 0
    requires m > 0 && m' > 0 && m % rule.targetCond == 0 && m' % m == 0 && x % m == y % m
    ensures Inspected(rule, m, x) % m == Inspected(rule, m', y) % m
    ensures ThrowTarget(rule, Inspected(rule, m, x)) == ThrowTarget(rule, Inspected(rule, m', y))
  {
    var d := rule.targetCond;
    var wa, wb := Inspected(rule, m, x), Inspected(rule, m', y);
    ApplyCongruent(rule.op, x, y, m);
    ModOfMultiple(Apply(rule.op, y), m', m);
    ModIdempotent(Apply(rule.op, x), m);
    assert wa % m == wb % m;
    ModOfMultiple(wa, m, d);
    ModOfMultiple(wb, m, d);
  }

  lemma {:induction false} ThrowCongruent(rules: seq<Rule>, m: nat, m': nat, a: Troop, b: Troop, i: nat)
    requires m > 0 && m' > 0 && m' % m == 0
    requires Playable(rules, m) && Playable(rules, m') && ModuloRules(rules, m)
    requires Shaped(rules, a) && Shaped(rules, b) && Congruent(a, b, m)
    requires i < |rules| && a.queues[i] != []
    ensures b.queues[i] != []
    ensures Congruent(Throw(rules, m, a, i), Throw(rules, m', b, i), m)
  {
    assert |b.queues[i]| == |a.queues[i]|;
    var ra, rb := Throw(rules, m, a, i), Throw(rules, m', b, i);
    var wa, wb := Inspected(rules[i], m, a.queues[i][0]), Inspected(rules[i], m', b.queues[i][0]);
    InspectCongruent(rules[i], m, m', a.queues[i][0], b.queues[i][0]);
    var t := ThrowTarget(rules[i], wa);
    ThrowMoves(rules, m, a, i);
    ThrowMoves(rules, m', b, i);
    forall j, k | 0 <= j < |ra.queues| && 0 <= k < |ra.queues[j]| && k < |rb.queues[j]|
      ensures ra.queues[j][k] % m == rb.queues[j][k] % m
    {
      if j == i {
        assert ra.queues[j][k] == a.queues[i][k + 1] && rb.queues[j][k] == b.queues[i][k + 1];
      } else if j == t && k == |a.queues[t]| {
        assert ra.queues[j][k] == wa && rb.queues[j][k] == wb;
      } else if j == t {
        assert ra.queues[j][k] == a.queues[t][k] && rb.queues[j][k] == b.queues[t][k];
      }
    }
  }

  lemma {:induction false} TurnCongruent(rules: seq<Rule>, m: nat, m': nat, a: Troop, b: Troop, i: nat)
    requires m > 0 && m' > 0 && m' % m == 0
    requires Playable(rules, m) && Playable(rules, m') && ModuloRules(rules, m)
    requires Shaped(rules, a) && Shaped(rules, b) && Congruent(a, b, m) && i < |rules|
    ensures Congruent(Turn(rules, m, a, i), Turn(rules, m', b, i), m)
    decreases |a.queues[i]|
  {
    if a.queues[i] != [] {
      ThrowCongruent(rules, m, m', a, b, i);
      ThrowMoves(rules, m, a, i);
      TurnCongruent(rules, m, m', Throw(rules, m, a, i), Throw(rules, m', b, i), i);
    } else {
      assert b.queues[i] == [];
    }
  }

  lemma {:induction false} RoundFromCongruent(rules: seq<Rule>, m: nat, m': nat, a: Troop, b: Troop, i: nat)
    requires m > 0 && m' > 0 && m' % m == 0
    requires Playable(rules, m) && Playable(rules, m') && ModuloRules(rules, m)
    requires Shaped(rules, a) && Shaped(rules, b) && Congruent(a, b, m) && i <= |rules|
    ensures Congruent(RoundFrom(rules, m, a, i), RoundFrom(rules, m', b, i), m)
    decreases |rules| - i
  {
    if i < |rules| {
      TurnCongruent(rules, m, m', a, b, i);
      RoundFromCongruent(rules, m, m', Turn(rules, m, a, i), Turn(rules, m', b, i), i + 1);
    }
  }

  /** Why the second part may reduce modulo the product of the divisors: reducing modulo any common
      multiple `m'` of a common multiple `m` of the tests' divisors makes the same throws, so the
      inspection counts are the same, and the items agree modulo `m` throughout. */
  lemma {:induction false} RoundsCongruent(rules: seq<Rule>, m: nat, m': nat, a: Troop, b: Troop, rounds: nat)
    requires m > 0 && m' > 0 && m' % m == 0
    requires Playable(rules, m) && Playable(rules, m') && ModuloRules(rules, m)
    requires Shaped(rules, a) && Shaped(rules, b) && Congruent(a, b, m)
    ensures Congruent(Rounds(rules, m, a, rounds), Rounds(rules, m', b, rounds), m)
    ensures Rounds(rules, m, a, rounds).counts == Rounds(rules, m', b, rounds).counts
    decreases rounds
  {
    if rounds > 0 {
      RoundFromCongruent(rules, m, m', a, b, 0);
      RoundsCongruent(rules, m, m', RoundFrom(rules, m, a, 0), RoundFrom(rules, m', b, 0), rounds - 1);
    }
  }

  lemma {:induction false} CongruentReflexive(a: Troop, m: nat)
    requires m > 0
    ensures Congruent(a, a, m)
  {
  }

  /** The product of the tests' divisors: the modulo of the second part. */
  function Product(rules: seq<Rule>): nat {
    if rules == [] then 1 else Product(rules[..|rules| - 1]) * rules[|rules| - 1].targetCond
  }

  lemma {:induction false} MultipleTimes(x: nat, k: nat, d: nat)
    requires d > 0 && x % d == 0
    ensures (x * k) % d == 0
  {
    var q := x / d;
    assert x == q * d;
    var y := x * k;
    assert y == (q * k) * d by {
      assert x * k == (q * d) * k == (q * k) * d;
    }
    DivUnique(y, d, q * k, 0);
  }

  /** Every test's divisor divides the product, so the product is a common multiple of them. */
  lemma {:induction false} ProductDivisible(rules: seq<Rule>, i: nat)
    requires i < |rules| && forall k :: 0 <= k < |rules| ==> rules[k].targetCond > 0
    ensures Product(rules) > 0 && Product(rules) % rules[i].targetCond == 0
    decreases |rules|
  {
    var n := |rules| - 1;
    var rest := rules[..n];
    assert forall k :: 0 <= k < n ==> rest[k] == rules[k];
    ProductPositive(rest);
    var p, c := Product(rest), rules[n].targetCond;
    assert Product(rules) == p * c;
    if i == n {
      DivUnique(p * c, c, p, 0);
    } else {
      ProductDivisible(rest, i);
      MultipleTimes(p, c, rules[i].targetCond);
    }
  }

  lemma {:induction false} ProductPositive(rules: seq<Rule>)
    requires forall k :: 0 <= k < |rules| ==> rules[k].targetCond > 0
    ensures Product(rules) > 0
    decreases |rules|
  {
    if rules != [] {
      var n := |rules| - 1;
      assert forall k :: 0 <= k < n ==> rules[..n][k] == rules[k];
      ProductPositive(rules[..n]);
      MulAtLeast(Product(rules[..n]), rules[n].targetCond);
    }
  }

  /** The answer: the product of the two largest inspection counts (the first two after sorting the
      monkeys by count, largest first). */
  function TopTwoProduct(counts: seq<nat>): nat
    requires |counts| >= 2
  {
    var sorted := SortAsc(counts);
    var a, b := sorted[|sorted| - 1], sorted[|sorted| - 2];
    assert a >= 0 && b >= 0 by {
      SortedFromNats(counts);
    }
    a * b
  }

  lemma {:induction false} SortedFromNats(counts: seq<nat>)
    ensures forall k :: 0 <= k < |SortAsc(counts)| ==> SortAsc(counts)[k] >= 0
  {
    SortAscPermutes(counts);
    forall k | 0 <= k < |SortAsc(counts)|
      ensures SortAsc(counts)[k] >= 0
    {
      var x := SortAsc(counts)[k];
      assert x in multiset(SortAsc(counts));
      assert x in multiset(counts);
      var j :| 0 <= j < |counts| && counts[j] == x;
    }
  }

  lemma MulMonotone(a: nat, b: nat, c: nat, d: nat)
    requires a <= c && b <= d
    ensures a * b <= c * d
  {
    assert a * b <= c * b;
    assert c * b <= c * d;
  }

  lemma MulCommutes(a: int, b: int)
    ensures a * b == b * a
  {
  }

  /** No two monkeys together inspected more than the answer says. */
  lemma {:induction false} TopTwoProductMaximal(counts: seq<nat>, i: nat, j: nat)
    requires i < |counts| && j < |counts| && i != j
    ensures |counts| >= 2 && counts[i] * counts[j] <= TopTwoProduct(counts)
  {
    var sorted := SortAsc(counts);
    SortedFromNats(counts);
    var top, second := sorted[|sorted| - 1], sorted[|sorted| - 2];
    assert TopTwoProduct(counts) == top * second;
    var x, y := counts[i], counts[j];
    if y <= x {
      TopTwoBound(counts, i, j);
      MulMonotone(x, y, top, second);
    } else {
      TopTwoBound(counts, j, i);
      MulMonotone(y, x, top, second);
      MulCommutes(x, y);
    }
  }

  /** The answer is attained: it is the product of two counts that the monkeys really have,
      the last two entries of the sorted counts. */
  lemma {:induction false} TopTwoProductFromCounts(counts: seq<nat>)
    requires |counts| >= 2
    ensures var sorted := SortAsc(counts); var top := sorted[|sorted| - 2..];
      multiset(top) <= multiset(counts) && TopTwoProduct(counts) == top[0] * top[1]
  {
    var sorted := SortAsc(counts);
    var n := |sorted|;
    SortAscPermutes(counts);
    SortedFromNats(counts);
    assert sorted == sorted[..n - 2] + sorted[n - 2..];
    MulCommutes(sorted[n - 1], sorted[n - 2]);
  }

  // Reading the descriptors.

  const ItemsPrefix := "  Starting items: "
  const OperationPrefix := "  Operation: new = old "
  const TestPrefix := "  Test: divisible by "
  const TruePrefix := "    If true: throw to monkey "
  const FalsePrefix := "    If false: throw to monkey "

  /** The number after `prefix`, parsed below `bound`; `None` when the prefix is missing or the
      rest is no such number (both make the program panic). */
  function After(line: string, prefix: string, bound: nat): (r: Option<nat>)
    ensures r.Some? ==> r.value < bound
  {
    match StripPrefix(line, prefix)
    case None => None
    case Some(rest) => ParseUnsigned(rest, bound)
  }

  function ParseU64(s: string): (r: Option<nat>)
    ensures r.Some? ==> r.value < U64_BOUND
  {
    ParseUnsigned(s, U64_BOUND)
  }

  /** The starting items: the pieces between `", "`, each a `u64`. There is always at least one. */
  function ParseItems(s: string): (r: Option<seq<nat>>)
    ensures r.Some? ==> |r.value| > 0
  {
    ParseEach(SplitOn(s, ", "), ParseU64)
  }

  /** The operation, chosen by its first character. A `-` is read with the `+ ` prefix, which its
      text never has, so no `Sub` can be read; `* old` (any `*` text ending in ` old`) squares. */
  function ParseOperation(s: string): Option<Operation> {
    if s == [] then None
    else if s[0] == '+' then
      (match After(s, "+ ", U64_BOUND) case Some(n) => Some(Add(n)) case None => None)
    else if s[0] == '-' then
      (match After(s, "+ ", U64_BOUND) case Some(n) => Some(Sub(n)) case None => None)
    else if s[0] == '*' then
      if EndsWith(s, " old") then Some(MultiSelf)
      else (match After(s, "* ", U64_BOUND) case Some(n) => Some(Multi(n)) case None => None)
    else None
  }

  /** No text reads as a subtraction: the `-` branch always fails. */
  lemma {:induction false} ParseOperationNoSub(s: string)
    ensures ParseOperation(s).Some? ==> !ParseOperation(s).value.Sub?
    ensures |s| > 0 && s[0] == '-' ==> ParseOperation(s) == None
  {
    if |s| >= 2 && s[0] == '-' {
      assert s[..2][0] == '-';
    }
  }

  /** The text of an operation in the puzzle's format. */
  function OperationText(op: Operation): string {
    match op
    case Add(n) => "+ " + Decimal(n)
    case Sub(n) => "- " + Decimal(n)
    case Multi(n) => "* " + Decimal(n)
    case MultiSelf => "* old"
  }

  /** Every operation but a subtraction reads back from its text; a subtraction's text fails. */
  lemma {:induction false} ParseOperationText(op: Operation)
    requires (op.Add? || op.Sub? || op.Multi?) ==> op.n < U64_BOUND
    ensures op.Sub? ==> ParseOperation(OperationText(op)) == None
    ensures !op.Sub? ==> ParseOperation(OperationText(op)) == Some(op)
  {
    match op
    case Add(n) =>
      StripPrefixConcat("+ ", Decimal(n));
      ParseUnsignedDecimal(n, U64_BOUND);
    case Sub(n) =>
      ParseOperationNoSub(OperationText(op));
    case Multi(n) =>
      ParseMultiText(n);
    case MultiSelf =>
  }

  /** A factor's text ends in a digit, so it is not read as `* old`. */
  lemma {:induction false} ParseMultiText(n: nat)
    requires n < U64_BOUND
    ensures ParseOperation(OperationText(Multi(n))) == Some(Multi(n))
  {
    var t := OperationText(Multi(n));
    DecimalOnlyDigits(n);
    assert t[|t| - 1] == Decimal(n)[|Decimal(n)| - 1];
    if |t| >= 4 {
      assert t[|t| - 4..][3] == t[|t| - 1];
    }
    StripPrefixConcat("* ", Decimal(n));
    ParseUnsignedDecimal(n, U64_BOUND);
  }

  function ItemsLine(line: string): Option<seq<nat>> {
    match StripPrefix(line, ItemsPrefix)
    case None => None
    case Some(rest) => ParseItems(rest)
  }

  function OperationLine(line: string): Option<Operation> {
    match StripPrefix(line, OperationPrefix)
    case None => None
    case Some(rest) => ParseOperation(rest)
  }

  /** `Monkey::new`: a descriptor's lines after the header give the starting items, the operation,
      the test's divisor and the two targets; `None` wherever the program panics. */
  function ParseMonkey(descriptor: string, worryDivBy: nat): (r: Option<(Rule, seq<nat>)>)
    ensures r.Some? ==> r.value.0.worryDivBy == worryDivBy && !r.value.0.op.Sub? && |r.value.1| > 0
  {
    var lines := SplitOn(descriptor, "\n");
    if |lines| < 6 then None
    else
      ParseOperationNoSub(StripPrefix(lines[2], OperationPrefix).GetOr(""));
      match (ItemsLine(lines[1]), OperationLine(lines[2]), After(lines[3], TestPrefix, U64_BOUND),
             After(lines[4], TruePrefix, USIZE_BOUND), After(lines[5], FalsePrefix, USIZE_BOUND))
      case (Some(items), Some(op), Some(cond), Some(yes), Some(no)) =>
        Some((Rule(op, cond, yes, no, worryDivBy), items))
      case _ => None
  }

  /** The reader of one descriptor, as a function value for `ParseEach`. */
  function MonkeyReader(worryDivBy: nat): string -> Option<(Rule, seq<nat>)> {
    descriptor => ParseMonkey(descriptor, worryDivBy)
  }

  /** The input: descriptors separated by an empty line. */
  function ParseTroop(input: string, worryDivBy: nat): (r: Option<seq<(Rule, seq<nat>)>>)
    ensures r.Some? ==> |r.value| == |SplitOn(input, "\n\n")|
  {
    ParseEach(SplitOn(input, "\n\n"), MonkeyReader(worryDivBy))
  }

  function DecimalsOf(items: seq<nat>): (texts: seq<string>)
    ensures |texts| == |items| && forall k :: 0 <= k < |items| ==> texts[k] == Decimal(items[k])
  {
    seq(|items|, k requires 0 <= k < |items| => Decimal(items[k]))
  }

  /** The lines of a descriptor in the puzzle's format. */
  function MonkeyLines(index: nat, rule: Rule, items: seq<nat>): (lines: seq<string>)
    requires |items| > 0
    ensures |lines| == 6
  {
    ["Monkey " + Decimal(index) + ":",
     ItemsPrefix + Join(DecimalsOf(items), ", "),
     OperationPrefix + OperationText(rule.op),
     TestPrefix + Decimal(rule.targetCond),
     TruePrefix + Decimal(rule.targetTrue),
     FalsePrefix + Decimal(rule.targetFalse)]
  }

  /** A descriptor in the puzzle's format. */
  function FormatMonkey(index: nat, rule: Rule, items: seq<nat>): string
    requires |items| > 0
  {
    Join(MonkeyLines(index, rule, items), "\n")
  }

  /** A rule and items the descriptor format can carry: a readable operation and numbers that fit. */
  predicate Writable(rule: Rule, items: seq<nat>) {
    && |items| > 0 && (forall k :: 0 <= k < |items| ==> items[k] < U64_BOUND)
    && !rule.op.Sub? && (rule.op.Add? || rule.op.Multi? ==> rule.op.n < U64_BOUND)
    && rule.targetCond < U64_BOUND && rule.targetTrue < USIZE_BOUND && rule.targetFalse < USIZE_BOUND
  }

  lemma {:induction false} NoNewline(prefix: string, n: nat)
    requires '\n' !in prefix
    ensures '\n' !in prefix + Decimal(n)
  {
    DecimalOnlyDigits(n);
  }

  lemma {:induction false} ParseItemsText(items: seq<nat>)
    requires |items| > 0 && forall k :: 0 <= k < |items| ==> items[k] < U64_BOUND
    ensures ParseItems(Join(DecimalsOf(items), ", ")) == Some(items)
    ensures '\n' !in Join(DecimalsOf(items), ", ")
  {
    var texts := DecimalsOf(items);
    forall k | 0 <= k < |texts|
      ensures ',' !in texts[k] && '\n' !in texts[k] && ParseU64(texts[k]) == Some(items[k])
    {
      DecimalOnlyDigits(items[k]);
      ParseUnsignedDecimal(items[k], U64_BOUND);
    }
    SplitOnJoin(texts, ", ");
    EachFromLines(texts, ParseU64, items);
    JoinFree(texts, ", ", '\n');
  }

  lemma {:induction false} HeaderWordOneLine()
    ensures '\n' !in "Monkey "
  {
  }

  lemma {:induction false} ItemsPrefixOneLine()
    ensures '\n' !in ItemsPrefix
  {
  }

  lemma {:induction false} OperationPrefixOneLine()
    ensures '\n' !in OperationPrefix
  {
  }

  lemma {:induction false} TestPrefixOneLine()
    ensures '\n' !in TestPrefix
  {
  }

  lemma {:induction false} TruePrefixOneLine()
    ensures '\n' !in TruePrefix
  {
  }

  lemma {:induction false} FalsePrefixOneLine()
    ensures '\n' !in FalsePrefix
  {
  }

  lemma {:induction false} OperatorsOneLine()
    ensures '\n' !in "+ " && '\n' !in "- " && '\n' !in "* " && '\n' !in "* old" && '\n' !in ":"
  {
  }

  lemma {:induction false} OperationOneLine(op: Operation)
    ensures '\n' !in OperationPrefix + OperationText(op)
  {
    OperationPrefixOneLine();
    OperatorsOneLine();
    match op
    case Add(n) => DecimalOnlyDigits(n);
    case Sub(n) => DecimalOnlyDigits(n);
    case Multi(n) => DecimalOnlyDigits(n);
    case MultiSelf =>
  }

  /** The formatted lines hold no line break, so splitting the descriptor recovers them. */
  lemma {:induction false} SplitMonkeyLines(index: nat, rule: Rule, items: seq<nat>)
    requires Writable(rule, items)
    ensures SplitOn(FormatMonkey(index, rule, items), "\n") == MonkeyLines(index, rule, items)
  {
    var lines := MonkeyLines(index, rule, items);
    HeaderWordOneLine();
    OperatorsOneLine();
    NoNewline("Monkey ", index);
    ItemsPrefixOneLine();
    ParseItemsText(items);
    OperationOneLine(rule.op);
    TestPrefixOneLine();
    NoNewline(TestPrefix, rule.targetCond);
    TruePrefixOneLine();
    NoNewline(TruePrefix, rule.targetTrue);
    FalsePrefixOneLine();
    NoNewline(FalsePrefix, rule.targetFalse);
    assert forall k :: 0 <= k < |lines| ==> '\n' !in lines[k];
    SplitOnJoin(lines, "\n");
  }

  lemma {:induction false} AfterDecimal(prefix: string, n: nat, bound: nat)
    requires n < bound
    ensures After(prefix + Decimal(n), prefix, bound) == Some(n)
  {
    StripPrefixConcat(prefix, Decimal(n));
    ParseUnsignedDecimal(n, bound);
  }

  /** Reading a formatted descriptor gives back its rule (with the part's relief) and its items. */
  lemma {:induction false} ParseMonkeyFormatted(index: nat, rule: Rule, items: seq<nat>, worryDivBy: nat)
    requires Writable(rule, items)
    ensures ParseMonkey(FormatMonkey(index, rule, items), worryDivBy)
      == Some((Rule(rule.op, rule.targetCond, rule.targetTrue, rule.targetFalse, worryDivBy), items))
  {
    var lines := MonkeyLines(index, rule, items);
    SplitMonkeyLines(index, rule, items);
    assert ItemsLine(lines[1]) == Some(items) by {
      StripPrefixConcat(ItemsPrefix, Join(DecimalsOf(items), ", "));
      ParseItemsText(items);
    }
    assert OperationLine(lines[2]) == Some(rule.op) by {
      StripPrefixConcat(OperationPrefix, OperationText(rule.op));
      ParseOperationText(rule.op);
    }
    AfterDecimal(TestPrefix, rule.targetCond, U64_BOUND);
    AfterDecimal(TruePrefix, rule.targetTrue, USIZE_BOUND);
    AfterDecimal(FalsePrefix, rule.targetFalse, USIZE_BOUND);
  }

  /** Every descriptor read from an input carries the part's relief and no subtraction. */
  lemma {:induction false} ParseTroopRules(input: string, worryDivBy: nat)
    requires ParseTroop(input, worryDivBy).Some?
    ensures var monkeys := ParseTroop(input, worryDivBy).value;
      forall k :: 0 <= k < |monkeys| ==> monkeys[k].0.worryDivBy == worryDivBy && !monkeys[k].0.op.Sub?
  {
    var blocks := SplitOn(input, "\n\n");
    EachLineByLine(blocks, MonkeyReader(worryDivBy));
  }

  // The program's own state: a vector of monkeys updated in place.

  /** A monkey: its rule is fixed when it is read; its queue and its count change. */
  class Monkey {
    var inspected: nat
    var items: seq<nat>
    const rule: Rule

    constructor (rule: Rule, items: seq<nat>)
      ensures this.rule == rule && this.items == items && inspected == 0
    {
      this.rule := rule;
      this.items := items;
      inspected := 0;
    }

    /** `inspect`: takes the front item, applies the operation, counts the inspection and relieves
        the worry. */
    method Inspect(modulo: nat) returns (worry: nat)
      requires items != [] && (rule.op.Sub? ==> items[0] >= rule.op.n)
      requires rule.worryDivBy > 0 && (rule.worryDivBy == 1 ==> modulo > 0)
      modifies this
      ensures items == old(items)[1..] && inspected == old(inspected) + 1
      ensures worry == Inspected(rule, modulo, old(items)[0])
    {
      var item := items[0];
      items := items[1..];
      var newItem: nat;
      match rule.op {
        case Add(n) => newItem := item + n;
        case Sub(n) => newItem := item - n;
        case Multi(n) => newItem := item * n;
        case MultiSelf => newItem := item * item;
      }
      inspected := inspected + 1;
      if rule.worryDivBy == 1 {
        worry := newItem % modulo;
      } else {
        worry := newItem / rule.worryDivBy;
      }
    }

    /** `get_throw_target`. */
    method GetThrowTarget(item: nat) returns (target: nat)
      requires rule.targetCond > 0
      ensures target == ThrowTarget(rule, item)
    {
      if item % rule.targetCond == 0 {
        target := rule.targetTrue;
      } else {
        target := rule.targetFalse;
      }
    }
  }

  function RulesOf(monkeys: seq<Monkey>): (rules: seq<Rule>)
    ensures |rules| == |monkeys| && forall k :: 0 <= k < |monkeys| ==> rules[k] == monkeys[k].rule
  {
    seq(|monkeys|, k requires 0 <= k < |monkeys| => monkeys[k].rule)
  }

  /** The queues and counts the monkeys hold now. */
  ghost function Snapshot(monkeys: seq<Monkey>): (troop: Troop)
    reads monkeys
    ensures |troop.queues| == |monkeys| && |troop.counts| == |monkeys|
    ensures forall k :: 0 <= k < |monkeys| ==>
      troop.queues[k] == monkeys[k].items && troop.counts[k] == monkeys[k].inspected
  {
    Troop(seq(|monkeys|, k requires 0 <= k < |monkeys| reads monkeys => monkeys[k].items),
          seq(|monkeys|, k requires 0 <= k < |monkeys| reads monkeys => monkeys[k].inspected))
  }

  ghost predicate Distinct(monkeys: seq<Monkey>) {
    forall j, k :: 0 <= j < |monkeys| && 0 <= k < |monkeys| && j != k ==> monkeys[j] != monkeys[k]
  }

  /** One pass of the `while` loop: inspect the front item and push it to the target's back. */
  method ThrowItem(monkeys: seq<Monkey>, i: nat, modulo: nat)
    requires Distinct(monkeys) && Playable(RulesOf(monkeys), modulo)
    requires i < |monkeys| && monkeys[i].items != []
    modifies monkeys
    ensures Snapshot(monkeys) == Throw(RulesOf(monkeys), modulo, old(Snapshot(monkeys)), i)
  {
    ghost var rules, before := RulesOf(monkeys), Snapshot(monkeys);
    assert RulePlayable(rules[i], i, |rules|, modulo);
    var worry := monkeys[i].Inspect(modulo);
    var target := monkeys[i].GetThrowTarget(worry);
    monkeys[target].items := monkeys[target].items + [worry];
    ghost var expected := Throw(rules, modulo, before, i);
    forall k | 0 <= k < |monkeys|
      ensures monkeys[k].items == expected.queues[k] && monkeys[k].inspected == expected.counts[k]
    {
      if k != i && k != target {
        assert monkeys[k] != monkeys[i] && monkeys[k] != monkeys[target];
      } else if k == i {
        assert monkeys[i] != monkeys[target];
      }
    }
    assert Snapshot(monkeys).queues == expected.queues;
    assert Snapshot(monkeys).counts == expected.counts;
  }

  /** Monkey `i`'s turn: throw while its queue is not empty. */
  method TakeTurn(monkeys: seq<Monkey>, i: nat, modulo: nat)
    requires Distinct(monkeys) && Playable(RulesOf(monkeys), modulo) && i < |monkeys|
    modifies monkeys
    ensures Snapshot(monkeys) == Turn(RulesOf(monkeys), modulo, old(Snapshot(monkeys)), i)
  {
    ghost var rules := RulesOf(monkeys);
    while monkeys[i].items != []
      invariant Turn(rules, modulo, Snapshot(monkeys), i) == Turn(rules, modulo, old(Snapshot(monkeys)), i)
      decreases |monkeys[i].items|
    {
      ghost var before := Snapshot(monkeys);
      ThrowItem(monkeys, i, modulo);
      ThrowMoves(rules, modulo, before, i);
    }
  }

  /** One round: the turns of all monkeys in index order. */
  method PlayRound(monkeys: seq<Monkey>, modulo: nat)
    requires Distinct(monkeys) && Playable(RulesOf(monkeys), modulo)
    modifies monkeys
    ensures Snapshot(monkeys) == RoundFrom(RulesOf(monkeys), modulo, old(Snapshot(monkeys)), 0)
  {
    ghost var rules := RulesOf(monkeys);
    for i := 0 to |monkeys|
      invariant RoundFrom(rules, modulo, Snapshot(monkeys), i) == RoundFrom(rules, modulo, old(Snapshot(monkeys)), 0)
    {
      TakeTurn(monkeys, i, modulo);
    }
  }

  method PlayRounds(monkeys: seq<Monkey>, rounds: nat, modulo: nat)
    requires Distinct(monkeys) && Playable(RulesOf(monkeys), modulo)
    modifies monkeys
    ensures Snapshot(monkeys) == Rounds(RulesOf(monkeys), modulo, old(Snapshot(monkeys)), rounds)
  {
    ghost var rules := RulesOf(monkeys);
    for r := 0 to rounds
      invariant Rounds(rules, modulo, Snapshot(monkeys), rounds - r) == Rounds(rules, modulo, old(Snapshot(monkeys)), rounds)
    {
      PlayRound(monkeys, modulo);
    }
  }

  // The two parts.

  function RulesOfParsed(parsed: seq<(Rule, seq<nat>)>): (rules: seq<Rule>)
    ensures |rules| == |parsed| && forall k :: 0 <= k < |parsed| ==> rules[k] == parsed[k].0
  {
    seq(|parsed|, k requires 0 <= k < |parsed| => parsed[k].0)
  }

  /** The monkeys as read: their starting items and no inspections yet. */
  function Start(parsed: seq<(Rule, seq<nat>)>): (troop: Troop)
    ensures |troop.queues| == |parsed| && |troop.counts| == |parsed|
    ensures forall k :: 0 <= k < |parsed| ==> troop.queues[k] == parsed[k].1 && troop.counts[k] == 0
  {
    Troop(seq(|parsed|, k requires 0 <= k < |parsed| => parsed[k].1), seq(|parsed|, k => 0))
  }

  /** The level of monkey business after `rounds` rounds: the product of the two largest counts of
      inspections, or `None` when there are fewer than two monkeys (indexing the second panics). */
  function MonkeyBusiness(parsed: seq<(Rule, seq<nat>)>, modulo: nat, rounds: nat): (r: Option<nat>)
    requires Playable(RulesOfParsed(parsed), modulo)
    ensures r.Some? <==> |parsed| >= 2
  {
    if |parsed| < 2 then None
    else Some(TopTwoProduct(Rounds(RulesOfParsed(parsed), modulo, Start(parsed), rounds).counts))
  }

  /** The vector of monkeys built from the descriptors, one new object each. */
  method Build(parsed: seq<(Rule, seq<nat>)>) returns (monkeys: seq<Monkey>)
    ensures Distinct(monkeys) && RulesOf(monkeys) == RulesOfParsed(parsed)
    ensures Snapshot(monkeys) == Start(parsed)
    ensures forall k :: 0 <= k < |monkeys| ==> fresh(monkeys[k])
  {
    monkeys := [];
    for i := 0 to |parsed|
      invariant |monkeys| == i && Distinct(monkeys)
      invariant forall k :: 0 <= k < i ==> fresh(monkeys[k])
      invariant forall k :: 0 <= k < i ==>
        monkeys[k].rule == parsed[k].0 && monkeys[k].items == parsed[k].1 && monkeys[k].inspected == 0
    {
      var monkey := new Monkey(parsed[i].0, parsed[i].1);
      monkeys := monkeys + [monkey];
    }
    assert Snapshot(monkeys).queues == Start(parsed).queues;
    assert Snapshot(monkeys).counts == Start(parsed).counts;
  }

  /** Play the rounds on the monkeys, then multiply the two largest counts. */
  method Simulate(parsed: seq<(Rule, seq<nat>)>, modulo: nat, rounds: nat) returns (r: Option<nat>)
    requires Playable(RulesOfParsed(parsed), modulo)
    ensures r == MonkeyBusiness(parsed, modulo, rounds)
  {
    var monkeys := Build(parsed);
    PlayRounds(monkeys, rounds, modulo);
    var counts := seq(|monkeys|, k requires 0 <= k < |monkeys| reads monkeys => monkeys[k].inspected);
    assert counts == Snapshot(monkeys).counts;
    if |counts| < 2 {
      r := None;
    } else {
      r := Some(TopTwoProduct(counts));
    }
  }

  /** Part one: relief divides by 3, no modulo, 20 rounds. */
  method PartOne(input: string) returns (r: Option<nat>)
    requires ParseTroop(input, 3).Some? ==> Playable(RulesOfParsed(ParseTroop(input, 3).value), 0)
    ensures ParseTroop(input, 3).None? ==> r.None?
    ensures ParseTroop(input, 3).Some? ==> r == MonkeyBusiness(ParseTroop(input, 3).value, 0, 20)
  {
    var parsed := ParseTroop(input, 3);
    if parsed.None? {
      return None;
    }
    r := Simulate(parsed.value, 0, 20);
  }

  /** Part two: no division, worry levels kept modulo the product of all divisors, 10000 rounds. */
  method PartTwo(input: string) returns (r: Option<nat>)
    requires ParseTroop(input, 1).Some? ==>
      var rules := RulesOfParsed(ParseTroop(input, 1).value); Playable(rules, Product(rules))
    ensures ParseTroop(input, 1).None? ==> r.None?
    ensures ParseTroop(input, 1).Some? ==> var parsed := ParseTroop(input, 1).value;
      r == MonkeyBusiness(parsed, Product(RulesOfParsed(parsed)), 10000)
  {
    var parsed := ParseTroop(input, 1);
    if parsed.None? {
      return None;
    }
    var modulo := Product(RulesOfParsed(parsed.value));
    r := Simulate(parsed.value, modulo, 10000);
  }

  lemma {:induction false} PlayableAnyModulo(rules: seq<Rule>, m: nat, m': nat)
    requires Playable(rules, m) && m' > 0
    ensures Playable(rules, m')
  {
    forall i | 0 <= i < |rules|
      ensures RulePlayable(rules[i], i, |rules|, m')
    {
      assert RulePlayable(rules[i], i, |rules|, m);
    }
  }

  /** Keeping the worry levels modulo the product loses nothing: any common multiple of it gives the
      same counts of inspections, so the same answer. */
  lemma {:induction false} PartTwoModuloSound(input: string, m': nat, rounds: nat)
    requires ParseTroop(input, 1).Some?
    requires var rules := RulesOfParsed(ParseTroop(input, 1).value); Playable(rules, Product(rules))
    requires m' > 0 && m' % Product(RulesOfParsed(ParseTroop(input, 1).value)) == 0
    ensures var parsed := ParseTroop(input, 1).value;
      Playable(RulesOfParsed(parsed), m') &&
      MonkeyBusiness(parsed, Product(RulesOfParsed(parsed)), rounds) == MonkeyBusiness(parsed, m', rounds)
  {
    var parsed := ParseTroop(input, 1).value;
    var rules := RulesOfParsed(parsed);
    var m := Product(rules);
    forall k | 0 <= k < |rules|
      ensures rules[k].targetCond > 0
    {
      assert RulePlayable(rules[k], k, |rules|, m);
    }
    ProductPositive(rules);
    PlayableAnyModulo(rules, m, m');
    ParseTroopRules(input, 1);
    forall k | 0 <= k < |rules|
      ensures rules[k].worryDivBy == 1 && rules[k].targetCond > 0 && m % rules[k].targetCond == 0
    {
      assert RulePlayable(rules[k], k, |rules|, m);
      ProductDivisible(rules, k);
    }
    assert ModuloRules(rules, m);
    CongruentReflexive(Start(parsed), m);
    RoundsCongruent(rules, m, m', Start(parsed), Start(parsed), rounds);
  }
}
