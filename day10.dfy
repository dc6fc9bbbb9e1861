/**
  Day 10: a CPU with one register `X` and two instructions, `noop` (one cycle) and `addx v` (two
  cycles, then `X` grows by `v`), driving a 40-column CRT that lights a pixel when the three-wide
  sprite centred on `X` covers the column being drawn. The first part adds up the signal strength
  `cycle * X` at cycles 20, 60, ..., 220; the second returns the pixels.
 */
module Day10 {
  import opened Wrappers
  import opened Text
  import opened Seqs
  import opened Lines

  datatype Op = Noop | Addx(amount: int)

  /** `OP::from_str`: `noop`, or `addx` and a value after the first space; a value that is not an
      `i32` reads as 0. Anything else is an error, `None` here. */
  function ParseOp(s: string): Option<Op> {
    match SplitOnce(s, ' ')
    case None => if s == "noop" then Some(Noop) else None
    case Some((operation, value)) => if operation == "addx" then Some(Addx(ParseI32(value).GetOr(0))) else None
  }

  /** What `from_str` accepts, stated on the text itself: exactly `noop`, or anything starting with
      `addx ` whose remainder is the value. */
  lemma {:induction false} ParseOpPrefix(s: string)
    ensures ParseOp(s) == if s == "noop" then Some(Noop)
                          else if |s| >= 5 && s[..5] == "addx " then Some(Addx(ParseI32(s[5..]).GetOr(0)))
                          else None
  {
    SplitOnceSpec(s, ' ');
    var k := Find(s, ' ', 0);
    if |s| >= 5 && s[..5] == "addx " {
      assert s[4] == ' ' && s[0] != ' ' && s[1] != ' ' && s[2] != ' ' && s[3] != ' ';
      assert k == 4;
      assert s[..k] == "addx";
    } else if k < |s| {
      assert s != "noop" by {
        assert s[k] == ' ';
      }
      assert k == 4 ==> s[..5] == s[..k] + [s[k]];
    }
  }

  lemma {:induction false} ParseNoop()
    ensures ParseOp("noop") == Some(Noop)
  {
    ParseOpPrefix("noop");
  }

  /** `addx` reads back any `i32` written after it. */
  lemma {:induction false} ParseAddx(v: int)
    requires I32_MIN <= v < I32_BOUND
    ensures ParseOp("addx " + SignedDecimal(v)) == Some(Addx(v))
  {
    var s := "addx " + SignedDecimal(v);
    ParseOpPrefix(s);
    assert s[..5] == "addx " && s[5..] == SignedDecimal(v);
    ParseI32SignedDecimal(v);
  }

  /** `addx` with a value that is not an `i32` adds nothing. */
  lemma {:induction false} ParseAddxUnreadable(value: string)
    requires ParseI32(value).None?
    ensures ParseOp("addx " + value) == Some(Addx(0))
  {
    var s := "addx " + value;
    ParseOpPrefix(s);
    assert s[..5] == "addx " && s[5..] == value;
  }

  /** A snapshot of the `Program` struct's fields. */
  datatype CpuState = CpuState(pc: int, cyclePc: int, x: int, signal: int, pixels: seq<char>)

  /** `Program::new`. */
  function Initial(): CpuState {
    CpuState(1, 0, 1, 0, [])
  }

  /** The cycles whose signal strength the first part adds up: every 40th from the 20th to the 220th. */
  predicate SignalCycle(pc: int) {
    pc == 20 || pc == 60 || pc == 100 || pc == 140 || pc == 180 || pc == 220
  }

  lemma {:induction false} SignalCyclesEvery40(pc: int)
    ensures SignalCycle(pc) <==> 20 <= pc <= 220 && pc % 40 == 20
  {
  }

  /** The pixel drawn at `column` when the sprite is centred on `x`: lit when the sprite, three
      columns wide, covers the column. */
  function Pixel(column: int, x: int): (c: char)
    ensures c == '#' <==> -1 <= column - x <= 1
    ensures c != '#' ==> c == '.'
  {
    if column >= x - 1 && column <= x + 1 then '#' else '.'
  }

  /** `draw_pixel`. */
  function Draw(s: CpuState): CpuState {
    s.(pixels := s.pixels + [Pixel(s.cyclePc, s.x)])
  }

  /** `calc_signal_strength`. */
  function AddSignal(s: CpuState): CpuState {
    if SignalCycle(s.pc) then s.(signal := s.signal + s.pc * s.x) else s
  }

  /** `increment_pc`: the next cycle, the column wrapping after 40, then the signal check. */
  function Advance(s: CpuState): CpuState {
    var cyclePc := if s.cyclePc + 1 >= 40 then 0 else s.cyclePc + 1;
    AddSignal(s.(pc := s.pc + 1, cyclePc := cyclePc))
  }

  /** One cycle: draw, then grow `X` by `delta` (0 except at the end of `addx`), then advance. */
  function Cycle(s: CpuState, delta: int): CpuState {
    var drawn := Draw(s);
    Advance(drawn.(x := drawn.x + delta))
  }

  /** `execute_op`: `noop` takes one cycle, `addx v` two, with `X` changed after the second pixel. */
  function Step(s: CpuState, op: Op): CpuState {
    match op
    case Noop => Cycle(s, 0)
    case Addx(v) => Cycle(Cycle(s, 0), v)
  }

  /** The state after running the instructions from `Program::new`. */
  function Run(ops: seq<Op>): CpuState {
    if ops == [] then Initial() else Step(Run(ops[..|ops| - 1]), ops[|ops| - 1])
  }

  /** The program's state after every line, or `None` if a line is not an instruction: the program
      panics there. */
  function Execute(lines: seq<string>): Option<CpuState> {
    match ParseEach(lines, ParseOp)
    case None => None
    case Some(ops) => Some(Run(ops))
  }

  /** `noop` advances `pc` by one and draws one pixel with the current `X`. */
  lemma {:induction false} StepNoop(s: CpuState)
    ensures Step(s, Noop).pc == s.pc + 1 && Step(s, Noop).x == s.x
    ensures Step(s, Noop).pixels == s.pixels + [Pixel(s.cyclePc, s.x)]
  {
  }

  /** `addx v` advances `pc` by two and draws two pixels, both with the old `X`; then `X` has grown
      by exactly `v`. */
  lemma {:induction false} StepAddx(s: CpuState, v: int)
    ensures Step(s, Addx(v)).pc == s.pc + 2 && Step(s, Addx(v)).x == s.x + v
    ensures Step(s, Addx(v)).pixels
         == s.pixels + [Pixel(s.cyclePc, s.x), Pixel(Advance(s).cyclePc, s.x)]
  {
    assert s.pixels + [Pixel(s.cyclePc, s.x)] + [Pixel(Advance(s).cyclePc, s.x)]
        == s.pixels + [Pixel(s.cyclePc, s.x), Pixel(Advance(s).cyclePc, s.x)];
  }

  /** The signal strength changes only when `pc` becomes a signal cycle, and then by `pc * X`. */
  lemma {:induction false} AdvanceSignal(s: CpuState)
    ensures Advance(s).pc == s.pc + 1
    ensures !SignalCycle(s.pc + 1) ==> Advance(s).signal == s.signal
    ensures SignalCycle(s.pc + 1) ==> Advance(s).signal == s.signal + (s.pc + 1) * s.x
  {
  }

  /** The relations between the fields that every state reached from `Program::new` keeps: one
      pixel per finished cycle, and the column is the cycle count modulo 40. */
  predicate Consistent(s: CpuState) {
    s.pc >= 1 && |s.pixels| == s.pc - 1 && s.cyclePc == (s.pc - 1) % 40
  }

  lemma {:induction false} CycleConsistent(s: CpuState, delta: int)
    requires Consistent(s)
    ensures Consistent(Cycle(s, delta))
    ensures 0 <= Cycle(s, delta).cyclePc < 40
  {
  }

  /** Every instruction keeps the relations between the fields. */
  lemma {:induction false} StepConsistent(s: CpuState, op: Op)
    requires Consistent(s)
    ensures Consistent(Step(s, op))
  {
    CycleConsistent(s, 0);
    if op.Addx? {
      CycleConsistent(Cycle(s, 0), op.amount);
    }
  }

  /** How much an instruction changes `X`. */
  function Delta(op: Op): int {
    match op
    case Noop => 0
    case Addx(v) => v
  }

  /** The value of `X` during each cycle of an instruction started with `x`: `addx` takes two
      cycles and its change is seen only from the cycle after them. */
  function During(op: Op, x: int): seq<int> {
    match op
    case Noop => [x]
    case Addx(_) => [x, x]
  }

  /** The value of `X` once the instructions have run: 1 plus every `addx` amount. */
  function XAfter(ops: seq<Op>): int {
    if ops == [] then 1 else XAfter(ops[..|ops| - 1]) + Delta(ops[|ops| - 1])
  }

  /** The value of `X` during each cycle, the first cycle first. */
  function XTrace(ops: seq<Op>): seq<int> {
    if ops == [] then []
    else
      var rest := ops[..|ops| - 1];
      XTrace(rest) + During(ops[|ops| - 1], XAfter(rest))
  }

  /** The sum of `cycle * X` over the signal cycles, where `xs[c - 1]` is `X` during cycle `c`. */
  function SignalSum(xs: seq<int>): int {
    if xs == [] then 0
    else SignalSum(xs[..|xs| - 1]) + if SignalCycle(|xs|) then |xs| * xs[|xs| - 1] else 0
  }

  /** A state agrees with a trace `xs` of finished cycles and the current `X`: the counters count
      the cycles, each pixel shows the sprite of its own cycle, and the signal strength sums the
      signal cycles up to the current one. */
  ghost predicate Follows(s: CpuState, xs: seq<int>, x: int) {
    && s.pc == |xs| + 1 && s.cyclePc == |xs| % 40 && s.x == x
    && |s.pixels| == |xs|
    && (forall k :: 0 <= k < |xs| ==> s.pixels[k] == Pixel(k % 40, xs[k]))
    && s.signal == SignalSum(xs + [x])
  }

  lemma {:induction false} CycleFollows(s: CpuState, xs: seq<int>, x: int, delta: int)
    requires Follows(s, xs, x)
    ensures Follows(Cycle(s, delta), xs + [x], x + delta)
  {
    var t := Cycle(s, delta);
    var ys := xs + [x];
    assert t.pixels == s.pixels + [Pixel(|xs| % 40, x)];
    forall k | 0 <= k < |ys|
      ensures t.pixels[k] == Pixel(k % 40, ys[k])
    {
      if k < |xs| {
        assert t.pixels[k] == s.pixels[k];
      }
    }
    assert (ys + [x + delta])[..|ys|] == ys;
  }

  lemma {:induction false} InitialFollows()
    ensures Follows(Initial(), [], 1)
  {
    assert [] + [1] == [1] && [1][..0] == [];
  }

  lemma {:induction false} StepFollows(s: CpuState, xs: seq<int>, x: int, op: Op)
    requires Follows(s, xs, x)
    ensures Follows(Step(s, op), xs + During(op, x), x + Delta(op))
  {
    if op.Noop? {
      CycleFollows(s, xs, x, 0);
      assert x + Delta(op) == x + 0;
    } else {
      CycleFollows(s, xs, x, 0);
      CycleFollows(Cycle(s, 0), xs + [x], x, op.amount);
      assert xs + [x] + [x] == xs + During(op, x);
    }
  }

  /** The program computes what the trace of `X` says: the answer of the first part is the sum of
      the signal strengths at the signal cycles, and pixel `k`, drawn during cycle `k + 1` at column
      `k % 40`, is lit exactly when the sprite then covers that column. */
  lemma {:induction false} RunFollowsTrace(ops: seq<Op>)
    ensures Follows(Run(ops), XTrace(ops), XAfter(ops))
    decreases |ops|
  {
    if ops == [] {
      InitialFollows();
    } else {
      var rest := ops[..|ops| - 1];
      RunFollowsTrace(rest);
      StepFollows(Run(rest), XTrace(rest), XAfter(rest), ops[|ops| - 1]);
      assert Run(ops) == Step(Run(rest), ops[|ops| - 1]);
      assert XTrace(ops) == XTrace(rest) + During(ops[|ops| - 1], XAfter(rest));
      assert XAfter(ops) == XAfter(rest) + Delta(ops[|ops| - 1]);
    }
  }

  /** Every state reached from `Program::new` keeps the relations between its fields. */
  lemma {:induction false} RunConsistent(ops: seq<Op>)
    ensures Consistent(Run(ops)) && 0 <= Run(ops).cyclePc < 40
  {
    RunFollowsTrace(ops);
  }

  /** The `Program` struct, updated in place by its methods. */
  class Program {
    var pc: int
    var cyclePc: int
    var xReg: int
    var signalStrength: int
    var pixelBuffer: seq<char>

    function State(): CpuState
      reads this
    {
      CpuState(pc, cyclePc, xReg, signalStrength, pixelBuffer)
    }

    constructor ()
      ensures State() == Initial()
    {
      pc := 1;
      cyclePc := 0;
      xReg := 1;
      signalStrength := 0;
      pixelBuffer := [];
    }

    method ExecuteOp(op: Op) returns (r: int)
      modifies this
      ensures r == 0
      ensures State() == Step(old(State()), op)
    {
      match op {
        case Noop => NoopOp();
        case Addx(v) => AddxOp(v);
      }
      r := 0;
    }

    method NoopOp()
      modifies this
      ensures State() == Step(old(State()), Noop)
    {
      DrawPixel();
      IncrementPc();
    }

    method AddxOp(amount: int)
      modifies this
      ensures State() == Step(old(State()), Addx(amount))
    {
      DrawPixel();
      IncrementPc();
      DrawPixel();
      xReg := xReg + amount;
      IncrementPc();
    }

    method IncrementPc()
      modifies this
      ensures State() == Advance(old(State()))
    {
      pc := pc + 1;
      cyclePc := cyclePc + 1;
      if cyclePc >= 40 {
        cyclePc := 0;
      }
      CalcSignalStrength();
    }

    method CalcSignalStrength()
      modifies this
      ensures State() == AddSignal(old(State()))
    {
      if pc == 20 || pc == 60 || pc == 100 || pc == 140 || pc == 180 || pc == 220 {
        signalStrength := signalStrength + pc * xReg;
      }
    }

    method DrawPixel()
      modifies this
      ensures State() == Draw(old(State()))
    {
      if cyclePc >= xReg - 1 && cyclePc <= xReg + 1 {
        pixelBuffer := pixelBuffer + ['#'];
      } else {
        pixelBuffer := pixelBuffer + ['.'];
      }
    }
  }

  /** Runs every line on a new program; `None` where the program panics on a line. */
  method RunLines(input: seq<string>) returns (r: Option<Program>)
    ensures r.None? <==> Execute(input).None?
    ensures r.Some? ==> r.value.State() == Execute(input).value
  {
    var program := new Program();
    ghost var ops := [];
    for i := 0 to |input|
      invariant ParseEach(input[..i], ParseOp) == Some(ops)
      invariant program.State() == Run(ops)
    {
      EachStep(input, ParseOp, i, ops);
      var op := ParseOp(input[i]);
      if op.None? {
        return None;
      }
      var _ := program.ExecuteOp(op.value);
      ops := ops + [op.value];
      assert ops[..|ops| - 1] == ops[..i];
    }
    PrefixWhole(input);
    r := Some(program);
  }

  /** `part_one`: the signal strength after the whole program. */
  method PartOne(input: seq<string>) returns (r: Option<int>)
    ensures r.None? <==> Execute(input).None?
    ensures r.Some? ==> r.value == Execute(input).value.signal
  {
    var program := RunLines(input);
    if program.None? {
      return None;
    }
    r := Some(program.value.signalStrength);
  }

  /** `part_two`: the pixels drawn by the whole program. */
  method PartTwo(input: seq<string>) returns (r: Option<seq<char>>)
    ensures r.None? <==> Execute(input).None?
    ensures r.Some? ==> r.value == Execute(input).value.pixels
  {
    var program := RunLines(input);
    if program.None? {
      return None;
    }
    r := Some(program.value.pixelBuffer);
  }

  /** What the two answers mean: for a program that parses to `ops`, the first is the sum of
      `cycle * X` over the signal cycles up to the one after the last instruction, and the second
      has one pixel per cycle, lit exactly when the sprite covers that cycle's column. */
  lemma {:induction false} AnswersFollowTrace(lines: seq<string>)
    requires ParseEach(lines, ParseOp).Some?
    ensures var ops := ParseEach(lines, ParseOp).value;
      var xs := XTrace(ops);
      && Execute(lines).value.signal == SignalSum(xs + [XAfter(ops)])
      && |Execute(lines).value.pixels| == |xs|
      && forall k :: 0 <= k < |xs| ==>
           (Execute(lines).value.pixels[k] == '#' <==> xs[k] - 1 <= k % 40 <= xs[k] + 1)
  {
    RunFollowsTrace(ParseEach(lines, ParseOp).value);
  }
}
