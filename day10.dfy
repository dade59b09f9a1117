/** Cathode-ray tube: a two-instruction CPU whose register X is sampled at
    every cycle, for signal strengths and for a 40x6 screen whose sprite
    is three pixels wide and centred on X. */
module Day10 {
  import Common

  const CrtWidth := 40
  const CrtHeight := 6
  const CrtPixels := CrtWidth * CrtHeight

  /** The cycles at which the signal strength is recorded. */
  const InterestingCycles := [20, 60, 100, 140, 180, 220]

  datatype Instruction = Noop | Addx(value: int) {
    function Cycles(): nat {
      match this
      case Noop => 1
      case Addx(_) => 2
    }

    function Execute(registerX: int): int {
      match this
      case Noop => registerX
      case Addx(v) => registerX + v
    }
  }

  /** What `checkCycle` sees: the cycle number and the value of X. */
  datatype Sample = Sample(cycle: int, x: int)

  /** Samples at the `count` cycles after `cycle`, all with X at `x`. */
  function Waiting(cycle: int, x: int, count: nat): (r: seq<Sample>)
    ensures |r| == count
  {
    seq(count, k => Sample(cycle + k + 1, x))
  }

  /** One more cycle of waiting adds its sample. */
  lemma WaitingStep(before: seq<Sample>, cycle: int, x: int, count: nat)
    ensures before + Waiting(cycle, x, count + 1) == before + Waiting(cycle, x, count) + [Sample(cycle + count + 1, x)]
  {
    assert Waiting(cycle, x, count + 1) == Waiting(cycle, x, count) + [Sample(cycle + count + 1, x)];
  }

  /** The samples taken while one instruction runs from `cycle` with X at
      `x`: one at each new cycle but the last with X unchanged, and one at
      the last with the instruction's effect applied. */
  function InstructionSamples(cycle: int, x: int, instruction: Instruction): (r: seq<Sample>)
    ensures |r| == instruction.Cycles()
  {
    match instruction
    case Noop => [Sample(cycle + 1, x)]
    case Addx(v) => [Sample(cycle + 1, x), Sample(cycle + 2, x + v)]
  }

  /** One sample per new cycle, X unchanged but at the last. */
  lemma InstructionSamplesMeaning(cycle: int, x: int, instruction: Instruction)
    ensures var r := InstructionSamples(cycle, x, instruction);
      && (forall k :: 0 <= k < |r| ==> r[k].cycle == cycle + k + 1)
      && (forall k :: 0 <= k < |r| - 1 ==> r[k].x == x)
      && r[|r| - 1].x == instruction.Execute(x)
  {
  }

  /** An instruction waits with X unchanged, then applies its effect. */
  lemma InstructionSamplesSplit(cycle: int, x: int, instruction: Instruction)
    ensures InstructionSamples(cycle, x, instruction)
      == Waiting(cycle, x, instruction.Cycles() - 1) + [Sample(cycle + instruction.Cycles(), instruction.Execute(x))]
  {
    var w := Waiting(cycle, x, instruction.Cycles() - 1);
    if instruction.Addx? {
      assert w == [Sample(cycle + 1, x)];
    } else {
      assert w == [];
    }
  }

  /** Waiting and then the last sample make up an instruction's samples. */
  lemma InstructionSamplesAppend(before: seq<Sample>, cycle: int, x: int, instruction: Instruction, after: seq<Sample>)
    requires after == before + Waiting(cycle, x, instruction.Cycles() - 1)
      + [Sample(cycle + instruction.Cycles(), instruction.Execute(x))]
    ensures after == before + InstructionSamples(cycle, x, instruction)
  {
    InstructionSamplesSplit(cycle, x, instruction);
    Common.AppendAssociative(before, Waiting(cycle, x, instruction.Cycles() - 1),
      [Sample(cycle + instruction.Cycles(), instruction.Execute(x))]);
  }

  function TotalCycles(instructions: seq<Instruction>): nat {
    if instructions == [] then 0
    else TotalCycles(instructions[..|instructions| - 1]) + instructions[|instructions| - 1].Cycles()
  }

  /** X after the instructions, started at `x`. */
  function FinalX(x: int, instructions: seq<Instruction>): int {
    if instructions == [] then x
    else instructions[|instructions| - 1].Execute(FinalX(x, instructions[..|instructions| - 1]))
  }

  function AddedValues(instructions: seq<Instruction>): int {
    if instructions == [] then 0
    else
      var last := instructions[|instructions| - 1];
      AddedValues(instructions[..|instructions| - 1]) + (if last.Addx? then last.value else 0)
  }

  /** X ends up as its start plus every `addx` operand. */
  lemma {:induction false} FinalXSums(x: int, instructions: seq<Instruction>)
    ensures FinalX(x, instructions) == x + AddedValues(instructions)
  {
    if instructions != [] {
      FinalXSums(x, instructions[..|instructions| - 1]);
    }
  }

  /** The samples taken after the first, while the instructions run from
      `cycle` with X at `x`. */
  function Samples(cycle: int, x: int, instructions: seq<Instruction>): (r: seq<Sample>)
    ensures |r| == TotalCycles(instructions)
  {
    if instructions == [] then []
    else
      var init := instructions[..|instructions| - 1];
      Samples(cycle, x, init)
        + InstructionSamples(cycle + TotalCycles(init), FinalX(x, init), instructions[|instructions| - 1])
  }

  /** The samples run over consecutive cycles, one per cycle, and the last
      one sees X after the final instruction. */
  lemma {:induction false} SamplesConsecutive(cycle: int, x: int, instructions: seq<Instruction>)
    ensures forall k :: 0 <= k < |Samples(cycle, x, instructions)| ==> Samples(cycle, x, instructions)[k].cycle == cycle + k + 1
    ensures instructions != [] ==> Samples(cycle, x, instructions)[TotalCycles(instructions) - 1].x == FinalX(x, instructions)
  {
    if instructions != [] {
      var init := instructions[..|instructions| - 1];
      SamplesConsecutive(cycle, x, init);
      InstructionSamplesMeaning(cycle + TotalCycles(init), FinalX(x, init), instructions[|instructions| - 1]);
    }
  }

  /** Every sample of a run started by `play`: cycle 1 with X = 1 and then
      one per cycle of the instructions. */
  function Run(instructions: seq<Instruction>): seq<Sample> {
    [Sample(1, 1)] + Samples(1, 1, instructions)
  }

  /** `checkCycle` runs once for each cycle from 1 to one past the last
      instruction's last cycle, in order; the final X is 1 plus the sum of
      the `addx` operands. */
  lemma RunCycles(instructions: seq<Instruction>)
    ensures |Run(instructions)| == 1 + TotalCycles(instructions)
    ensures forall k :: 0 <= k < |Run(instructions)| ==> Run(instructions)[k].cycle == k + 1
    ensures Run(instructions)[|Run(instructions)| - 1].x == 1 + AddedValues(instructions)
  {
    SamplesConsecutive(1, 1, instructions);
    FinalXSums(1, instructions);
  }

  /** The signal strengths recorded for a sequence of samples. */
  function Strengths(samples: seq<Sample>): seq<int> {
    if samples == [] then []
    else
      var s := samples[|samples| - 1];
      Strengths(samples[..|samples| - 1]) + (if s.cycle in InterestingCycles then [s.cycle * s.x] else [])
  }

  /** How many of the interesting cycles are at most `n`. */
  function Reached(n: int): nat {
    if n < 20 then 0 else if n >= 220 then 6 else (n - 20) / 40 + 1
  }

  /** The first `Reached(n)` interesting cycles are those at most `n`. */
  lemma ReachedMeaning(n: int)
    ensures Reached(n) <= |InterestingCycles|
    ensures forall j :: 0 <= j < |InterestingCycles| ==> (j < Reached(n) <==> InterestingCycles[j] <= n)
  {
  }

  /** Samples of cycles 1, 2, ..., n in order. */
  predicate FromCycleOne(samples: seq<Sample>) {
    forall k :: 0 <= k < |samples| ==> samples[k].cycle == k + 1
  }

  /** Over cycles 1..n, the strengths are those of cycles 20, 60, ... up to
      n: the cycle number times X during it. */
  lemma {:induction false} StrengthsMeaning(samples: seq<Sample>)
    requires FromCycleOne(samples)
    ensures |Strengths(samples)| == Reached(|samples|)
    ensures forall j :: 0 <= j < |Strengths(samples)| ==>
      Strengths(samples)[j] == InterestingCycles[j] * samples[InterestingCycles[j] - 1].x
  {
    if samples != [] {
      var n := |samples| - 1;
      var init := samples[..n];
      StrengthsMeaning(init);
      ReachedMeaning(n);
      ReachedMeaning(n + 1);
      if n + 1 in InterestingCycles {
        var j :| 0 <= j < |InterestingCycles| && InterestingCycles[j] == n + 1;
        assert Reached(n) == j;
      } else {
        assert Reached(n + 1) == Reached(n);
      }
    }
  }

  /** The pixel drawn at `cycle` while X is `x`: lit when the sprite
      covers the column being drawn. */
  function Pixel(cycle: int, x: int): char {
    var offset := cycle - 1;
    // Kotlin's `%` keeps the sign of the dividend.
    var crtPosition := if offset >= 0 then offset % CrtWidth else -((-offset) % CrtWidth);
    if x - 1 <= crtPosition <= x + 1 then '#' else '.'
  }

  /** `handleCrt` as a function of the screen so far: within the first 240
      cycles a pixel goes at the end of the last row, and a new row is
      opened after every 40th cycle below 240. */
  function Paint(crt: seq<seq<char>>, sample: Sample): seq<seq<char>>
    requires crt != []
  {
    if sample.cycle <= CrtPixels then
      var painted := crt[..|crt| - 1] + [crt[|crt| - 1] + [Pixel(sample.cycle, sample.x)]];
      if sample.cycle % CrtWidth == 0 && sample.cycle < CrtPixels then painted + [[]] else painted
    else crt
  }

  /** The screen after the samples, starting from one empty row. */
  function Draw(samples: seq<Sample>): (r: seq<seq<char>>)
    ensures r != []
  {
    if samples == [] then [[]]
    else Paint(Draw(samples[..|samples| - 1]), samples[|samples| - 1])
  }

  /** Row `r` of the screen, column `j`, shows the pixel of cycle
      `40 * r + j + 1`. */
  predicate ScreenMatches(screen: seq<seq<char>>, samples: seq<Sample>) {
    forall r, j :: 0 <= r < |screen| && 0 <= j < |screen[r]| ==>
      CrtWidth * r + j < |samples| &&
      screen[r][j] == (if samples[CrtWidth * r + j].x - 1 <= j <= samples[CrtWidth * r + j].x + 1 then '#' else '.')
  }

  /** Over cycles 1..n, the screen holds min(n, 240) pixels in rows of 40,
      with one more (empty) row extended after each full row but the sixth;
      the pixel in column j is lit exactly when X, during its cycle, is
      within one of j. */
  lemma {:induction false} DrawMeaning(samples: seq<Sample>)
    requires FromCycleOne(samples)
    ensures var screen := Draw(samples);
      var drawn := if |samples| < CrtPixels then |samples| else CrtPixels;
      && |screen| == (if drawn == CrtPixels then CrtHeight else drawn / CrtWidth + 1)
      && (forall r :: 0 <= r < |screen| - 1 ==> |screen[r]| == CrtWidth)
      && |screen[|screen| - 1]| == drawn - CrtWidth * (|screen| - 1)
      && ScreenMatches(screen, samples)
  {
    if samples != [] {
      var n := |samples| - 1;
      var init := samples[..n];
      assert FromCycleOne(init);
      DrawMeaning(init);
      var before := Draw(init);
      assert ScreenMatches(before, samples) by {
        assert forall k :: 0 <= k < n ==> init[k] == samples[k];
      }
      if n < CrtPixels {
        PaintAppends(before, samples, n);
      }
    }
  }

  /** The step of `DrawMeaning` that paints cycle `n + 1 <= 240`. */
  lemma PaintAppends(before: seq<seq<char>>, samples: seq<Sample>, n: nat)
    requires n < CrtPixels && n < |samples| && samples[n].cycle == n + 1
    requires |before| == n / CrtWidth + 1
    requires forall r :: 0 <= r < |before| - 1 ==> |before[r]| == CrtWidth
    requires |before[|before| - 1]| == n - CrtWidth * (|before| - 1)
    requires ScreenMatches(before, samples)
    ensures var screen := Paint(before, samples[n]);
      var drawn := n + 1;
      && |screen| == (if drawn == CrtPixels then CrtHeight else drawn / CrtWidth + 1)
      && (forall r :: 0 <= r < |screen| - 1 ==> |screen[r]| == CrtWidth)
      && |screen[|screen| - 1]| == drawn - CrtWidth * (|screen| - 1)
      && ScreenMatches(screen, samples)
  {
    var last := |before| - 1;
    var j := n - CrtWidth * last;
    assert 0 <= j < CrtWidth;
    assert (samples[n].cycle - 1) % CrtWidth == j;
    var painted := before[..last] + [before[last] + [Pixel(samples[n].cycle, samples[n].x)]];
    assert ScreenMatches(painted, samples) by {
      forall r, i | 0 <= r < |painted| && 0 <= i < |painted[r]|
        ensures CrtWidth * r + i < |samples|
        ensures painted[r][i] == (if samples[CrtWidth * r + i].x - 1 <= i <= samples[CrtWidth * r + i].x + 1 then '#' else '.')
      {
        if r < last || i < j {
          assert painted[r][i] == before[r][i];
        }
      }
    }
    if (n + 1) % CrtWidth == 0 && n + 1 < CrtPixels {
      var extended := painted + [[]];
      assert ScreenMatches(extended, samples) by {
        forall r, i | 0 <= r < |extended| && 0 <= i < |extended[r]|
          ensures extended[r][i] == painted[r][i]
        {
        }
      }
    }
  }

  /** The screen never has more than six rows of forty pixels. */
  lemma ScreenBounds(samples: seq<Sample>)
    requires FromCycleOne(samples)
    ensures |Draw(samples)| <= CrtHeight
    ensures forall r :: 0 <= r < |Draw(samples)| ==> |Draw(samples)[r]| <= CrtWidth
  {
    DrawMeaning(samples);
  }

  /** The strengths and the screen recorded for the samples (the screen
      stays one empty row when the CRT is off). */
  ghost predicate Shows(samples: seq<Sample>, signalStrengths: seq<int>, crt: seq<seq<char>>, crtEnabled: bool) {
    && signalStrengths == Strengths(samples)
    && crt == (if crtEnabled then Draw(samples) else [[]])
  }

  /** Running one more instruction of a program extends the cycle count,
      the register and the samples by that instruction's. */
  lemma RunStep(first: seq<Sample>, cycle: int, x: int, instructions: seq<Instruction>, m: nat,
                before: seq<Sample>, after: seq<Sample>, now: int, nowX: int)
    requires m < |instructions|
    requires before == first + Samples(cycle, x, instructions[..m])
    requires now == cycle + TotalCycles(instructions[..m]) && nowX == FinalX(x, instructions[..m])
    requires after == before + InstructionSamples(now, nowX, instructions[m])
    ensures now + instructions[m].Cycles() == cycle + TotalCycles(instructions[..m + 1])
    ensures instructions[m].Execute(nowX) == FinalX(x, instructions[..m + 1])
    ensures after == first + Samples(cycle, x, instructions[..m + 1])
  {
    assert instructions[..m + 1][..m] == instructions[..m];
    Common.AppendAssociative(first, Samples(cycle, x, instructions[..m]), InstructionSamples(now, nowX, instructions[m]));
  }

  datatype ExecutionResult = ExecutionResult(signalStrengths: seq<int>, crt: seq<seq<char>>)

  class Computer {
    const crtEnabled: bool
    var registerX: int
    var cycle: int
    var signalStrengths: seq<int>
    var crt: seq<seq<char>>
    /** The `(cycle, X)` pairs seen by `checkCycle` so far. */
    ghost var samples: seq<Sample>

    /** The cycle counter has started, and the recorded strengths and the
        screen are those of the samples seen so far. */
    ghost predicate Valid()
      reads this
    {
      && cycle >= 1
      && Shows(samples, signalStrengths, crt, crtEnabled)
    }

    constructor (crtEnabled: bool)
      ensures Valid()
      ensures this.crtEnabled == crtEnabled
      ensures registerX == 1 && cycle == 1 && samples == []
    {
      this.crtEnabled := crtEnabled;
      registerX := 1;
      cycle := 1;
      signalStrengths := [];
      crt := [[]];
      samples := [];
    }

    method HandleCrt()
      requires cycle >= 1 && crt != []
      modifies this
      ensures registerX == old(registerX) && cycle == old(cycle)
      ensures crt == Paint(old(crt), Sample(cycle, registerX))
      ensures signalStrengths == old(signalStrengths) && samples == old(samples)
    {
      if cycle <= CrtPixels {
        var crtPosition := (cycle - 1) % CrtWidth;
        var pixel := if crtPosition >= registerX - 1 && crtPosition <= registerX + 1 then '#' else '.';
        crt := crt[..|crt| - 1] + [crt[|crt| - 1] + [pixel]];
        if cycle % CrtWidth == 0 && cycle < CrtPixels {
          crt := crt + [[]];
        }
      }
    }

    /** One sample of the current cycle and register. */
    method CheckCycle()
      requires Valid()
      modifies this
      ensures Valid()
      ensures samples == old(samples) + [Sample(cycle, registerX)]
      ensures registerX == old(registerX) && cycle == old(cycle)
    {
      ghost var seen := samples + [Sample(cycle, registerX)];
      assert seen[..|samples|] == samples;
      if crtEnabled {
        HandleCrt();
      }
      if cycle in InterestingCycles {
        signalStrengths := signalStrengths + [cycle * registerX];
      }
      samples := seen;
    }

    /** The inner loop of `execute`: the cycle advances `n` times, with
        `checkCycle` after each advance but the last. */
    method Advance(n: nat)
      requires Valid() && n >= 1
      modifies this
      ensures Valid()
      ensures samples == old(samples) + Waiting(old(cycle), registerX, n - 1)
      ensures cycle == old(cycle) + n && registerX == old(registerX)
    {
      for i := 0 to n
        invariant Valid()
        invariant cycle == old(cycle) + i
        invariant registerX == old(registerX)
        invariant samples == old(samples) + Waiting(old(cycle), registerX, if i < n then i else n - 1)
      {
        cycle := cycle + 1;
        if i < n - 1 {
          CheckCycle();
          WaitingStep(old(samples), old(cycle), registerX, i);
        }
      }
    }

    /** One instruction: the cycle advances once per cycle it takes, with
        `checkCycle` at each of them but the last, and at the last after the
        instruction has taken effect. */
    method RunInstruction(instruction: Instruction)
      requires Valid()
      modifies this
      ensures Valid()
      ensures samples == old(samples) + InstructionSamples(old(cycle), old(registerX), instruction)
      ensures cycle == old(cycle) + instruction.Cycles()
      ensures registerX == instruction.Execute(old(registerX))
    {
      Advance(instruction.Cycles());
      registerX := instruction.Execute(registerX);
      CheckCycle();
      InstructionSamplesAppend(old(samples), old(cycle), old(registerX), instruction, samples);
    }

    /** `execute`: `checkCycle` at the start, then the instructions in
        order. */
    method Execute(instructions: seq<Instruction>) returns (result: ExecutionResult)
      requires Valid()
      modifies this
      ensures Valid()
      ensures samples == old(samples) + [Sample(old(cycle), old(registerX))]
        + Samples(old(cycle), old(registerX), instructions)
      ensures cycle == old(cycle) + TotalCycles(instructions)
      ensures registerX == FinalX(old(registerX), instructions)
      ensures result == ExecutionResult(signalStrengths, crt)
    {
      CheckCycle();
      ghost var first := samples;
      for m := 0 to |instructions|
        invariant Valid()
        invariant cycle == old(cycle) + TotalCycles(instructions[..m])
        invariant registerX == FinalX(old(registerX), instructions[..m])
        invariant samples == first + Samples(old(cycle), old(registerX), instructions[..m])
      {
        ghost var (before, now, nowX) := (samples, cycle, registerX);
        RunInstruction(instructions[m]);
        RunStep(first, old(cycle), old(registerX), instructions, m, before, samples, now, nowX);
      }
      assert instructions[..|instructions|] == instructions;
      result := ExecutionResult(signalStrengths, crt);
    }
  }

  /** `play`: a fresh computer runs the program. */
  method Play(instructions: seq<Instruction>, crtEnabled: bool) returns (result: ExecutionResult)
    ensures result.signalStrengths == Strengths(Run(instructions))
    ensures result.crt == if crtEnabled then Draw(Run(instructions)) else [[]]
  {
    var computer := new Computer(crtEnabled);
    result := computer.Execute(instructions);
    assert computer.samples == Run(instructions);
  }

  /** What part 1 sums: the strength at each interesting cycle the program
      reaches, the cycle number times X during it. */
  lemma Part1Meaning(instructions: seq<Instruction>)
    ensures var strengths := Strengths(Run(instructions));
      && |strengths| == Reached(1 + TotalCycles(instructions))
      && forall j :: 0 <= j < |strengths| ==>
        strengths[j] == InterestingCycles[j] * Run(instructions)[InterestingCycles[j] - 1].x
  {
    RunCycles(instructions);
    StrengthsMeaning(Run(instructions));
  }

  /** What part 2 draws: at most six rows of forty pixels, the pixel of
      each cycle lit exactly when the sprite covers its column. */
  lemma Part2Meaning(instructions: seq<Instruction>)
    ensures var screen := Draw(Run(instructions));
      && |screen| <= CrtHeight
      && (forall r :: 0 <= r < |screen| ==> |screen[r]| <= CrtWidth)
      && ScreenMatches(screen, Run(instructions))
  {
    RunCycles(instructions);
    DrawMeaning(Run(instructions));
  }

  /** A three-instruction program: X is 1 during cycles 1 to 3, 4 during
      cycles 4 and 5, and -1 after the last `addx`. */
  lemma SmallProgram(instructions: seq<Instruction>)
    requires instructions == [Noop, Addx(3), Addx(-5)]
    ensures Run(instructions)
      == [Sample(1, 1), Sample(2, 1), Sample(3, 1), Sample(4, 4), Sample(5, 4), Sample(6, -1)]
  {
    var one, two := instructions[..1], instructions[..2];
    assert one[..0] == [] && two[..1] == one && instructions[..2] == two;
    assert Samples(1, 1, one) == [Sample(2, 1)];
    assert FinalX(1, one) == 1 && TotalCycles(one) == 1;
    assert Samples(1, 1, two) == [Sample(2, 1), Sample(3, 1), Sample(4, 4)];
    assert FinalX(1, two) == 4 && TotalCycles(two) == 3;
  }
}
