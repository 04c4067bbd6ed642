/** Linear sweep over a byte string: unique decodability, tiling and composition. */
module Sweep {
  import opened Types
  import opened Stream
  import opened Locality

  // ---------------------------------------------------------------- unique decodability

  /** The byte string is exactly one accepted instruction. */
  predicate IsInstruction(mode: MachineMode, x: seq<byte>) {
    var r := Decode(mode, x);
    r.Ok? && r.value.ctx.offset == |x|
  }

  function Flatten(pieces: seq<seq<byte>>): seq<byte> {
    if pieces == [] then [] else pieces[0] + Flatten(pieces[1..])
  }

  predicate AllInstructions(mode: MachineMode, pieces: seq<seq<byte>>) {
    forall i :: 0 <= i < |pieces| ==> IsInstruction(mode, pieces[i])
  }

  /** Decoding a string that starts with an instruction yields that instruction. */
  lemma InstructionFirst(mode: MachineMode, x: seq<byte>, rest: seq<byte>)
    requires IsInstruction(mode, x)
    ensures Decode(mode, x + rest) == Decode(mode, x)
    ensures |x| >= 1
  {
    LengthBound(mode, x);
    ExtensionStable(mode, x, x + rest);
  }

  /** Unique decodability: a byte string has at most one segmentation into accepted instructions. */
  lemma {:induction false} UniqueSegmentation(mode: MachineMode, xs: seq<seq<byte>>, ys: seq<seq<byte>>)
    requires AllInstructions(mode, xs) && AllInstructions(mode, ys)
    requires Flatten(xs) == Flatten(ys)
    ensures xs == ys
    decreases |xs|
  {
    if xs == [] || ys == [] {
      if xs != [] {
        InstructionFirst(mode, xs[0], Flatten(xs[1..]));
      }
      if ys != [] {
        InstructionFirst(mode, ys[0], Flatten(ys[1..]));
      }
    } else {
      var x, y := xs[0], ys[0];
      InstructionFirst(mode, x, Flatten(xs[1..]));
      InstructionFirst(mode, y, Flatten(ys[1..]));
      assert |x| == |y|;
      assert x == Flatten(xs)[..|x|] && y == Flatten(ys)[..|y|];
      assert Flatten(xs[1..]) == Flatten(xs)[|x|..] && Flatten(ys[1..]) == Flatten(ys)[|y|..];
      UniqueSegmentation(mode, xs[1..], ys[1..]);
      assert xs == [x] + xs[1..] && ys == [y] + ys[1..];
    }
  }

  // ---------------------------------------------------------------- the sweep

  const MAX_INSTRUCTIONS_PER_LOOP: nat := 10000

  /** One iteration: an accepted instruction, or one skipped byte. */
  datatype Step = Accept(offset: nat, streamed: Streamed) | SkipByte(offset: nat)

  function Width(step: Step): nat {
    if step.Accept? then step.streamed.ctx.offset else 1
  }

  function StepAt(mode: MachineMode, input: seq<byte>, offset: nat): Step
    requires offset < |input|
  {
    match Decode(mode, input[offset..])
    case Ok(s) => Accept(offset, s)
    case Err(_) => SkipByte(offset)
  }

  function Steps(mode: MachineMode, input: seq<byte>, offset: nat, left: nat): seq<Step>
    decreases left
  {
    if offset >= |input| || left == 0 then []
    else
      var step := StepAt(mode, input, offset);
      [step] + Steps(mode, input, offset + Width(step), left - 1)
  }

  /** Where the sweep stops. */
  function End(offset: nat, steps: seq<Step>): nat
    decreases |steps|
  {
    if steps == [] then offset else End(offset + Width(steps[0]), steps[1..])
  }

  // ---------------------------------------------------------------- tiling

  /** The steps lie end to end from one offset to another, each at least one byte wide. */
  predicate Tiles(from: nat, steps: seq<Step>, to: nat)
    decreases |steps|
  {
    if steps == [] then from == to
    else steps[0].offset == from && Width(steps[0]) >= 1 && Tiles(from + Width(steps[0]), steps[1..], to)
  }

  lemma StepInside(mode: MachineMode, input: seq<byte>, offset: nat)
    requires offset < |input|
    ensures var step := StepAt(mode, input, offset);
      && step.offset == offset && 1 <= Width(step) <= MAX_INSTRUCTION_LENGTH && offset + Width(step) <= |input|
  {
    if Decode(mode, input[offset..]).Ok? {
      LengthBound(mode, input[offset..]);
    }
  }

  /** The sweep tiles its input: it covers it exactly, unless the iteration limit stops it. */
  lemma {:induction false} SweepTiles(mode: MachineMode, input: seq<byte>, offset: nat, left: nat)
    requires offset <= |input|
    ensures var steps := Steps(mode, input, offset, left);
      && Tiles(offset, steps, End(offset, steps))
      && offset <= End(offset, steps) <= |input|
      && |steps| <= left
      && (End(offset, steps) < |input| ==> |steps| == left)
    decreases left
  {
    if offset < |input| && left > 0 {
      StepInside(mode, input, offset);
      var step := StepAt(mode, input, offset);
      var rest := Steps(mode, input, offset + Width(step), left - 1);
      SweepTiles(mode, input, offset + Width(step), left - 1);
      assert ([step] + rest)[1..] == rest;
    }
  }

  // ---------------------------------------------------------------- composition

  predicate AllAccepted(steps: seq<Step>) {
    forall i :: 0 <= i < |steps| ==> steps[i].Accept?
  }

  function Shift(steps: seq<Step>, distance: nat): seq<Step> {
    seq(|steps|, i requires 0 <= i < |steps| =>
      if steps[i].Accept? then Accept(steps[i].offset + distance, steps[i].streamed) else SkipByte(steps[i].offset + distance))
  }

  lemma {:induction false} SweepShift(mode: MachineMode, a: seq<byte>, b: seq<byte>, offset: nat, left: nat)
    ensures Steps(mode, a + b, |a| + offset, left) == Shift(Steps(mode, b, offset, left), |a|)
    decreases left
  {
    hide Drive;
    if offset < |b| && left > 0 {
      assert (a + b)[|a| + offset..] == b[offset..];
      var step := StepAt(mode, b, offset);
      SweepShift(mode, a, b, offset + Width(step), left - 1);
      var rest := Steps(mode, b, offset + Width(step), left - 1);
      assert Shift([step] + rest, |a|) == Shift([step], |a|) + Shift(rest, |a|);
    }
  }

  lemma StepsUnfold(mode: MachineMode, input: seq<byte>, offset: nat, left: nat)
    requires offset < |input| && left > 0
    ensures var step := StepAt(mode, input, offset);
      Steps(mode, input, offset, left) == [step] + Steps(mode, input, offset + Width(step), left - 1)
  {
  }

  lemma StepsEnd(mode: MachineMode, input: seq<byte>, offset: nat, left: nat)
    requires offset >= |input| || left == 0
    ensures Steps(mode, input, offset, left) == []
  {
  }

  lemma ConsAccepted(step: Step, rest: seq<Step>, offset: nat)
    requires AllAccepted([step] + rest)
    ensures step.Accept? && AllAccepted(rest) && End(offset, [step] + rest) == End(offset + Width(step), rest)
  {
    var all := [step] + rest;
    assert all[0] == step && all[1..] == rest;
    forall i | 0 <= i < |rest|
      ensures rest[i].Accept?
    {
      assert rest[i] == all[i + 1];
    }
  }

  lemma {:induction false} SweepPrefix(mode: MachineMode, a: seq<byte>, b: seq<byte>, offset: nat, left: nat)
    requires offset <= |a|
    requires var steps := Steps(mode, a, offset, left); AllAccepted(steps) && End(offset, steps) == |a|
    ensures var steps := Steps(mode, a, offset, left);
      |steps| <= left && Steps(mode, a + b, offset, left) == steps + Steps(mode, a + b, |a|, left - |steps|)
    decreases left
  {
    hide Drive, StepAt, Steps, AllAccepted;
    if offset < |a| && left > 0 {
      var step := StepAt(mode, a, offset);
      var rest := Steps(mode, a, offset + Width(step), left - 1);
      StepsUnfold(mode, a, offset, left);
      ConsAccepted(step, rest, offset);
      StepInside(mode, a, offset);
      AcceptedStays(mode, a, b, offset);
      StepsUnfold(mode, a + b, offset, left);
      SweepPrefix(mode, a, b, offset + Width(step), left - 1);
    } else {
      StepsEnd(mode, a, offset, left);
    }
  }

  /** More input changes no accepted step. */
  lemma AcceptedStays(mode: MachineMode, a: seq<byte>, b: seq<byte>, offset: nat)
    requires offset < |a| && StepAt(mode, a, offset).Accept?
    ensures StepAt(mode, a + b, offset) == StepAt(mode, a, offset)
  {
    hide Drive;
    assert a[offset..] <= (a + b)[offset..];
    ExtensionStable(mode, a[offset..], (a + b)[offset..]);
  }

  /** Sweep composition: if the sweep of a accepts all of a, the sweep of a + b is the sweep of a
      followed by the shifted sweep of b, within the same iteration limit. */
  lemma SweepComposition(mode: MachineMode, a: seq<byte>, b: seq<byte>, left: nat)
    requires var steps := Steps(mode, a, 0, left); AllAccepted(steps) && End(0, steps) == |a|
    ensures var steps := Steps(mode, a, 0, left);
      |steps| <= left && Steps(mode, a + b, 0, left) == steps + Shift(Steps(mode, b, 0, left - |steps|), |a|)
  {
    SweepPrefix(mode, a, b, 0, left);
    SweepShift(mode, a, b, 0, left - |Steps(mode, a, 0, left)|);
  }

  /** The sweep finds the segmentation of every string that has one. */
  lemma {:induction false} SweepFindsSegmentation(mode: MachineMode, pieces: seq<seq<byte>>, left: nat)
    requires AllInstructions(mode, pieces) && |pieces| <= left
    ensures var steps := Steps(mode, Flatten(pieces), 0, left);
      |steps| == |pieces| && forall i :: 0 <= i < |pieces| ==> steps[i].Accept? && Width(steps[i]) == |pieces[i]|
    decreases |pieces|
  {
    if pieces != [] {
      var first, rest := pieces[0], Flatten(pieces[1..]);
      InstructionFirst(mode, first, rest);
      SweepFindsSegmentation(mode, pieces[1..], left - 1);
      SweepShift(mode, first, rest, 0, left - 1);
      assert (first + rest)[0..] == first + rest;
      assert StepAt(mode, first + rest, 0) == Accept(0, Decode(mode, first).value);
      var steps, tail := Steps(mode, first + rest, 0, left), Steps(mode, rest, 0, left - 1);
      assert steps == [steps[0]] + Shift(tail, |first|);
      forall i | 0 <= i < |pieces|
        ensures steps[i].Accept? && Width(steps[i]) == |pieces[i]|
      {
        if i > 0 {
          assert steps[i] == Shift(tail, |first|)[i - 1] && pieces[i] == pieces[1..][i - 1];
        }
      }
    }
  }
}
