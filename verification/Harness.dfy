/** The fuzz harness around the decoder: the self-check of an accepted instruction, the
    truncation check, and the loop over a whole buffer, with its 32-bit counters. */
module Harness {
  import opened Types
  import S = Stream
  import opened Locality
  import opened WellFormed
  import opened Full
  import D = Decoder
  import opened Sweep

  type uint32 = x: int | 0 <= x < TWO_32

  /** Unsigned 32-bit counter arithmetic. */
  function Add32(x: uint32, k: nat): uint32 { (x + k) % TWO_32 }

  lemma Add32Twice(x: uint32, k: nat, m: nat)
    ensures Add32(Add32(x, k), m) == Add32(x, k + m) && Add32(x, 0) == x
  {
  }

  class HarnessResult {
    var parsedOk: bool
    var anomalyCount: uint32
    var validationIssueCount: uint32

    constructor ()
      ensures !parsedOk && anomalyCount == 0 && validationIssueCount == 0
    {
      parsedOk, anomalyCount, validationIssueCount := false, 0, 0;
    }
  }

  method RecordFailure(result: HarnessResult)
    modifies result`anomalyCount
    ensures result.anomalyCount == Add32(old(result.anomalyCount), 1)
  {
    result.anomalyCount := (result.anomalyCount + 1) % TWO_32;
  }

  method RecordIssue(result: HarnessResult)
    modifies result`validationIssueCount
    ensures result.validationIssueCount == Add32(old(result.validationIssueCount), 1)
  {
    result.validationIssueCount := (result.validationIssueCount + 1) % TWO_32;
  }

  function Min(x: nat, y: nat): nat { if x < y then x else y }

  /** What the self-check counts: a length out of range, a length past the input, too many
      operands, and every register operand without a register. */
  function Issues(instruction: Instruction, operands: seq<Operand>, available: nat): nat
    requires |operands| == MAX_OPERANDS
  {
    (if instruction.length == 0 || instruction.length > MAX_INSTRUCTION_LENGTH then 1 else 0)
    + (if instruction.length > available then 1 else 0)
    + (if instruction.operandCount > MAX_OPERANDS then 1 else 0)
    + NoneCount(operands[..Min(instruction.operandCount, MAX_OPERANDS)])
  }

  lemma {:induction false} NoneCountExactly(ops: seq<Operand>)
    ensures NoneCount(ops) == 0 <==> forall i :: 0 <= i < |ops| ==> !(ops[i].RegisterOperand? && ops[i].reg == NoRegister)
  {
    if ops != [] {
      NoneCountExactly(ops[1..]);
      if NoneCount(ops) == 0 {
        forall i | 0 <= i < |ops|
          ensures !(ops[i].RegisterOperand? && ops[i].reg == NoRegister)
        {
          if i > 0 {
            assert ops[i] == ops[1..][i - 1];
          }
        }
      } else if ops[0].RegisterOperand? && ops[0].reg == NoRegister {
        assert !forall i :: 0 <= i < |ops| ==> !(ops[i].RegisterOperand? && ops[i].reg == NoRegister);
      }
    }
  }

  /** The self-check finds nothing exactly when the length is in range and inside the input, the
      operands fit, and every register operand has a register. */
  lemma IssuesExact(instruction: Instruction, operands: seq<Operand>, available: nat)
    requires |operands| == MAX_OPERANDS
    ensures Issues(instruction, operands, available) == 0 <==>
      && 1 <= instruction.length <= 15 && instruction.length <= available
      && instruction.operandCount <= 4
      && forall i :: 0 <= i < instruction.operandCount && i < |operands| ==>
           !(operands[i].RegisterOperand? && operands[i].reg == NoRegister)
  {
    var n := Min(instruction.operandCount, MAX_OPERANDS);
    NoneCountExactly(operands[..n]);
    assert forall i :: 0 <= i < n ==> operands[..n][i] == operands[i];
  }

  lemma {:induction false} NoneCountSnoc(ops: seq<Operand>, op: Operand)
    ensures NoneCount(ops + [op]) ==
      NoneCount(ops) + if op.RegisterOperand? && op.reg == NoRegister then 1 else 0
  {
    if ops == [] {
      assert ops + [op] == [op] && [op][1..] == [];
    } else {
      assert (ops + [op])[1..] == ops[1..] + [op];
      NoneCountSnoc(ops[1..], op);
    }
  }

  method ValidateSuccessfulDecode(instruction: Instruction, operands: array<Operand>, available: nat,
                                  result: HarnessResult)
    requires operands.Length == MAX_OPERANDS
    modifies result`validationIssueCount
    ensures result.validationIssueCount ==
      Add32(old(result.validationIssueCount), Issues(instruction, operands[..], available))
  {
    hide Add32;
    ghost var start, found := result.validationIssueCount, 0;
    Add32Twice(start, 0, 0);
    if instruction.length == 0 || instruction.length > MAX_INSTRUCTION_LENGTH {
      RecordIssue(result);
      found := found + 1;
    }
    if instruction.length > available {
      Add32Twice(start, found, 1);
      RecordIssue(result);
      found := found + 1;
    }
    if instruction.operandCount > MAX_OPERANDS {
      Add32Twice(start, found, 1);
      RecordIssue(result);
      found := found + 1;
    }
    ghost var base := found;
    var operandCount := Min(instruction.operandCount, MAX_OPERANDS);
    for index := 0 to operandCount
      invariant result.validationIssueCount == Add32(start, base + NoneCount(operands[..index]))
    {
      NoneCountSnoc(operands[..index], operands[index]);
      assert operands[..index + 1] == operands[..index] + [operands[index]];
      if operands[index].RegisterOperand? && operands[index].reg == NoRegister {
        Add32Twice(start, base + NoneCount(operands[..index]), 1);
        RecordIssue(result);
      }
    }
    assert operands[..][..operandCount] == operands[..operandCount];
  }

  /** Decodes all but the last byte of an accepted instruction again. Acceptance would be an
      issue; refusal is the expected anomaly. */
  method ExerciseTruncation(decoder: D.Decoder, cursor: seq<byte>, successfulLength: nat, result: HarnessResult)
    requires successfulLength <= |cursor| + 1 || successfulLength > MAX_INSTRUCTION_LENGTH
    modifies result`validationIssueCount, result`anomalyCount
    ensures var issue := successfulLength > MAX_INSTRUCTION_LENGTH
        || (successfulLength > 1 && decoder.initialized && S.Decode(decoder.mode, cursor[..successfulLength - 1]).Ok?);
      && result.validationIssueCount == Add32(old(result.validationIssueCount), if issue then 1 else 0)
      && result.anomalyCount == Add32(old(result.anomalyCount), if issue then 0 else 1)
  {
    hide S.Drive;
    Add32Twice(result.validationIssueCount, 0, 0);
    Add32Twice(result.anomalyCount, 0, 0);
    if successfulLength > MAX_INSTRUCTION_LENGTH {
      RecordIssue(result);
      return;
    }
    var truncatedLength := if successfulLength == 0 then 0 else successfulLength - 1;
    var operands := new Operand[MAX_OPERANDS](_ => NoOperand);
    var status, instruction := decoder.DecodeFull(cursor[..truncatedLength], CLEARED, operands);
    if status == Success {
      RecordIssue(result);
      return;
    }
    RecordFailure(result);
  }

  // ---------------------------------------------------------------- the loop

  /** Issues of one step: only opcode maps 2 and 3 have any. */
  function StepIssues(step: Step): nat {
    if step.SkipByte? || step.streamed.ctx.opcodeMap <= 1 then 0
    else if S.High2(step.streamed.ctx.modrm) == 3 then 2
    else 1
  }

  function TotalIssues(steps: seq<Step>): nat {
    if steps == [] then 0 else TotalIssues(steps[..|steps| - 1]) + StepIssues(steps[|steps| - 1])
  }

  predicate AnyAccepted(steps: seq<Step>) {
    exists i :: 0 <= i < |steps| && steps[i].Accept?
  }

  /** On an accepted instruction the self-check finds the registers that are none, and nothing else. */
  lemma AcceptedIssues(tables: Tables, mode: MachineMode, cursor: seq<byte>)
    requires |cursor| > 0 && S.Decode(mode, cursor).Ok?
    ensures DecodeFull(tables, mode, cursor).Ok?
    ensures var d := DecodeFull(tables, mode, cursor).value;
      && |d.operands| <= MAX_OPERANDS && d.instruction.length == S.Decode(mode, cursor).value.ctx.offset
      && Issues(d.instruction, Slots(d.operands), |cursor|)
         == StepIssues(Accept(0, S.Decode(mode, cursor).value))
  {
    hide S.Drive, OperandsOf;
    OperandsWellFormed(mode, cursor);
    LengthBound(mode, cursor);
    NoneCountExact(mode, cursor);
    var ops := OperandsOf(mode, cursor, S.Decode(mode, cursor).value);
    assert Slots(ops)[..|ops|] == ops;
  }

  /** One iteration of the loop, at the cursor. */
  method ExerciseAt(decoder: D.Decoder, cursor: seq<byte>, result: HarnessResult) returns (advance: nat)
    requires |cursor| > 0
    modifies result
    ensures var step := if decoder.initialized then StepAt(decoder.mode, cursor, 0) else SkipByte(0);
      && advance == Width(step)
      && result.anomalyCount == Add32(old(result.anomalyCount), 1)
      && result.validationIssueCount == Add32(old(result.validationIssueCount), StepIssues(step))
      && result.parsedOk == (old(result.parsedOk) || step.Accept?)
  {
    hide S.Drive, Add32, DecodeFull, StepIssues;
    assert cursor[0..] == cursor;
    Add32Twice(result.validationIssueCount, 0, 0);
    var operands := new Operand[MAX_OPERANDS](_ => NoOperand);
    AcceptsTogether(decoder.tables, decoder.mode, cursor);
    var status, instruction := decoder.DecodeFull(cursor, CLEARED, operands);
    if status == Success {
      result.parsedOk := true;
      AcceptedIssues(decoder.tables, decoder.mode, cursor);
      LengthBound(decoder.mode, cursor);
      PrefixFree(decoder.mode, cursor, instruction.length - 1);
      ValidateSuccessfulDecode(instruction, operands, |cursor|, result);
      Add32Twice(result.validationIssueCount, 0, 0);
      ExerciseTruncation(decoder, cursor, instruction.length, result);
      advance := instruction.length;
      if advance == 0 || advance > MAX_INSTRUCTION_LENGTH || advance > |cursor| {
        assert false; // the advance fallback never fires
      }
    } else {
      RecordFailure(result);
      advance := 1;
      if decoder.initialized {
        SkipHasNoIssues(decoder.mode, cursor);
      } else {
        SkippedByteHasNoIssues(0);
      }
    }
  }

  lemma AcceptsTogether(tables: Tables, mode: MachineMode, cursor: seq<byte>)
    requires |cursor| > 0
    ensures DecodeFull(tables, mode, cursor).Ok? == S.Decode(mode, cursor).Ok?
  {
    hide S.Drive;
  }

  lemma SkipHasNoIssues(mode: MachineMode, cursor: seq<byte>)
    requires |cursor| > 0 && S.Decode(mode, cursor).Err?
    ensures StepAt(mode, cursor, 0).SkipByte? && StepIssues(StepAt(mode, cursor, 0)) == 0
  {
    assert cursor[0..] == cursor;
  }

  lemma SkippedByteHasNoIssues(offset: nat)
    ensures StepIssues(SkipByte(offset)) == 0 && Width(SkipByte(offset)) == 1
  {
  }

  lemma StepAtCursor(mode: MachineMode, input: seq<byte>, offset: nat)
    requires offset < |input|
    ensures var here, there := StepAt(mode, input, offset), StepAt(mode, input[offset..], 0);
      Width(here) == Width(there) && here.Accept? == there.Accept? && StepIssues(here) == StepIssues(there)
  {
    hide S.Drive;
    assert input[offset..][0..] == input[offset..];
  }

  lemma NothingDone(mode: MachineMode, input: seq<byte>, left: nat)
    ensures TotalIssues([]) == 0 && !AnyAccepted([])
    ensures input == [] ==> Steps(mode, input, 0, left) == []
  {
  }

  /** The loop over a whole buffer. It runs the sweep; every iteration records exactly one
      anomaly; and issues come only from accepted instructions in opcode maps 2 and 3. With a
      decoder that was never initialised it skips byte by byte. */
  method ExerciseDecodeLoop(decoder: D.Decoder, input: seq<byte>, result: HarnessResult)
    modifies result
    ensures decoder.initialized ==>
      var steps := Steps(decoder.mode, input, 0, MAX_INSTRUCTIONS_PER_LOOP);
      && result.anomalyCount == Add32(old(result.anomalyCount), |steps|)
      && result.validationIssueCount == Add32(old(result.validationIssueCount), TotalIssues(steps))
      && result.parsedOk == (old(result.parsedOk) || AnyAccepted(steps))
    ensures !decoder.initialized ==>
      && result.anomalyCount == Add32(old(result.anomalyCount), Min(|input|, MAX_INSTRUCTIONS_PER_LOOP))
      && result.validationIssueCount == old(result.validationIssueCount)
      && result.parsedOk == old(result.parsedOk)
  {
    hide S.Drive, Add32, StepIssues, StepAt, Width, Steps, TotalIssues, AnyAccepted;
    NothingDone(decoder.mode, input, MAX_INSTRUCTIONS_PER_LOOP);
    Add32Twice(result.anomalyCount, 0, 0);
    Add32Twice(result.validationIssueCount, 0, 0);
    if |input| == 0 { return; }
    ghost var mode, anomalies, issues := decoder.mode, result.anomalyCount, result.validationIssueCount;
    ghost var ready := decoder.initialized;
    ghost var done: seq<Step> := [];
    var offset: nat, iterations: nat := 0, 0;
    while offset < |input| && iterations < MAX_INSTRUCTIONS_PER_LOOP
      invariant 0 <= iterations <= MAX_INSTRUCTIONS_PER_LOOP && |done| == iterations
      invariant ready ==>
        Steps(mode, input, 0, MAX_INSTRUCTIONS_PER_LOOP)
        == done + Steps(mode, input, offset, MAX_INSTRUCTIONS_PER_LOOP - iterations)
      invariant !ready ==> offset == iterations <= |input| && TotalIssues(done) == 0 && !AnyAccepted(done)
      invariant decoder.mode == mode && decoder.initialized == ready
      invariant result.anomalyCount == Add32(anomalies, |done|)
      invariant result.validationIssueCount == Add32(issues, TotalIssues(done))
      invariant result.parsedOk == (old(result.parsedOk) || AnyAccepted(done))
      decreases MAX_INSTRUCTIONS_PER_LOOP - iterations
    {
      ghost var step := if ready then StepAt(mode, input, offset) else SkipByte(0);
      StepsUnfold(mode, input, offset, MAX_INSTRUCTIONS_PER_LOOP - iterations);
      StepAtCursor(mode, input, offset);
      SkippedByteHasNoIssues(0);
      Add32Twice(anomalies, |done|, 1);
      Add32Twice(issues, TotalIssues(done), StepIssues(step));
      var advance := ExerciseAt(decoder, input[offset..], result);
      DoneGrows(done, step);
      offset, iterations, done := offset + advance, iterations + 1, done + [step];
    }
    StepsEnd(mode, input, offset, MAX_INSTRUCTIONS_PER_LOOP - iterations);
    assert done + [] == done;
  }

  lemma DoneGrows(done: seq<Step>, step: Step)
    ensures TotalIssues(done + [step]) == TotalIssues(done) + StepIssues(step)
    ensures AnyAccepted(done + [step]) == (AnyAccepted(done) || step.Accept?)
  {
    var all := done + [step];
    assert all[..|all| - 1] == done && all[|done|] == step;
    if AnyAccepted(done) {
      var i :| 0 <= i < |done| && done[i].Accept?;
      assert all[i].Accept?;
    }
  }
}
