/** Decode and format in one call, and what it prints for a relative branch. */
module Disassemble {
  import opened Types
  import S = Stream
  import opened Operands
  import opened Shape
  import opened WellFormed
  import opened Full
  import opened Builder
  import opened Text
  import opened Numbers
  import R = Raw
  import D = Decoder
  import F = Formatter

  /** No negation in the formatter is ever applied to the least 64-bit integer on operands that
      the decoder produced. */
  lemma DecodedIsNegatable(c: S.Context, op: Operand)
    requires WellFormedOperand(c, op)
    ensures F.Negatable(op)
  {
  }

  lemma DecodedOperands(tables: Tables, mode: MachineMode, buf: seq<byte>)
    requires DecodeFull(tables, mode, buf).Ok?
    ensures var d := DecodeFull(tables, mode, buf).value;
      && |d.operands| <= 3 && d.instruction.operandCount == |d.operands|
      && forall i :: 0 <= i < |d.operands| ==> F.Negatable(d.operands[i]) && d.operands[i] != NoOperand
  {
    hide S.Drive, OperandsOf, F.Negatable;
    OperandsWellFormed(mode, buf);
    var s := S.Decode(mode, buf).value;
    var ops := OperandsOf(mode, buf, s);
    forall i | 0 <= i < |ops|
      ensures F.Negatable(ops[i]) && ops[i] != NoOperand
    {
      DecodedIsNegatable(s.ctx, ops[i]);
    }
  }

  method Disassemble(tables: Tables, names: nat -> string, mode: MachineMode, buf: seq<byte>, runtimeAddress: nat,
                     before: Instruction, operands: array<Operand>, text: array?<char>)
    returns (status: Status, instruction: Instruction)
    requires operands.Length == MAX_OPERANDS
    modifies operands, text
    ensures match DecodeFull(tables, mode, buf)
      case Err(e) =>
        && status == e != Success
        && (if |buf| == 0 then instruction == before && operands[..] == old(operands[..])
            else instruction == CLEARED && Cleared(operands))
        && (text != null ==> text[..] == old(text[..]))
      case Ok(d) =>
        && status == Success
        && instruction == d.instruction.(address := runtimeAddress)
        && Holds(operands, instruction.operandCount, d.operands)
        && (text != null && text.Length > 0 ==>
              && F.HoldsText(old(text[..]), text[..], InstructionText(names, instruction, d.operands, runtimeAddress))
              && HoldsBranch(names, instruction, mode, buf, runtimeAddress, text[..]))
  {
    hide DecodeFull, InstructionText, F.Negatable, F.HoldsText, HoldsBranch;
    EmptyIsInvalid(tables, mode, buf);
    var decoder := new D.Decoder(tables);
    status := decoder.Init(mode);
    status, instruction := decoder.DecodeFull(buf, before, operands);
    if status != Success { return; }
    DecodedOperands(tables, mode, buf);
    ghost var d := DecodeFull(tables, mode, buf).value;
    instruction := instruction.(address := runtimeAddress);
    assert operands[..instruction.operandCount] == d.operands;
    if text != null && text.Length > 0 {
      var formatter := new F.Formatter(names);
      status := formatter.Init(F.Intel);
      forall i | 0 <= i < instruction.operandCount && i < MAX_OPERANDS
        ensures F.Negatable(operands[i])
      {
        assert operands[i] == d.operands[i];
      }
      ghost var was := text[..];
      status := formatter.FormatInstruction(instruction, operands, instruction.operandCount, text, runtimeAddress);
      BranchHeld(tables, names, mode, buf, runtimeAddress, was, text[..]);
    }
    status := Success;
  }

  lemma EmptyIsInvalid(tables: Tables, mode: MachineMode, buf: seq<byte>)
    ensures |buf| == 0 ==> DecodeFull(tables, mode, buf) == S.Err(InvalidInput)
    ensures DecodeFull(tables, mode, buf).Ok? ==> DecodeFull(tables, mode, buf).value.instruction.address == 0
  {
  }

  // ---------------------------------------------------------------- branch targets

  /** The signed offset in the last bytes of a relative branch. */
  function OffsetField(buf: seq<byte>, end: nat, size: nat): int
    requires size in {1, 2, 4} && size <= end <= |buf|
  {
    var v := S.LittleEndian(buf, end - size, size);
    if size == 1 then S.SignExtend8(v) else if size == 2 then S.SignExtend16(v) else S.SignExtend32(v)
  }

  lemma BranchOperand(mode: MachineMode, c: S.Context, disp: int, imm: int)
    requires IsRelativeBranch(c)
    ensures S.ImmediateSize(c) in {1, 2, 4}
    ensures |OperandList(mode, c, disp, imm)| == 1
    ensures OperandList(mode, c, disp, imm)[0].ImmediateOperand?
    ensures OperandList(mode, c, disp, imm)[0].isRelative && OperandList(mode, c, disp, imm)[0].value == imm
  {
  }

  lemma BranchText(names: nat -> string, inst: Instruction, ops: seq<Operand>, address: nat, offset: int)
    requires |ops| == 1 && ops[0].ImmediateOperand? && ops[0].isRelative && ops[0].value == offset
    ensures InstructionText(names, inst, ops, address)
         == MnemonicText(names, inst) + " 0x" + Hex((address + inst.length + offset) % TWO_64)
  {
    hide MnemonicText, Hex;
    assert OperandsText(ops, 1, address, inst.length) == "";
    var m, digits := MnemonicText(names, inst), Hex((address + inst.length + offset) % TWO_64);
    assert m + (" " + ("0x" + digits) + "") == m + " 0x" + digits;
  }

  /** The bytes of a branch offset, from the opcode and the operand width: one for the short
      branches, two or four for E8, E9 and 0F 80-8F. */
  function BranchBytes(c: S.Context): nat {
    if c.opcodeMap == 1 || c.opcode == 0xE8 || c.opcode == 0xE9 then if c.operandWidth == 16 then 2 else 4 else 1
  }

  lemma BranchBytesExact(c: S.Context)
    requires IsRelativeBranch(c)
    ensures S.ImmediateSize(c) == BranchBytes(c) && BranchBytes(c) in {1, 2, 4}
  {
  }

  /** The address a relative branch leads to: the address after it plus its sign-extended last
      bytes, modulo 2^64. Length, opcode and width come from the bytes of the input. */
  function TargetOf(mode: MachineMode, buf: seq<byte>, address: nat): nat
    requires S.Decode(mode, buf).Ok? && IsRelativeBranch(S.Decode(mode, buf).value.ctx)
  {
    BranchSize(mode, buf);
    var c := R.Verdict(mode, buf).value;
    (address + c.offset + OffsetField(buf, c.offset, BranchBytes(c))) % TWO_64
  }

  lemma BranchSize(mode: MachineMode, buf: seq<byte>)
    requires S.Decode(mode, buf).Ok? && IsRelativeBranch(S.Decode(mode, buf).value.ctx)
    ensures R.Verdict(mode, buf) == S.Ok(S.Decode(mode, buf).value.ctx)
    ensures var c := S.Decode(mode, buf).value.ctx;
      BranchBytes(c) in {1, 2, 4} && BranchBytes(c) <= c.offset <= |buf|
    ensures var s := S.Decode(mode, buf).value;
      s.immediate == OffsetField(buf, s.ctx.offset, BranchBytes(s.ctx))
  {
    hide S.Drive, R.Verdict, OperandList, OffsetField, S.ImmediateSize, IsRelativeBranch, BranchBytes;
    R.DecodeExact(mode, buf);
    var p, h, c, s := Run(mode, buf);
    BranchBytesExact(s.ctx);
    BranchImmediate(mode, buf, p, h, c, s);
  }

  /** End to end: the text that Disassemble prints for every relative branch is its mnemonic and
      its target in hexadecimal, and the number read back from that text is the target. */
  lemma BranchTargetText(tables: Tables, names: nat -> string, mode: MachineMode, buf: seq<byte>, address: nat)
    requires S.Decode(mode, buf).Ok? && |buf| > 0 && IsRelativeBranch(S.Decode(mode, buf).value.ctx)
    ensures DecodeFull(tables, mode, buf).Ok?
    ensures var d, target := DecodeFull(tables, mode, buf).value, TargetOf(mode, buf, address);
      var inst := d.instruction.(address := address);
      && InstructionText(names, inst, d.operands, address) == MnemonicText(names, inst) + " 0x" + Hex(target)
      && ParseHex(Hex(target)) == target
  {
    hide S.Drive, DecodeFull, MnemonicText, InstructionText, Hex, ParseHex, OffsetField, S.ImmediateSize, IsRelativeBranch,
         R.Verdict, BranchBytes;
    BranchFields(tables, mode, buf);
    BranchSize(mode, buf);
    var s, d := S.Decode(mode, buf).value, DecodeFull(tables, mode, buf).value;
    BranchText(names, d.instruction.(address := address), d.operands, address, s.immediate);
    HexRoundTrip((address + s.ctx.offset + s.immediate) % TWO_64);
  }

  /** A buffer with enough room holds the whole text and its terminator. */
  lemma HeldLine(before: seq<char>, after: seq<char>, text: string)
    requires F.HoldsText(before, after, text)
    ensures |after| > |text| ==> after[..|text| + 1] == text + ['\0']
  {
  }

  /** If the instruction is a relative branch and the buffer is longer than its line, the buffer
      holds the mnemonic, the target in hexadecimal and a terminator. */
  ghost predicate HoldsBranch(names: nat -> string, inst: Instruction, mode: MachineMode, buf: seq<byte>,
                              address: nat, after: seq<char>)
  {
    S.Decode(mode, buf).Ok? && IsRelativeBranch(S.Decode(mode, buf).value.ctx) ==>
      var line := MnemonicText(names, inst) + " 0x" + Hex(TargetOf(mode, buf, address));
      |after| > |line| ==> after[..|line| + 1] == line + ['\0']
  }

  lemma BranchHeld(tables: Tables, names: nat -> string, mode: MachineMode, buf: seq<byte>, address: nat,
                   before: seq<char>, after: seq<char>)
    requires DecodeFull(tables, mode, buf).Ok?
    ensures var d := DecodeFull(tables, mode, buf).value;
      var inst := d.instruction.(address := address);
      F.HoldsText(before, after, InstructionText(names, inst, d.operands, address)) ==>
        HoldsBranch(names, inst, mode, buf, address, after)
  {
    hide DecodeFull, InstructionText, F.HoldsText, S.Drive, IsRelativeBranch, MnemonicText, Hex, TargetOf;
    EmptyIsInvalid(tables, mode, buf);
    if S.Decode(mode, buf).Ok? && IsRelativeBranch(S.Decode(mode, buf).value.ctx) {
      BranchTargetText(tables, names, mode, buf, address);
      var d := DecodeFull(tables, mode, buf).value;
      var text := InstructionText(names, d.instruction.(address := address), d.operands, address);
      if F.HoldsText(before, after, text) {
        HeldLine(before, after, text);
      }
    }
  }

  /** A relative branch has one operand, its offset. */
  lemma BranchFields(tables: Tables, mode: MachineMode, buf: seq<byte>)
    requires S.Decode(mode, buf).Ok? && |buf| > 0 && IsRelativeBranch(S.Decode(mode, buf).value.ctx)
    ensures DecodeFull(tables, mode, buf).Ok?
    ensures var s, d := S.Decode(mode, buf).value, DecodeFull(tables, mode, buf).value;
      && |d.operands| == 1 && d.instruction.length == s.ctx.offset
      && d.operands[0].ImmediateOperand? && d.operands[0].isRelative && d.operands[0].value == s.immediate
  {
    hide S.Drive, OperandList, Reread, S.ImmediateSize, IsRelativeBranch;
    var s := S.Decode(mode, buf).value;
    BranchOperand(mode, s.ctx, Reread(buf, s.ctx), s.immediate);
  }

  lemma BranchImmediate(mode: MachineMode, buf: seq<byte>, p: S.Context, h: S.Context, c: S.Context, s: S.Streamed)
    requires Stages(mode, buf, p, h, c, s) && S.ImmediateSize(s.ctx) in {1, 2, 4}
    ensures S.ImmediateSize(s.ctx) <= s.ctx.offset <= |buf|
    ensures s.immediate == OffsetField(buf, s.ctx.offset, S.ImmediateSize(s.ctx))
  {
  }
}
