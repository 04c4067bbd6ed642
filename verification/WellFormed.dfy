/** Well-formedness of every operand the decoder builds. */
module WellFormed {
  import opened Types
  import opened Stream
  import opened Operands
  import opened Shape
  import opened Full

  predicate Int32(v: int) { -0x8000_0000 <= v < 0x8000_0000 }

  predicate Int64(v: int) { -0x8000_0000_0000_0000 <= v < 0x8000_0000_0000_0000 }

  // ---------------------------------------------------------------- ranges

  lemma LittleEndianBound(buf: seq<byte>, off: nat, n: nat)
    requires off + n <= |buf| && n <= 8
    ensures LittleEndian(buf, off, n) <
      [1, 0x100, 0x1_0000, 0x100_0000, 0x1_0000_0000, 0x100_0000_0000, 0x1_0000_0000_0000,
       0x100_0000_0000_0000, 0x1_0000_0000_0000_0000][n]
    decreases n
  {
    if n > 0 {
      LittleEndianBound(buf, off + 1, n - 1);
    }
  }

  lemma RereadRange(buf: seq<byte>, c: Context)
    ensures Int32(Reread(buf, c))
  {
    var size, off := RereadSize(c), RereadOffset(c);
    if size > 0 && off + size <= |buf| {
      LittleEndianBound(buf, off, size);
    }
  }

  lemma ImmediateRange(buf: seq<byte>, off: nat, size: nat)
    requires ReadImmediate(buf, off, size).Ok?
    ensures Int64(ReadImmediate(buf, off, size).value)
    ensures size <= 4 ==> Int32(ReadImmediate(buf, off, size).value)
  {
    if size > 0 {
      LittleEndianBound(buf, off, size);
    }
  }

  // ---------------------------------------------------------------- well-formed operands

  function RegisterWidth(r: Register): nat {
    match r
    case Gpr64(_) => 64
    case Gpr32(_) => 32
    case Gpr16(_) => 16
    case Gpr8(_) => 8
    case High8(i) => if i < 4 then 8 else 0
    case _ => 0
  }

  predicate WellFormedMemory(width: nat, m: Memory) {
    && m.segment.SegmentRegister?
    && (m.base == NoRegister || RegisterWidth(m.base) == width || (m.base == Rip && width == 64))
    && (m.index == NoRegister || RegisterWidth(m.index) == width)
    && (m.index == NoRegister <==> m.scale == 0)
    && m.scale in {0, 1, 2, 4, 8}
    && Int32(m.displacement)
    && (m.base == NoRegister ==> m.hasDisplacement)
    && (!m.hasDisplacement ==> m.displacement == 0)
  }

  /** In maps 0 and 1 a register operand is a real register of its stated width; in maps 2
      and 3 it is no register at all. */
  predicate WellFormedOperand(c: Context, op: Operand) {
    match op
    case RegisterOperand(size, reg) =>
      if c.opcodeMap <= 1 then size in {8, 16, 32, 64} && RegisterWidth(reg) == size
      else size == 128 && reg == NoRegister
    case MemoryOperand(size, mem) =>
      size in {8, 16, 32, 64, 128} && WellFormedMemory(c.addressWidth, mem)
    case ImmediateOperand(size, value, isSigned, isRelative) =>
      size in {8, 16, 32, 64} && Int64(value) && (isSigned ==> Int32(value))
    case _ => false
  }

  /** What operand building may rely on. */
  ghost predicate Sound(c: Context, disp: int, imm: int) {
    && c.addressWidth in {16, 32, 64} && c.operandWidth in {16, 32, 64} && c.opcodeMap <= 3
    && (c.legacy.hasSegment ==> c.legacy.segment.SegmentRegister?)
    && c.hasSIB == (c.hasModRM && NeedsSIB(c))
    && Int32(disp) && Int64(imm)
    && (ImmediateSize(c) <= 4 ==> Int32(imm))
  }

  lemma MemoryWellFormed(c: Context, disp: int)
    requires Int32(disp) && c.addressWidth in {16, 32, 64}
    requires c.legacy.hasSegment ==> c.legacy.segment.SegmentRegister?
    ensures WellFormedMemory(c.addressWidth, MemoryOf(c, disp))
  {
  }

  lemma RegOrMemWellFormed(c: Context, size: nat, disp: int)
    requires Int32(disp) && c.addressWidth in {16, 32, 64}
    requires c.legacy.hasSegment ==> c.legacy.segment.SegmentRegister?
    requires size in if c.opcodeMap <= 1 then {8, 16, 32, 64} else {128}
    ensures WellFormedOperand(c, RegOrMem(c, size, disp))
  {
    MemoryWellFormed(c, disp);
  }

  /** At most three operands, each of them well formed. */
  predicate WellFormedList(c: Context, ops: seq<Operand>) {
    |ops| <= 3 && forall i :: 0 <= i < |ops| ==> WellFormedOperand(c, ops[i])
  }

  lemma PairWellFormed(c: Context, disp: int, regSize: nat, rmSize: nat, regIsDst: bool)
    requires Int32(disp) && c.addressWidth in {16, 32, 64}
    requires c.legacy.hasSegment ==> c.legacy.segment.SegmentRegister?
    requires regSize in if c.opcodeMap <= 1 then {8, 16, 32, 64} else {128}
    requires rmSize in if c.opcodeMap <= 1 then {8, 16, 32, 64} else {128}
    ensures WellFormedList(c, ModRMPair(c, disp, regSize, rmSize, regIsDst))
    ensures |ModRMPair(c, disp, regSize, rmSize, regIsDst)| == 2
  {
    RegOrMemWellFormed(c, rmSize, disp);
  }

  lemma ArithmeticWellFormed(c: Context, disp: int, imm: int)
    requires Sound(c, disp, imm) && c.opcodeMap == 0 && c.opcode <= 0x3D
    ensures WellFormedList(c, ArithmeticOperands(c, disp, imm))
  {
    var low := c.opcode % 8;
    if low <= 3 {
      var size := ByteOrWidth(low % 2 == 0, c);
      PairWellFormed(c, disp, size, size, low >= 2);
    }
  }

  lemma MiddleWellFormed(mode: MachineMode, c: Context, disp: int, imm: int)
    requires Sound(c, disp, imm) && c.opcodeMap == 0 && 0x50 <= c.opcode <= 0x8F
    ensures WellFormedList(c, MiddleOperands(mode, c, disp, imm))
  {
    hide RegOrMem, MemoryOf;
    var op := c.opcode;
    RegOrMemWellFormed(c, c.operandWidth, 0);
    RegOrMemWellFormed(c, 8, 0);
    RegOrMemWellFormed(c, 64, 0);
    if 0x84 <= op <= 0x8B {
      var size := ByteOrWidth(op % 2 == 0, c);
      PairWellFormed(c, disp, size, size, op >= 0x8A || op == 0x86 || op == 0x87);
    } else if 0x8C <= op <= 0x8E {
      PairWellFormed(c, disp, c.operandWidth, c.operandWidth, op != 0x8C);
    }
  }

  lemma RegsWellFormed(c: Context, size: nat)
    requires c.opcodeMap <= 1 && size in {8, 16, 32, 64}
    ensures forall i: RegisterNumber :: WellFormedOperand(c, Reg(i, size, c))
  {
  }

  lemma UpperWellFormed(c: Context, disp: int, imm: int)
    requires Sound(c, disp, imm) && c.opcodeMap == 0
    ensures WellFormedList(c, UpperOperands(c, imm))
  {
    hide RegOrMem, MemoryOf, ImmediateSize, NeedsSIB, WellFormedMemory, Reg, ResolveGPR, RegisterWidth;
    RegsWellFormed(c, 8);
    RegsWellFormed(c, c.operandWidth);
    RegOrMemWellFormed(c, c.operandWidth, 0);
    RegOrMemWellFormed(c, 8, 0);
  }

  lemma BranchIsSmall(c: Context)
    requires IsRelativeBranch(c)
    ensures ImmediateSize(c) <= 4
  {
  }

  lemma TopWellFormed(c: Context, disp: int, imm: int)
    requires Sound(c, disp, imm) && c.opcodeMap == 0
    ensures WellFormedList(c, TopOperands(c, imm))
  {
    hide RegOrMem, MemoryOf, ImmediateSize, NeedsSIB, WellFormedMemory, Reg, ResolveGPR, RegisterWidth;
    RegsWellFormed(c, 8);
    RegsWellFormed(c, c.operandWidth);
    RegOrMemWellFormed(c, c.operandWidth, 0);
    RegOrMemWellFormed(c, 8, 0);
    FixedRegistersWellFormed(c);
    if IsRelativeBranch(c) {
      BranchIsSmall(c);
    }
  }

  lemma FixedRegistersWellFormed(c: Context)
    requires c.opcodeMap <= 1
    ensures WellFormedOperand(c, RegisterOperand(8, CL)) && WellFormedOperand(c, RegisterOperand(16, DX))
  {
  }

  lemma TwoByteWellFormed(c: Context, disp: int, imm: int)
    requires Sound(c, disp, imm) && c.opcodeMap == 1
    ensures WellFormedList(c, TwoByteOperands(c, disp, imm))
  {
    hide RegOrMem, MemoryOf;
    RegOrMemWellFormed(c, 8, 0);
    PairWellFormed(c, disp, c.operandWidth, 8, true);
    PairWellFormed(c, disp, c.operandWidth, 16, true);
    PairWellFormed(c, disp, c.operandWidth, c.operandWidth, true);
  }

  lemma ThreeByteWellFormed(c: Context, disp: int, imm: int)
    requires Sound(c, disp, imm) && c.opcodeMap in {2, 3}
    ensures WellFormedList(c, ThreeByteOperands(c, disp, imm))
  {
    PairWellFormed(c, disp, 128, 128, true);
  }

  lemma ListWellFormed(mode: MachineMode, c: Context, disp: int, imm: int)
    requires Sound(c, disp, imm)
    ensures WellFormedList(c, OperandList(mode, c, disp, imm))
  {
    if c.opcodeMap == 0 {
      if c.opcode <= 0x3D {
        ArithmeticWellFormed(c, disp, imm);
      } else if 0x50 <= c.opcode <= 0x8F {
        MiddleWellFormed(mode, c, disp, imm);
      } else if 0x90 <= c.opcode <= 0xCF {
        UpperWellFormed(c, disp, imm);
      } else if 0xD0 <= c.opcode {
        TopWellFormed(c, disp, imm);
      }
    } else if c.opcodeMap == 1 {
      TwoByteWellFormed(c, disp, imm);
    } else {
      ThreeByteWellFormed(c, disp, imm);
    }
  }

  lemma StagesSound(mode: MachineMode, buf: seq<byte>, p: Context, h: Context, c: Context, s: Streamed)
    requires Stages(mode, buf, p, h, c, s)
    ensures Sound(s.ctx, Reread(buf, s.ctx), s.immediate)
  {
    RereadRange(buf, s.ctx);
    ImmediateRange(buf, c.offset + DisplacementSize(c), ImmediateSize(c));
    assert ImmediateSize(s.ctx) == ImmediateSize(c);
  }

  /** Every accepted instruction has at most three operands, all of them well formed. */
  lemma OperandsWellFormed(mode: MachineMode, buf: seq<byte>)
    requires Decode(mode, buf).Ok?
    ensures var s := Decode(mode, buf).value;
      WellFormedList(s.ctx, OperandsOf(mode, buf, s))
  {
    var p, h, c, s := Run(mode, buf);
    StagesSound(mode, buf, p, h, c, s);
    ListWellFormed(mode, s.ctx, Reread(buf, s.ctx), s.immediate);
  }

  /** A slot of the operand array has a type exactly below the operand count, which is at most
      three and equals the visible count. */
  lemma SlotsTyped(tables: Tables, mode: MachineMode, buf: seq<byte>)
    requires DecodeFull(tables, mode, buf).Ok?
    ensures var d := DecodeFull(tables, mode, buf).value;
      && d.instruction.operandCount == d.instruction.operandCountVisible == |d.operands| <= 3
      && forall i :: 0 <= i < MAX_OPERANDS ==> (Slots(d.operands)[i] != NoOperand <==> i < d.instruction.operandCount)
  {
    hide Drive, OperandsOf;
    OperandsWellFormed(mode, buf);
  }

  /** How many register operands name no register. */
  function NoneCount(ops: seq<Operand>): nat {
    if ops == [] then 0
    else (if ops[0].RegisterOperand? && ops[0].reg == NoRegister then 1 else 0) + NoneCount(ops[1..])
  }

  lemma {:induction false} NoneCountZero(c: Context, ops: seq<Operand>)
    requires c.opcodeMap <= 1
    requires forall i :: 0 <= i < |ops| ==> WellFormedOperand(c, ops[i])
    ensures NoneCount(ops) == 0
  {
    if ops != [] {
      NoneCountZero(c, ops[1..]);
    }
  }

  /** Exactly maps 2 and 3 yield register operands without a register: the reg operand
      always, the r/m operand when it is a register. */
  lemma NoneCountExact(mode: MachineMode, buf: seq<byte>)
    requires Decode(mode, buf).Ok?
    ensures var s := Decode(mode, buf).value;
      NoneCount(OperandsOf(mode, buf, s)) ==
        if s.ctx.opcodeMap <= 1 then 0 else if High2(s.ctx.modrm) == 3 then 2 else 1
  {
    var p, h, c, s := Run(mode, buf);
    var ops := OperandsOf(mode, buf, s);
    if s.ctx.opcodeMap <= 1 {
      OperandsWellFormed(mode, buf);
      NoneCountZero(s.ctx, ops);
    } else {
      NoneCountVector(s.ctx, Reread(buf, s.ctx), s.immediate);
    }
  }

  lemma NoneCountVector(c: Context, disp: int, imm: int)
    requires c.hasModRM && c.opcodeMap in {2, 3}
    ensures NoneCount(ThreeByteOperands(c, disp, imm)) == if High2(c.modrm) == 3 then 2 else 1
  {
    var ops := ThreeByteOperands(c, disp, imm);
    var rest := ops[1..];
    assert rest[0] == ops[1];
    assert NoneCount(rest[1..]) == 0 by {
      if |ops| == 3 {
        assert rest[1..] == [Imm(imm, 8)];
        assert [Imm(imm, 8)][1..] == [];
      } else {
        assert rest[1..] == [];
      }
    }
    assert NoneCount(rest) == (if High2(c.modrm) == 3 then 1 else 0);
  }
}
