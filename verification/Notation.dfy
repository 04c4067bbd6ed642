/** The operands of every opcode as tables, in the notation of appendix A of the Intel SDM,
    Volume 2: an addressing letter and an operand type. The entries are those of this decoder. */
module Notation {
  import opened Types
  import opened Stream
  import opened Operands
  import opened Shape
  import opened Full
  import opened Raw

  /** Operand types: byte, word, operand width, 16 or 32 bits, stack width, 128 bits. */
  datatype Size = B | W | V | Z | S | X

  /** E: r/m with the displacement of the instruction; E0: r/m with displacement zero; G: reg;
      A: the accumulator; R: the register in the opcode; I, Is and J: an unsigned, signed and
      relative immediate; C and P: cl and dx; One: the number one; Low and High: the two parts
      of the immediate of ENTER. */
  datatype Slot =
    | E(size: Size) | E0(size: Size) | G(size: Size) | A(size: Size) | R(size: Size)
    | I(size: Size) | Is(size: Size) | J(size: Size) | C | P | One | Low | High

  const ARITHMETIC: seq<seq<Slot>> :=
    [[E(B), G(B)], [E(V), G(V)], [G(B), E(B)], [G(V), E(V)], [A(B), I(B)], [A(V), I(V)], [], []]

  const ROW_60: seq<seq<Slot>> :=
    [[], [], [], [], [], [], [], [],
     [Is(V)], [G(V), E0(V), Is(V)], [Is(B)], [G(V), E0(V), Is(B)], [], [], [], []]

  const ROW_80: seq<seq<Slot>> :=
    [[E0(B), Is(B)], [E0(V), Is(V)], [E0(B), Is(B)], [E0(V), Is(B)],
     [E(B), G(B)], [E(V), G(V)], [G(B), E(B)], [G(V), E(V)],
     [E(B), G(B)], [E(V), G(V)], [G(B), E(B)], [G(V), E(V)],
     [E(V), G(V)], [G(V), E(V)], [G(V), E(V)], [E0(S)]]

  const ROW_C0: seq<seq<Slot>> :=
    [[E0(B), I(B)], [E0(V), I(B)], [I(W)], [], [], [], [E0(B), I(B)], [E0(V), I(V)],
     [Low, High], [], [I(W)], [], [], [I(B)], [], []]

  const ROW_D0: seq<seq<Slot>> :=
    [[E0(B), One], [E0(V), One], [E0(B), C], [E0(V), C], [], [], [], [],
     [], [], [], [], [], [], [], []]

  const ROW_E0: seq<seq<Slot>> :=
    [[J(B)], [J(B)], [J(B)], [J(B)], [A(B), I(B)], [A(V), I(B)], [I(B), A(B)], [I(B), A(V)],
     [J(Z)], [J(Z)], [], [J(B)], [A(B), P], [A(V), P], [P, A(B)], [P, A(V)]]

  const ROW_F0: seq<seq<Slot>> :=
    [[], [], [], [], [], [], [E0(B)], [E0(V)], [], [], [], [], [], [], [E0(B)], [E0(V)]]

  /** The entry of a one-byte opcode. Only 90h without REX, and group 3, depend on more. */
  function OneByte(op: byte, ext: nat, rex: bool): seq<Slot> {
    match op / 16
    case 4 => []
    case 5 => [R(S)]
    case 6 => ROW_60[op % 16]
    case 7 => [J(B)]
    case 8 => ROW_80[op % 16]
    case 9 => if op >= 0x98 || (op == 0x90 && !rex) then [] else [A(V), R(V)]
    case 10 => if op == 0xA8 then [A(B), I(B)] else if op == 0xA9 then [A(V), I(V)] else []
    case 11 => if op < 0xB8 then [R(B), I(B)] else [R(V), I(V)]
    case 12 => ROW_C0[op % 16]
    case 13 => ROW_D0[op % 16]
    case 14 => ROW_E0[op % 16]
    case 15 =>
      ROW_F0[op % 16] + if op == 0xF6 && ext < 2 then [I(B)] else if op == 0xF7 && ext < 2 then [I(V)] else []
    case _ => ARITHMETIC[op % 8]
  }

  /** The entry of an opcode after 0F: relative jumps, SETcc, BSWAP, the zero and sign extensions,
      the register forms of group 9, and otherwise a pair. */
  function TwoByte(op: byte, hasModRM: bool, modrm: byte): seq<Slot> {
    match op / 16
    case 8 => [J(Z)]
    case 9 => if hasModRM then [E0(B)] else []
    case _ =>
      if 0xC8 <= op <= 0xCF then [R(V)]
      else if !hasModRM then []
      else if op == 0xB6 || op == 0xBE then [G(V), E(B)]
      else if op == 0xB7 || op == 0xBF then [G(V), E(W)]
      else if op == 0xC7 && modrm >= 0xF0 then [E(V)]
      else [G(V), E(V)]
  }

  function Template(c: Context): seq<Slot> {
    match c.opcodeMap
    case 0 => OneByte(c.opcode, c.opcodeExt, c.rex.present)
    case 1 => TwoByte(c.opcode, c.hasModRM, c.modrm)
    case 2 => [G(X), E(X)]
    case _ => [G(X), E(X), I(B)]
  }

  // ---------------------------------------------------------------- what an entry denotes

  function Bits(size: Size, mode: MachineMode, width: nat): nat {
    match size
    case B => 8
    case W => 16
    case V => width
    case Z => if width == 16 then 16 else 32
    case S => if mode == Long64 then 64 else width
    case X => 128
  }

  function Number(field: nat, extension: bool): RegisterNumber
    requires field < 8
  {
    field + if extension then 8 else 0
  }

  /** A register operand by number and width; REX chooses between the two sets of byte registers. */
  function Register(number: RegisterNumber, bits: nat, c: Context): Operand {
    RegisterOperand(bits, ResolveGPR(number, bits, c.rex.present))
  }

  function RegisterOrMemory(bits: nat, c: Context, disp: int): Operand {
    if c.modrm >= 0xC0 then Register(Number(c.modrm % 8, c.rex.b), bits, c)
    else MemoryOperand(bits, MemoryOf(c, disp))
  }

  /** The operand of an entry, in an instruction with this context: registers from the ModRM and
      opcode fields with the extension bits R and B, memory with the displacement read again or
      with zero, and the immediate. */
  function Denote(slot: Slot, mode: MachineMode, c: Context, disp: int, imm: int): Operand {
    match slot
    case E(z) => RegisterOrMemory(Bits(z, mode, c.operandWidth), c, disp)
    case E0(z) => RegisterOrMemory(Bits(z, mode, c.operandWidth), c, 0)
    case G(z) => Register(Number(c.modrm / 8 % 8, c.rex.r), Bits(z, mode, c.operandWidth), c)
    case A(z) => Register(0, Bits(z, mode, c.operandWidth), c)
    case R(z) => Register(Number(c.opcode % 8, c.rex.b), Bits(z, mode, c.operandWidth), c)
    case I(z) => ImmediateOperand(Bits(z, mode, c.operandWidth), imm, false, false)
    case Is(z) => ImmediateOperand(Bits(z, mode, c.operandWidth), imm, true, false)
    case J(z) => ImmediateOperand(Bits(z, mode, c.operandWidth), imm, true, true)
    case C => RegisterOperand(8, Gpr8(1))
    case P => RegisterOperand(16, Gpr16(2))
    case One => ImmediateOperand(8, 1, false, false)
    case Low => ImmediateOperand(16, imm % 0x1_0000, false, false)
    case High => ImmediateOperand(8, imm / 0x1_0000 % 0x100, false, false)
  }

  /** The operands are those of the entry, in its order. */
  ghost predicate Follows(ops: seq<Operand>, slots: seq<Slot>, mode: MachineMode, c: Context, disp: int, imm: int) {
    |ops| == |slots| && forall i :: 0 <= i < |ops| ==> ops[i] == Denote(slots[i], mode, c, disp, imm)
  }

  /** A context after the addressing phases. */
  ghost predicate Settled(c: Context) {
    c.hasModRM == OpcodeRequiresModRM(c.opcodeMap, c.opcode) && (c.hasModRM ==> c.opcodeExt == Mid3(c.modrm))
  }

  lemma FormFacts(c: Context)
    ensures High2(c.modrm) == 3 <==> c.modrm >= 0xC0
    ensures Low3(c.modrm) == c.modrm % 8 && Mid3(c.modrm) == c.modrm / 8 % 8
    ensures Mid3(c.modrm) >= 6 && High2(c.modrm) == 3 <==> c.modrm >= 0xF0
  {
  }

  lemma ArithmeticRows(mode: MachineMode, c: Context, disp: int, imm: int)
    requires c.opcodeMap == 0 && c.opcode <= 0x3D
    requires Settled(c)
    ensures Follows(ArithmeticOperands(c, disp, imm), Template(c), mode, c, disp, imm)
  {
    hide MemoryOf, ResolveGPR, ImmediateSize;
    FormFacts(c);
    hide High2, Low3, Mid3;
  }

  lemma Rows50And70(mode: MachineMode, c: Context, disp: int, imm: int)
    requires c.opcodeMap == 0 && c.opcode / 16 in {5, 7}
    requires Settled(c)
    ensures Follows(MiddleOperands(mode, c, disp, imm), Template(c), mode, c, disp, imm)
  {
    hide MemoryOf, ResolveGPR, ImmediateSize;
    FormFacts(c);
    hide High2, Low3, Mid3;
  }

  lemma Row60(mode: MachineMode, c: Context, disp: int, imm: int)
    requires c.opcodeMap == 0 && c.opcode / 16 == 6
    requires Settled(c)
    ensures Follows(MiddleOperands(mode, c, disp, imm), Template(c), mode, c, disp, imm)
  {
    hide MemoryOf, ResolveGPR, ImmediateSize;
    FormFacts(c);
    hide High2, Low3, Mid3;
  }

  lemma Row80Group1(mode: MachineMode, c: Context, disp: int, imm: int)
    requires c.opcodeMap == 0 && 0x80 <= c.opcode < 0x84
    requires Settled(c)
    ensures Follows(MiddleOperands(mode, c, disp, imm), Template(c), mode, c, disp, imm)
  {
    hide MemoryOf, ResolveGPR, ImmediateSize;
    FormFacts(c);
    hide High2, Low3, Mid3;
  }

  lemma Row80Test(mode: MachineMode, c: Context, disp: int, imm: int)
    requires c.opcodeMap == 0 && 0x84 <= c.opcode < 0x88
    requires Settled(c)
    ensures Follows(MiddleOperands(mode, c, disp, imm), Template(c), mode, c, disp, imm)
  {
    hide MemoryOf, ResolveGPR, ImmediateSize;
    FormFacts(c);
    hide High2, Low3, Mid3;
  }

  lemma Row80Mov(mode: MachineMode, c: Context, disp: int, imm: int)
    requires c.opcodeMap == 0 && 0x88 <= c.opcode < 0x8C
    requires Settled(c)
    ensures Follows(MiddleOperands(mode, c, disp, imm), Template(c), mode, c, disp, imm)
  {
    hide MemoryOf, ResolveGPR, ImmediateSize;
    FormFacts(c);
    hide High2, Low3, Mid3;
  }

  lemma Row80Rest(mode: MachineMode, c: Context, disp: int, imm: int)
    requires c.opcodeMap == 0 && 0x8C <= c.opcode < 0x90
    requires Settled(c)
    ensures Follows(MiddleOperands(mode, c, disp, imm), Template(c), mode, c, disp, imm)
  {
    hide MemoryOf, ResolveGPR, ImmediateSize;
    FormFacts(c);
    hide High2, Low3, Mid3;
  }

  lemma Row80(mode: MachineMode, c: Context, disp: int, imm: int)
    requires c.opcodeMap == 0 && c.opcode / 16 == 8
    requires Settled(c)
    ensures Follows(MiddleOperands(mode, c, disp, imm), Template(c), mode, c, disp, imm)
  {
    hide Follows, Template, MiddleOperands, UpperOperands, TopOperands, Settled;
    if c.opcode < 0x84 {
      Row80Group1(mode, c, disp, imm);
    } else if c.opcode < 0x88 {
      Row80Test(mode, c, disp, imm);
    } else if c.opcode < 0x8C {
      Row80Mov(mode, c, disp, imm);
    } else {
      Row80Rest(mode, c, disp, imm);
    }
  }

  lemma Rows90ToB0(mode: MachineMode, c: Context, disp: int, imm: int)
    requires c.opcodeMap == 0 && c.opcode / 16 in {9, 10, 11}
    requires Settled(c)
    ensures Follows(UpperOperands(c, imm), Template(c), mode, c, disp, imm)
  {
    hide MemoryOf, ResolveGPR, ImmediateSize;
    FormFacts(c);
    hide High2, Low3, Mid3;
  }

  lemma RowC0Low(mode: MachineMode, c: Context, disp: int, imm: int)
    requires c.opcodeMap == 0 && 0xC0 <= c.opcode < 0xC8
    requires Settled(c)
    ensures Follows(UpperOperands(c, imm), Template(c), mode, c, disp, imm)
  {
    hide MemoryOf, ResolveGPR, ImmediateSize;
    FormFacts(c);
    hide High2, Low3, Mid3;
  }

  lemma RowC0High(mode: MachineMode, c: Context, disp: int, imm: int)
    requires c.opcodeMap == 0 && 0xC8 <= c.opcode < 0xD0
    requires Settled(c)
    ensures Follows(UpperOperands(c, imm), Template(c), mode, c, disp, imm)
  {
    hide MemoryOf, ResolveGPR, ImmediateSize;
    FormFacts(c);
    hide High2, Low3, Mid3;
  }

  lemma RowC0(mode: MachineMode, c: Context, disp: int, imm: int)
    requires c.opcodeMap == 0 && c.opcode / 16 == 12
    requires Settled(c)
    ensures Follows(UpperOperands(c, imm), Template(c), mode, c, disp, imm)
  {
    hide Follows, Template, MiddleOperands, UpperOperands, TopOperands, Settled;
    if c.opcode < 0xC8 {
      RowC0Low(mode, c, disp, imm);
    } else {
      RowC0High(mode, c, disp, imm);
    }
  }

  lemma RowD0(mode: MachineMode, c: Context, disp: int, imm: int)
    requires c.opcodeMap == 0 && c.opcode / 16 == 13
    requires Settled(c)
    ensures Follows(TopOperands(c, imm), Template(c), mode, c, disp, imm)
  {
    hide MemoryOf, ResolveGPR, ImmediateSize;
    FormFacts(c);
    hide High2, Low3, Mid3;
  }

  lemma RowE0Low(mode: MachineMode, c: Context, disp: int, imm: int)
    requires c.opcodeMap == 0 && 0xE0 <= c.opcode < 0xE8
    requires Settled(c)
    ensures Follows(TopOperands(c, imm), Template(c), mode, c, disp, imm)
  {
    hide MemoryOf, ResolveGPR, ImmediateSize;
    FormFacts(c);
    hide High2, Low3, Mid3;
  }

  lemma RowE0High(mode: MachineMode, c: Context, disp: int, imm: int)
    requires c.opcodeMap == 0 && 0xE8 <= c.opcode < 0xF0
    requires Settled(c)
    ensures Follows(TopOperands(c, imm), Template(c), mode, c, disp, imm)
  {
    hide MemoryOf, ResolveGPR, ImmediateSize;
    FormFacts(c);
    hide High2, Low3, Mid3;
  }

  lemma RowE0(mode: MachineMode, c: Context, disp: int, imm: int)
    requires c.opcodeMap == 0 && c.opcode / 16 == 14
    requires Settled(c)
    ensures Follows(TopOperands(c, imm), Template(c), mode, c, disp, imm)
  {
    hide Follows, Template, MiddleOperands, UpperOperands, TopOperands, Settled;
    if c.opcode < 0xE8 {
      RowE0Low(mode, c, disp, imm);
    } else {
      RowE0High(mode, c, disp, imm);
    }
  }

  lemma RowF0(mode: MachineMode, c: Context, disp: int, imm: int)
    requires c.opcodeMap == 0 && c.opcode / 16 == 15
    requires Settled(c)
    ensures Follows(TopOperands(c, imm), Template(c), mode, c, disp, imm)
  {
    hide MemoryOf, ResolveGPR, ImmediateSize;
    FormFacts(c);
    hide High2, Low3, Mid3;
  }

  lemma TwoByteRows(mode: MachineMode, c: Context, disp: int, imm: int)
    requires c.opcodeMap == 1
    requires Settled(c)
    ensures Follows(TwoByteOperands(c, disp, imm), Template(c), mode, c, disp, imm)
  {
    hide MemoryOf, ResolveGPR, ImmediateSize;
    FormFacts(c);
    hide High2, Low3, Mid3;
  }

  lemma UpperMaps(mode: MachineMode, c: Context, disp: int, imm: int)
    requires c.opcodeMap in {2, 3} && c.hasModRM
    ensures Follows(ThreeByteOperands(c, disp, imm), Template(c), mode, c, disp, imm)
  {
    hide MemoryOf, ResolveGPR;
    FormFacts(c);
    hide High2, Low3, Mid3;
    assert c.opcodeMap == 3 ==> ImmediateSize(c) == 1;
  }

  lemma OneByteRows(mode: MachineMode, c: Context, disp: int, imm: int)
    requires c.opcodeMap == 0
    requires Settled(c)
    ensures Follows(OperandList(mode, c, disp, imm), Template(c), mode, c, disp, imm)
  {
    hide Follows, Template, ArithmeticOperands, MiddleOperands, UpperOperands, TopOperands, Settled;
    match c.opcode / 16
    case 5 => Rows50And70(mode, c, disp, imm);
    case 6 => Row60(mode, c, disp, imm);
    case 7 => Rows50And70(mode, c, disp, imm);
    case 8 => Row80(mode, c, disp, imm);
    case 9 => Rows90ToB0(mode, c, disp, imm);
    case 10 => Rows90ToB0(mode, c, disp, imm);
    case 11 => Rows90ToB0(mode, c, disp, imm);
    case 12 => RowC0(mode, c, disp, imm);
    case 13 => RowD0(mode, c, disp, imm);
    case 14 => RowE0(mode, c, disp, imm);
    case 15 => RowF0(mode, c, disp, imm);
    case _ =>
      if c.opcode <= 0x3D {
        ArithmeticRows(mode, c, disp, imm);
      } else {
        NoOperands(mode, c, disp, imm);
      }
  }

  lemma NoOperands(mode: MachineMode, c: Context, disp: int, imm: int)
    requires c.opcodeMap == 0 && 0x3E <= c.opcode < 0x50
    ensures Follows([], Template(c), mode, c, disp, imm)
  {
  }

  /** The operand list of every opcode follows the tables. */
  lemma ListFollows(mode: MachineMode, c: Context, disp: int, imm: int)
    requires c.opcodeMap <= 3
    requires Settled(c)
    ensures Follows(OperandList(mode, c, disp, imm), Template(c), mode, c, disp, imm)
  {
    hide Follows, Template, TwoByteOperands, ThreeByteOperands;
    if c.opcodeMap == 0 {
      OneByteRows(mode, c, disp, imm);
    } else if c.opcodeMap == 1 {
      TwoByteRows(mode, c, disp, imm);
    } else {
      UpperMaps(mode, c, disp, imm);
    }
  }

  /** How many bytes an immediate operand of this size takes: those of its size, at most four, but
      B8-BF take all eight, the two parts of ENTER share three, and the one of D0 and D1 has none. */
  function BytesShown(c: Context, op: Operand): nat
    requires op.ImmediateOperand?
  {
    if c.opcodeMap == 0 && (c.opcode == 0xD0 || c.opcode == 0xD1) then 0
    else if c.opcodeMap == 0 && c.opcode == 0xC8 then 3
    else if op.size > 32 && !(c.opcodeMap == 0 && 0xB8 <= c.opcode <= 0xBF) then 4
    else op.size / 8
  }

  ghost predicate ImmediatesFit(ops: seq<Operand>, c: Context) {
    forall i :: 0 <= i < |ops| && ops[i].ImmediateOperand? ==> ImmediateSize(c) == BytesShown(c, ops[i])
  }

  lemma ArithmeticImmediates(c: Context, disp: int, imm: int)
    requires c.opcodeMap == 0 && c.opcode <= 0x3D && c.operandWidth in {16, 32, 64}
    ensures ImmediatesFit(ArithmeticOperands(c, disp, imm), c)
  {
    hide MemoryOf, ResolveGPR;
  }

  lemma MiddleImmediates(mode: MachineMode, c: Context, disp: int, imm: int)
    requires c.opcodeMap == 0 && 0x50 <= c.opcode <= 0x8F && c.operandWidth in {16, 32, 64}
    ensures ImmediatesFit(MiddleOperands(mode, c, disp, imm), c)
  {
    hide MemoryOf, ResolveGPR;
  }

  lemma UpperImmediates(c: Context, imm: int)
    requires c.opcodeMap == 0 && 0x90 <= c.opcode <= 0xCF && Settled(c) && c.operandWidth in {16, 32, 64}
    ensures ImmediatesFit(UpperOperands(c, imm), c)
  {
    hide MemoryOf, ResolveGPR;
  }

  lemma TopImmediates(c: Context, imm: int)
    requires c.opcodeMap == 0 && 0xD0 <= c.opcode && Settled(c) && c.operandWidth in {16, 32, 64}
    ensures ImmediatesFit(TopOperands(c, imm), c)
  {
    hide MemoryOf, ResolveGPR;
  }

  lemma OtherImmediates(mode: MachineMode, c: Context, disp: int, imm: int)
    requires 1 <= c.opcodeMap <= 3 && Settled(c) && c.operandWidth in {16, 32, 64}
    ensures ImmediatesFit(OperandList(mode, c, disp, imm), c)
  {
    hide MemoryOf, ResolveGPR;
  }

  lemma NothingFits(c: Context)
    ensures ImmediatesFit([], c)
  {
  }

  /** The bytes consumed agree with the operand shown: for every immediate operand of an accepted
      instruction, branch offsets included. */
  lemma ImmediatesAgree(mode: MachineMode, buf: seq<byte>)
    requires Decode(mode, buf).Ok?
    ensures ImmediatesFit(OperandsOf(mode, buf, Decode(mode, buf).value), Decode(mode, buf).value.ctx)
  {
    hide Drive, ImmediatesFit, Reread, ArithmeticOperands, MiddleOperands, UpperOperands, TopOperands,
         TwoByteOperands, ThreeByteOperands;
    var p, h, c, s := Run(mode, buf);
    var disp := Reread(buf, s.ctx);
    if s.ctx.opcodeMap > 0 {
      OtherImmediates(mode, s.ctx, disp, s.immediate);
    } else if s.ctx.opcode <= 0x3D {
      ArithmeticImmediates(s.ctx, disp, s.immediate);
    } else if s.ctx.opcode < 0x50 {
      NothingFits(s.ctx);
    } else if s.ctx.opcode <= 0x8F {
      MiddleImmediates(mode, s.ctx, disp, s.immediate);
    } else if s.ctx.opcode <= 0xCF {
      UpperImmediates(s.ctx, s.immediate);
    } else {
      TopImmediates(s.ctx, s.immediate);
    }
  }

  /** For every accepted instruction, the operands are those that the tables give to its opcode,
      in their order, with registers, widths, extension bits and ModRM taken from the bytes. */
  lemma OperandsExact(mode: MachineMode, buf: seq<byte>)
    requires Decode(mode, buf).Ok?
    ensures Verdict(mode, buf).Ok?
    ensures var s, c := Decode(mode, buf).value, Verdict(mode, buf).value;
      Follows(OperandsOf(mode, buf, s), Template(c), mode, c, Reread(buf, c), s.immediate)
  {
    hide Drive, Verdict, Follows, Template, OperandList, Reread;
    DecodeExact(mode, buf);
    var p, h, c, s := Run(mode, buf);
    ListFollows(mode, s.ctx, Reread(buf, s.ctx), s.immediate);
  }
}
