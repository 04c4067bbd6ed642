/** The operand-building half of the decoder: register resolution, memory operands, the
    displacement that is read a second time, and the operand list of every opcode. */
module Operands {
  import opened Types
  import opened Stream

  // ---------------------------------------------------------------- registers

  /** A three-bit field with its extension bit. */
  function Extend(field: nat, extension: bool): RegisterNumber
    requires field < 8
  {
    if extension then field + 8 else field
  }

  function ResolveGPR(index: RegisterNumber, size: nat, hasRex: bool): Register
  {
    if size == 64 then Gpr64(index)
    else if size == 32 then Gpr32(index)
    else if size == 16 then Gpr16(index)
    else if size == 8 then if !hasRex && 4 <= index <= 7 then High8(index - 4) else Gpr8(index)
    else NoRegister
  }

  function DefaultSegment(index: nat): Register {
    SegmentRegister(if index == 4 || index == 5 || index == 12 || index == 13 then SS else DS)
  }

  // ---------------------------------------------------------------- memory operands

  const BASES_16: seq<Register> := [BX, BX, BP, BP, SI, DI, BP, BX]
  const INDICES_16: seq<Register> :=
    [SI, DI, SI, DI, NoRegister, NoRegister, NoRegister, NoRegister]

  /** No base register: only a displacement, or RIP, stands in its place. */
  predicate Baseless(c: Context) {
    High2(c.modrm) == 0 &&
    if c.addressWidth == 16 then Low3(c.modrm) == 6
    else if c.hasSIB then Low3(c.sib) == 5
    else Low3(c.modrm) == 5
  }

  function BaseField(c: Context): nat {
    if c.addressWidth != 16 && c.hasSIB then Low3(c.sib) else Low3(c.modrm)
  }

  function BaseRegister(c: Context): Register {
    if c.addressWidth == 16 then if Baseless(c) then NoRegister else BASES_16[BaseField(c)]
    else if !Baseless(c) then ResolveGPR(Extend(BaseField(c), c.rex.b), c.addressWidth, c.rex.present)
    else if c.addressWidth == 64 && !c.hasSIB then Rip
    else NoRegister
  }

  predicate HasIndex(c: Context) {
    if c.addressWidth == 16 then !Baseless(c) && Low3(c.modrm) < 4
    else c.hasSIB && (Mid3(c.sib) != 4 || c.rex.x)
  }

  function IndexRegister(c: Context): Register {
    if !HasIndex(c) then NoRegister
    else if c.addressWidth == 16 then INDICES_16[Low3(c.modrm)]
    else ResolveGPR(Extend(Mid3(c.sib), c.rex.x), c.addressWidth, c.rex.present)
  }

  function Scale(c: Context): nat {
    if !HasIndex(c) then 0
    else if c.addressWidth == 16 then 1
    else [1, 2, 4, 8][High2(c.sib)]
  }

  predicate ShowsDisplacement(c: Context) {
    Baseless(c) || High2(c.modrm) == 1 || High2(c.modrm) == 2
  }

  function MemoryOf(c: Context, displacement: int): Memory {
    Memory(
      if c.legacy.hasSegment then c.legacy.segment
      else if Baseless(c) then SegmentRegister(DS)
      else DefaultSegment(BaseField(c)),
      BaseRegister(c),
      IndexRegister(c),
      Scale(c),
      ShowsDisplacement(c),
      if ShowsDisplacement(c) then displacement else 0)
  }

  // ---------------------------------------------------------------- the second reading

  function RereadSize(c: Context): nat {
    if High2(c.modrm) == 1 then 1
    else if High2(c.modrm) == 2 then 4
    else if High2(c.modrm) == 3 then 0
    else if c.addressWidth == 16 && Low3(c.modrm) == 6 then 2
    else if Low3(c.modrm) == 5 then 4
    else if c.hasSIB && Low3(c.sib) == 5 then 4
    else 0
  }

  function RereadOffset(c: Context): nat {
    c.prefixCount
    + (if c.vex.present || c.evex.present then 1
       else if c.opcodeMap == 0 then 1
       else if c.opcodeMap == 1 then 2
       else if c.opcodeMap == 2 || c.opcodeMap == 3 then 3
       else 0)
    + 1
    + (if c.hasSIB then 1 else 0)
  }

  /** The displacement that goes into the operand: zero when the window leaves the buffer. */
  function Reread(buf: seq<byte>, c: Context): int {
    var size, off := RereadSize(c), RereadOffset(c);
    if size == 0 || off + size > |buf| then 0
    else
      var v := LittleEndian(buf, off, size);
      if size == 1 then SignExtend8(v) else if size == 2 then SignExtend16(v) else SignExtend32(v)
  }

  // ---------------------------------------------------------------- operand lists

  function Reg(index: RegisterNumber, size: nat, c: Context): Operand {
    RegisterOperand(size, ResolveGPR(index, size, c.rex.present))
  }

  function Imm(value: int, size: nat): Operand { ImmediateOperand(size, value, false, false) }

  function SignedImm(value: int, size: nat): Operand { ImmediateOperand(size, value, true, false) }

  function Relative(value: int, size: nat): Operand { ImmediateOperand(size, value, true, true) }

  /** The r/m operand of the opcodes that pass displacement zero. */
  function RegOrMem(c: Context, size: nat, displacement: int): Operand {
    if High2(c.modrm) == 3 then Reg(Extend(Low3(c.modrm), c.rex.b), size, c)
    else MemoryOperand(size, MemoryOf(c, displacement))
  }

  /** The reg and r/m operands, in the order regIsDst asks for. */
  function ModRMPair(c: Context, displacement: int, regSize: nat, rmSize: nat, regIsDst: bool): seq<Operand> {
    var reg := Reg(Extend(Mid3(c.modrm), c.rex.r), regSize, c);
    var rm := RegOrMem(c, rmSize, displacement);
    if regIsDst then [reg, rm] else [rm, reg]
  }

  function StackWidth(mode: MachineMode, c: Context): nat {
    if mode == Long64 then 64 else c.operandWidth
  }

  function ByteOrWidth(isByte: bool, c: Context): nat {
    if isByte then 8 else c.operandWidth
  }

  /** Opcodes 00-3D of the one-byte map: the eight arithmetic rows. */
  function ArithmeticOperands(c: Context, disp: int, imm: int): seq<Operand> {
    var low := c.opcode % 8;
    if low <= 3 && c.hasModRM then
      var size := ByteOrWidth(low % 2 == 0, c);
      ModRMPair(c, disp, size, size, low >= 2)
    else if low == 4 then [Reg(0, 8, c), Imm(imm, 8)]
    else if low == 5 then [Reg(0, c.operandWidth, c), Imm(imm, c.operandWidth)]
    else []
  }

  /** Opcodes 50-8F of the one-byte map. */
  function MiddleOperands(mode: MachineMode, c: Context, disp: int, imm: int): seq<Operand> {
    var op := c.opcode;
    var width := c.operandWidth;
    if op <= 0x5F then [Reg(Extend(op % 8, c.rex.b), StackWidth(mode, c), c)]
    else if op == 0x68 || op == 0x6A then [SignedImm(imm, ByteOrWidth(op == 0x6A, c))]
    else if (op == 0x69 || op == 0x6B) && c.hasModRM then
      [Reg(Extend(Mid3(c.modrm), c.rex.r), width, c), RegOrMem(c, width, 0),
       SignedImm(imm, ByteOrWidth(op == 0x6B, c))]
    else if 0x70 <= op <= 0x7F then [Relative(imm, 8)]
    else if 0x80 <= op <= 0x83 && c.hasModRM then
      var size := ByteOrWidth(op == 0x80 || op == 0x82, c);
      [RegOrMem(c, size, 0), SignedImm(imm, if op == 0x83 then 8 else size)]
    else if 0x84 <= op <= 0x8B && c.hasModRM then
      var size := ByteOrWidth(op % 2 == 0, c);
      ModRMPair(c, disp, size, size, op >= 0x8A || op == 0x86 || op == 0x87)
    else if 0x8C <= op <= 0x8E && c.hasModRM then ModRMPair(c, disp, width, width, op != 0x8C)
    else if op == 0x8F && c.hasModRM then [RegOrMem(c, StackWidth(mode, c), 0)]
    else []
  }

  /** Opcodes 90-CF of the one-byte map. */
  function UpperOperands(c: Context, imm: int): seq<Operand> {
    var op := c.opcode;
    var width := c.operandWidth;
    if 0x90 <= op <= 0x97 then
      if op == 0x90 && !c.rex.present then []
      else [Reg(0, width, c), Reg(Extend(op % 8, c.rex.b), width, c)]
    else if op == 0xA8 || op == 0xA9 then
      var size := ByteOrWidth(op == 0xA8, c);
      [Reg(0, size, c), Imm(imm, size)]
    else if 0xB0 <= op <= 0xBF then
      var size := ByteOrWidth(op <= 0xB7, c);
      [Reg(Extend(op % 8, c.rex.b), size, c), Imm(imm, size)]
    else if (op == 0xC0 || op == 0xC1) && c.hasModRM then
      [RegOrMem(c, ByteOrWidth(op == 0xC0, c), 0), Imm(imm, 8)]
    else if op == 0xC2 || op == 0xCA then [Imm(imm, 16)]
    else if (op == 0xC6 || op == 0xC7) && c.hasModRM then
      var size := ByteOrWidth(op == 0xC6, c);
      [RegOrMem(c, size, 0), Imm(imm, size)]
    else if op == 0xC8 then [Imm(imm % 0x1_0000, 16), Imm(imm / 0x1_0000 % 0x100, 8)]
    else if op == 0xCD then [Imm(imm, 8)]
    else []
  }

  /** Opcodes D0-FF of the one-byte map. */
  function TopOperands(c: Context, imm: int): seq<Operand> {
    var op := c.opcode;
    var size := ByteOrWidth(op % 2 == 0, c);
    if 0xD0 <= op <= 0xD3 && c.hasModRM then
      [RegOrMem(c, size, 0), if op <= 0xD1 then Imm(1, 8) else RegisterOperand(8, CL)]
    else if 0xE0 <= op <= 0xE3 then [Relative(imm, 8)]
    else if 0xE4 <= op <= 0xE5 then [Reg(0, size, c), Imm(imm, 8)]
    else if 0xE6 <= op <= 0xE7 then [Imm(imm, 8), Reg(0, size, c)]
    else if op == 0xE8 || op == 0xE9 then [Relative(imm, if c.operandWidth == 16 then 16 else 32)]
    else if op == 0xEB then [Relative(imm, 8)]
    else if 0xEC <= op <= 0xED then [Reg(0, size, c), RegisterOperand(16, DX)]
    else if 0xEE <= op <= 0xEF then [RegisterOperand(16, DX), Reg(0, size, c)]
    else if (op == 0xF6 || op == 0xF7) && c.hasModRM then
      [RegOrMem(c, size, 0)] + if c.opcodeExt <= 1 then [Imm(imm, size)] else []
    else if (op == 0xFE || op == 0xFF) && c.hasModRM then [RegOrMem(c, size, 0)]
    else []
  }

  function TwoByteOperands(c: Context, disp: int, imm: int): seq<Operand> {
    var op := c.opcode;
    var width := c.operandWidth;
    if 0x80 <= op <= 0x8F then [Relative(imm, if width == 16 then 16 else 32)]
    else if 0xC8 <= op <= 0xCF then [Reg(Extend(op % 8, c.rex.b), width, c)]
    else if !c.hasModRM then []
    else if 0x90 <= op <= 0x9F then [RegOrMem(c, 8, 0)]
    else if op == 0xC7 && High2(c.modrm) == 3 && c.opcodeExt >= 6 then
      [Reg(Extend(Low3(c.modrm), c.rex.b), width, c)]
    else
      ModRMPair(c, disp, width,
                if op == 0xB6 || op == 0xBE then 8 else if op == 0xB7 || op == 0xBF then 16 else width, true)
  }

  /** Opcode maps 2 and 3: both operands have size 128. */
  function ThreeByteOperands(c: Context, disp: int, imm: int): seq<Operand> {
    if !c.hasModRM then []
    else ModRMPair(c, disp, 128, 128, true)
         + if c.opcodeMap == 3 && ImmediateSize(c) > 0 then [Imm(imm, 8)] else []
  }

  /** The operands of an instruction, given the displacement to put into a ModRM pair. */
  function OperandList(mode: MachineMode, c: Context, disp: int, imm: int): seq<Operand> {
    if c.opcodeMap == 0 then
      if c.opcode <= 0x3D then ArithmeticOperands(c, disp, imm)
      else if c.opcode < 0x50 then []
      else if c.opcode <= 0x8F then MiddleOperands(mode, c, disp, imm)
      else if c.opcode <= 0xCF then UpperOperands(c, imm)
      else TopOperands(c, imm)
    else if c.opcodeMap == 1 then TwoByteOperands(c, disp, imm)
    else if c.opcodeMap == 2 || c.opcodeMap == 3 then ThreeByteOperands(c, disp, imm)
    else []
  }

  /** Whether an opcode takes its operands from ModRMPair. */
  predicate UsesModRMPair(c: Context) {
    c.hasModRM &&
    if c.opcodeMap == 0 then
      (c.opcode <= 0x3D && c.opcode % 8 <= 3) || 0x84 <= c.opcode <= 0x8E
    else if c.opcodeMap == 1 then
      !(0x80 <= c.opcode <= 0x9F || 0xC8 <= c.opcode <= 0xCF)
      && !(c.opcode == 0xC7 && High2(c.modrm) == 3 && c.opcodeExt >= 6)
    else c.opcodeMap == 2 || c.opcodeMap == 3
  }

  /** Whether an opcode builds its r/m operand with displacement zero. */
  predicate PassesZero(c: Context) {
    c.hasModRM &&
    if c.opcodeMap == 0 then
      c.opcode == 0x69 || c.opcode == 0x6B || 0x80 <= c.opcode <= 0x83 || c.opcode == 0x8F
      || c.opcode == 0xC0 || c.opcode == 0xC1 || c.opcode == 0xC6 || c.opcode == 0xC7
      || 0xD0 <= c.opcode <= 0xD3 || c.opcode == 0xF6 || c.opcode == 0xF7 || c.opcode == 0xFE || c.opcode == 0xFF
    else c.opcodeMap == 1 && 0x90 <= c.opcode <= 0x9F
  }

  /** Whether an opcode has a memory operand. */
  predicate HasMemoryOperand(c: Context) {
    (UsesModRMPair(c) || PassesZero(c)) && High2(c.modrm) != 3
  }

  predicate IsRelativeBranch(c: Context) {
    if c.opcodeMap == 0 then
      0x70 <= c.opcode <= 0x7F || 0xE0 <= c.opcode <= 0xE3 || c.opcode in {0xE8, 0xE9, 0xEB}
    else c.opcodeMap == 1 && 0x80 <= c.opcode <= 0x8F
  }
}
