/** Entities shared by the decoder and the formatter: machine modes, status codes,
    registers, operands and the decoded instruction. */
module Types {

  type byte = b: int | 0 <= b < 256

  /** A register number: three encoded bits plus the extension bit of REX, VEX or EVEX. */
  type RegisterNumber = i: int | 0 <= i < 16

  const MAX_OPERANDS: nat := 4
  const MAX_INSTRUCTION_LENGTH: nat := 15

  const TWO_16: int := 0x1_0000
  const TWO_32: int := 0x1_0000_0000
  const TWO_64: int := 0x1_0000_0000_0000_0000

  datatype MachineMode = Long64 | LongCompat32 | Legacy32 | Real16

  datatype Status =
    | Success
    | InvalidInput
    | InvalidOpcode
    | InvalidPrefix
    | InvalidModRM
    | InstructionTooLong
    | TruncatedInput
    | UnsupportedEncoding
    | InternalError

  datatype Segment = ES | CS | SS | DS | FS | GS

  /** The registers the decoder can put into an operand. */
  datatype Register =
    | NoRegister
    | Gpr64(number: RegisterNumber)
    | Gpr32(number: RegisterNumber)
    | Gpr16(number: RegisterNumber)
    | Gpr8(number: RegisterNumber)        // al, cl, dl, bl, spl, bpl, sil, dil, r8b, ...
    | High8(high: RegisterNumber)         // ah, ch, dh, bh for 0..3
    | SegmentRegister(segment: Segment)
    | Rip

  const CL := Gpr8(1)
  const DX := Gpr16(2)
  const BX := Gpr16(3)
  const BP := Gpr16(5)
  const SI := Gpr16(6)
  const DI := Gpr16(7)

  datatype Memory = Memory(
    segment: Register,
    base: Register,
    index: Register,
    scale: nat,
    hasDisplacement: bool,
    displacement: int)

  datatype Operand =
    | NoOperand
    | RegisterOperand(size: nat, reg: Register)
    | MemoryOperand(size: nat, mem: Memory)
    | ImmediateOperand(size: nat, value: int, isSigned: bool, isRelative: bool)
    | FarPointer(size: nat, selector: nat, target: nat)

  /** The attribute bits the decoder sets and the formatter tests. */
  datatype Attributes = Attributes(
    lock: bool, rep: bool, repe: bool, repne: bool, segmentOverride: bool,
    operandSize: bool, addressSize: bool, rex: bool, rex2: bool, vex: bool,
    evex: bool, modrm: bool, sib: bool, relative: bool)

  datatype VectorEncoding = VectorEncoding(
    hasVex: bool, hasEvex: bool, l: nat, pp: nat, vvvv: nat, w: bool,
    z: nat, ll: nat, b: nat, aaa: nat)

  datatype Instruction = Instruction(
    mnemonic: nat,
    length: nat,
    operandCount: nat,
    operandCountVisible: nat,
    operandWidth: nat,
    addressWidth: nat,
    attributes: Attributes,
    address: nat,
    category: nat,
    isaExtension: nat,
    opcodeMap: nat,
    opcode: byte,
    opcodeExt: nat,
    modrm: byte,
    sib: byte,
    hasModRM: bool,
    hasSIB: bool,
    rawBytes: seq<byte>,
    encoding: VectorEncoding,
    segmentOverride: Register)

  const NO_ATTRIBUTES := Attributes(false, false, false, false, false, false, false,
                                    false, false, false, false, false, false, false)

  const NO_ENCODING := VectorEncoding(false, false, 0, 0, 0, false, 0, 0, 0, 0)

  const NO_BYTES: seq<byte> := [0, 0, 0, 0, 0, 0, 0, 0, 0, 0, 0, 0, 0, 0, 0]

  /** The default-initialised instruction, which Clear() restores. */
  const CLEARED := Instruction(0, 0, 0, 0, 0, 0, NO_ATTRIBUTES, 0, 0, 0, 0, 0, 0, 0, 0,
                               false, false, NO_BYTES, NO_ENCODING, NoRegister)
}
