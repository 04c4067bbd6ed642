/** The text of an instruction as a plain string, without a buffer: what the formatter refines. */
module Text {
  import opened Types

  // ---------------------------------------------------------------- numbers

  const HEX_DIGITS: string := "0123456789ABCDEF"

  /** Upper-case hexadecimal, without leading zeros. */
  function Hex(v: nat): string {
    if v < 16 then [HEX_DIGITS[v]] else Hex(v / 16) + [HEX_DIGITS[v % 16]]
  }

  function Hex0x(v: nat): string { "0x" + Hex(v) }

  // ---------------------------------------------------------------- names

  const NAMES_64: seq<string> := ["rax", "rcx", "rdx", "rbx", "rsp", "rbp", "rsi", "rdi",
                                  "r8", "r9", "r10", "r11", "r12", "r13", "r14", "r15"]
  const NAMES_32: seq<string> := ["eax", "ecx", "edx", "ebx", "esp", "ebp", "esi", "edi",
                                  "r8d", "r9d", "r10d", "r11d", "r12d", "r13d", "r14d", "r15d"]
  const NAMES_16: seq<string> := ["ax", "cx", "dx", "bx", "sp", "bp", "si", "di",
                                  "r8w", "r9w", "r10w", "r11w", "r12w", "r13w", "r14w", "r15w"]
  const NAMES_8: seq<string> := ["al", "cl", "dl", "bl", "spl", "bpl", "sil", "dil",
                                 "r8b", "r9b", "r10b", "r11b", "r12b", "r13b", "r14b", "r15b"]
  const NAMES_HIGH: seq<string> := ["ah", "ch", "dh", "bh"]

  function SegmentName(s: Segment): string {
    match s
    case ES => "es"
    case CS => "cs"
    case SS => "ss"
    case DS => "ds"
    case FS => "fs"
    case GS => "gs"
  }

  function RegisterName(r: Register): string {
    match r
    case NoRegister => "none"
    case Gpr64(i) => NAMES_64[i]
    case Gpr32(i) => NAMES_32[i]
    case Gpr16(i) => NAMES_16[i]
    case Gpr8(i) => NAMES_8[i]
    case High8(i) => if i < 4 then NAMES_HIGH[i] else "unknown"
    case SegmentRegister(s) => SegmentName(s)
    case Rip => "rip"
  }

  function ToLower(c: char): char {
    if 'A' <= c <= 'Z' then ((c as int) - ('A' as int) + ('a' as int)) as char else c
  }

  function Lower(s: string): string {
    seq(|s|, i requires 0 <= i < |s| => ToLower(s[i]))
  }

  /** A register in an operand; no register prints nothing. */
  function RegisterText(r: Register): string {
    if r == NoRegister then "" else Lower(RegisterName(r))
  }

  function SizePrefix(size: nat): string {
    if size == 8 then "byte ptr "
    else if size == 16 then "word ptr "
    else if size == 32 then "dword ptr "
    else if size == 48 then "fword ptr "
    else if size == 64 then "qword ptr "
    else if size == 80 then "tbyte ptr "
    else if size == 128 then "xmmword ptr "
    else if size == 256 then "ymmword ptr "
    else if size == 512 then "zmmword ptr "
    else ""
  }

  // ---------------------------------------------------------------- operands

  /** A digit character, as an 8-bit char. */
  function DigitChar(d: nat): char { ((48 + d) % 256) as char }

  function SegmentText(m: Memory): string {
    if m.segment != NoRegister then RegisterText(m.segment) + ":" else ""
  }

  function IndexText(m: Memory): string {
    if m.index == NoRegister then ""
    else (if m.base != NoRegister then "+" else "") + RegisterText(m.index) + "*"
         + [DigitChar(if m.scale == 0 then 1 else m.scale)]
  }

  /** The displacement: signed after a register, unsigned alone, and left out when it is zero
      next to a register. */
  function DisplacementText(m: Memory): string {
    var hasComponent := m.base != NoRegister || m.index != NoRegister;
    if m.hasDisplacement && (m.displacement != 0 || !hasComponent) then
      if !hasComponent then Hex0x(m.displacement % TWO_64)
      else if m.displacement >= 0 then "+" + Hex0x(m.displacement)
      else "-" + Hex0x(-m.displacement)
    else if !hasComponent then Hex0x(0)
    else ""
  }

  function MemoryText(size: nat, m: Memory): string {
    SizePrefix(size) + SegmentText(m) + "[" + RegisterText(m.base) + IndexText(m) + DisplacementText(m) + "]"
  }

  /** The absolute target of a relative branch. */
  function BranchTarget(address: nat, length: nat, offset: int): nat {
    (address + length + offset) % TWO_64
  }

  function SmallOrHex(v: nat): string {
    if v <= 9 then [DigitChar(v)] else Hex0x(v)
  }

  function ImmediateText(value: int, isSigned: bool): string {
    if isSigned && value < 0 then "-" + SmallOrHex(-value) else SmallOrHex(value % TWO_64)
  }

  function OperandText(op: Operand, address: nat, length: nat): string {
    match op
    case NoOperand => ""
    case RegisterOperand(_, reg) => RegisterText(reg)
    case MemoryOperand(size, mem) => MemoryText(size, mem)
    case ImmediateOperand(_, value, isSigned, isRelative) =>
      if isRelative then Hex0x(BranchTarget(address, length, value)) else ImmediateText(value, isSigned)
    case FarPointer(_, selector, target) => Hex0x(selector) + ":" + Hex0x(target)
  }

  /** Separator and text of the operands from i on, up to the first empty slot. */
  function OperandsText(ops: seq<Operand>, i: nat, address: nat, length: nat): string
    decreases |ops| - i
  {
    if i >= |ops| || ops[i] == NoOperand then ""
    else (if i == 0 then " " else ", ") + OperandText(ops[i], address, length)
         + OperandsText(ops, i + 1, address, length)
  }

  // ---------------------------------------------------------------- instructions

  function MnemonicText(names: nat -> string, inst: Instruction): string {
    (if inst.attributes.lock then "lock " else "")
    + (if inst.attributes.repe then "repe " else if inst.attributes.rep then "rep " else "")
    + (if inst.attributes.repne then "repne " else "")
    + Lower(names(inst.mnemonic))
  }

  function InstructionText(names: nat -> string, inst: Instruction, ops: seq<Operand>, address: nat): string {
    MnemonicText(names, inst) + OperandsText(ops, 0, address, inst.length)
  }
}
