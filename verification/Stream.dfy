/** The streaming half of the decoder: legacy prefixes and REX, then REX2, VEX or EVEX,
    the opcode escapes, ModRM, SIB, displacement and immediate, as functions from a byte
    string and a context to a context or a failure status. */
module Stream {
  import opened Types

  datatype Result<+T> = Ok(value: T) | Err(status: Status) {
    predicate IsFailure() {
      Err?
    }

    function PropagateFailure<U>(): Result<U>
      requires Err?
    {
      Err(status)
    }

    function Extract(): T
      requires Ok?
    {
      value
    }
  }

  // ---------------------------------------------------------------- context

  datatype Legacy = Legacy(lock: bool, rep: bool, repne: bool, hasSegment: bool, segment: Register,
                           operandSize: bool, addressSize: bool)

  datatype Rex = Rex(present: bool, w: bool, r: bool, x: bool, b: bool)

  datatype Rex2 = Rex2(present: bool, r4: bool, x4: bool, b4: bool)

  datatype Vex = Vex(present: bool, l: nat, pp: nat, mmmmm: nat, vvvv: nat, w: bool)

  datatype Evex = Evex(present: bool, z: nat, ll: nat, b: nat, aaa: nat, v2: nat, r2: nat)

  datatype Context = Context(
    offset: nat,
    prefixCount: nat,
    legacy: Legacy,
    rex: Rex,
    rex2: Rex2,
    vex: Vex,
    evex: Evex,
    opcodeMap: nat,
    opcode: byte,
    opcodeExt: nat,
    modrm: byte,
    sib: byte,
    hasModRM: bool,
    hasSIB: bool,
    operandWidth: nat,
    addressWidth: nat)

  const NO_LEGACY := Legacy(false, false, false, false, NoRegister, false, false)
  const NO_REX := Rex(false, false, false, false, false)
  const NO_REX2 := Rex2(false, false, false, false)
  const NO_VEX := Vex(false, 0, 0, 1, 0, false)
  const NO_EVEX := Evex(false, 0, 0, 0, 0, 0, 0)

  const RESET := Context(0, 0, NO_LEGACY, NO_REX, NO_REX2, NO_VEX, NO_EVEX,
                         0, 0, 0, 0, 0, false, false, 32, 64)

  // ---------------------------------------------------------------- bytes

  /** ModRM.mod or SIB.scale. */
  function High2(b: byte): nat { b / 64 }

  /** ModRM.reg or SIB.index. */
  function Mid3(b: byte): nat { b / 8 % 8 }

  /** ModRM.rm or SIB.base. */
  function Low3(b: byte): nat { b % 8 }

  /** The value of the n bytes at off, least significant byte first. */
  function LittleEndian(buf: seq<byte>, off: nat, n: nat): nat
    requires off + n <= |buf|
    decreases n
  {
    if n == 0 then 0 else buf[off] + 256 * LittleEndian(buf, off + 1, n - 1)
  }

  function SignExtend8(v: int): int { if v < 0x80 then v else v - 0x100 }

  function SignExtend16(v: int): int { if v < 0x8000 then v else v - 0x1_0000 }

  function SignExtend32(v: int): int { if v < 0x8000_0000 then v else v - 0x1_0000_0000 }

  function SignExtend64(v: int): int
  {
    if v < 0x8000_0000_0000_0000 then v else v - 0x1_0000_0000_0000_0000
  }

  // ---------------------------------------------------------------- phase 1: prefixes

  predicate IsLegacyPrefix(b: byte) {
    b == 0xF0 || b == 0xF3 || b == 0xF2 || b == 0x66 || b == 0x67 || IsSegmentPrefix(b)
  }

  predicate IsSegmentPrefix(b: byte) {
    b == 0x2E || b == 0x36 || b == 0x3E || b == 0x26 || b == 0x64 || b == 0x65
  }

  function PrefixSegment(b: byte): Register
    requires IsSegmentPrefix(b)
  {
    SegmentRegister(
      if b == 0x2E then CS else if b == 0x36 then SS else if b == 0x3E then DS
      else if b == 0x26 then ES else if b == 0x64 then FS else GS)
  }

  function ApplyPrefix(l: Legacy, b: byte): Legacy
    requires IsLegacyPrefix(b)
  {
    if b == 0xF0 then l.(lock := true)
    else if b == 0xF3 then l.(rep := true)
    else if b == 0xF2 then l.(repne := true)
    else if b == 0x66 then l.(operandSize := true)
    else if b == 0x67 then l.(addressSize := true)
    else l.(hasSegment := true, segment := PrefixSegment(b))
  }

  predicate IsRex(mode: MachineMode, b: byte) {
    mode == Long64 && 0x40 <= b <= 0x4F
  }

  function RexOf(b: byte): Rex {
    Rex(true, b / 8 % 2 == 1, b / 4 % 2 == 1, b / 2 % 2 == 1, b % 2 == 1)
  }

  function ScanPrefixes(mode: MachineMode, buf: seq<byte>, c: Context): Context
    decreases MAX_INSTRUCTION_LENGTH - c.offset
  {
    if c.offset < |buf| && c.offset < MAX_INSTRUCTION_LENGTH then
      var b := buf[c.offset];
      if IsRex(mode, b) then
        c.(rex := RexOf(b), prefixCount := c.prefixCount + 1, offset := c.offset + 1)
      else if IsLegacyPrefix(b) then
        ScanPrefixes(mode, buf, c.(legacy := ApplyPrefix(c.legacy, b),
                                   prefixCount := c.prefixCount + 1, offset := c.offset + 1))
      else c
    else c
  }

  // ---------------------------------------------------------------- phase 1a-1c: REX2, VEX, EVEX

  function DecodeRex2(buf: seq<byte>, c: Context): Result<Context>
    requires c.offset < |buf|
  {
    if c.offset + 2 >= |buf| then Err(TruncatedInput)
    else
      var p := buf[c.offset + 1];
      Ok(c.(rex2 := Rex2(true, p / 8 % 2 == 1, p / 4 % 2 == 1, p / 2 % 2 == 1),
            rex := Rex(true, p / 128 == 1, p / 64 % 2 == 1, p / 32 % 2 == 1, p / 16 % 2 == 1),
            opcodeMap := if p % 2 == 1 then 1 else c.opcodeMap,
            opcode := buf[c.offset + 2],
            offset := c.offset + 3))
  }

  /** The legacy prefix that the pp field of VEX and EVEX stands for. */
  function ApplyPP(l: Legacy, pp: nat): Legacy {
    if pp == 1 then l.(operandSize := true)
    else if pp == 2 then l.(rep := true)
    else if pp == 3 then l.(repne := true)
    else l
  }

  /** REX bits from an inverted R, X, B payload byte. */
  function InvertedRex(b: byte, w: bool): Rex {
    Rex(true, w, b / 128 == 0, b / 64 % 2 == 0, b / 32 % 2 == 0)
  }

  /** vvvv, inverted. */
  function InvertedVvvv(b: byte): nat { 15 - b / 8 % 16 }

  function EvexFields(p1: byte, p3: byte): Evex {
    Evex(true, p3 / 128, p3 / 32 % 4, p3 / 16 % 2, p3 % 8,
         if p3 / 8 % 2 == 0 then 1 else 0, if p1 / 16 % 2 == 0 then 1 else 0)
  }

  function DecodeVex2(c: Context, b1: byte): Context
  {
    c.(offset := c.offset + 2, prefixCount := c.prefixCount + 2,
       rex := c.rex.(present := true, r := b1 / 128 == 0, x := false, b := false),
       vex := Vex(true, b1 / 4 % 2, b1 % 4, 1, InvertedVvvv(b1), false),
       legacy := ApplyPP(c.legacy, b1 % 4))
  }

  function DecodeVex3(c: Context, b1: byte, b2: byte): Result<Context>
  {
    if b1 % 32 == 0 || b1 % 32 > 3 then Err(InvalidPrefix)
    else Ok(c.(offset := c.offset + 3, prefixCount := c.prefixCount + 3,
               rex := InvertedRex(b1, b2 / 128 == 1),
               vex := Vex(true, b2 / 4 % 2, b2 % 4, b1 % 32, InvertedVvvv(b2), b2 / 128 == 1),
               legacy := ApplyPP(c.legacy, b2 % 4)))
  }

  /** A context without VEX means that the bytes are not a VEX prefix in this mode. */
  function DecodeVEX(mode: MachineMode, buf: seq<byte>, c: Context): Result<Context>
  {
    if c.offset >= |buf| then Err(TruncatedInput)
    else if buf[c.offset] == 0xC5 then
      if c.offset + 1 >= |buf| then Err(TruncatedInput)
      else if mode != Long64 && buf[c.offset + 1] / 64 != 3 then Ok(c)
      else Ok(DecodeVex2(c, buf[c.offset + 1]))
    else if buf[c.offset] == 0xC4 then
      if c.offset + 2 >= |buf| then Err(TruncatedInput)
      else if mode != Long64 && buf[c.offset + 1] / 64 != 3 then Ok(c)
      else DecodeVex3(c, buf[c.offset + 1], buf[c.offset + 2])
    else Ok(c)
  }

  function DecodeEvexPayload(c: Context, p1: byte, p2: byte, p3: byte): Result<Context>
  {
    if p1 % 4 == 0 || p1 % 4 > 3 then Err(InvalidPrefix)
    else Ok(c.(offset := c.offset + 4, prefixCount := c.prefixCount + 4,
               rex := InvertedRex(p1, p2 / 128 == 1),
               vex := c.vex.(mmmmm := p1 % 4, w := p2 / 128 == 1, vvvv := InvertedVvvv(p2), pp := p2 % 4),
               evex := EvexFields(p1, p3),
               legacy := ApplyPP(c.legacy, p2 % 4)))
  }

  /** A context without EVEX means that the bytes are not an EVEX prefix in this mode. */
  function DecodeEVEX(mode: MachineMode, buf: seq<byte>, c: Context): Result<Context>
  {
    if c.offset + 3 >= |buf| then Err(TruncatedInput)
    else
      var p1, p2 := buf[c.offset + 1], buf[c.offset + 2];
      if mode != Long64 && (p1 / 4 % 4 != 0 || p2 / 4 % 2 == 0) then Ok(c)
      else DecodeEvexPayload(c, p1, p2, buf[c.offset + 3])
  }

  /** The opcode byte after a VEX or EVEX prefix, in the map the prefix names. */
  function VectorOpcode(buf: seq<byte>, c: Context): Result<Context>
  {
    if c.offset >= |buf| then Err(TruncatedInput)
    else if c.vex.mmmmm == 1 || c.vex.mmmmm == 2 || c.vex.mmmmm == 3 then
      Ok(c.(opcode := buf[c.offset], offset := c.offset + 1, opcodeMap := c.vex.mmmmm))
    else Err(InvalidPrefix)
  }

  // ---------------------------------------------------------------- phase 2: opcode

  function DecodeOpcode(buf: seq<byte>, c: Context): Result<Context>
  {
    if c.offset >= |buf| then Err(TruncatedInput)
    else if buf[c.offset] != 0x0F then
      Ok(c.(opcodeMap := 0, opcode := buf[c.offset], offset := c.offset + 1))
    else if c.offset + 1 >= |buf| then Err(TruncatedInput)
    else if buf[c.offset + 1] == 0x38 || buf[c.offset + 1] == 0x3A then
      if c.offset + 2 >= |buf| then Err(TruncatedInput)
      else Ok(c.(opcodeMap := if buf[c.offset + 1] == 0x38 then 2 else 3,
                 opcode := buf[c.offset + 2], offset := c.offset + 3))
    else Ok(c.(opcodeMap := 1, opcode := buf[c.offset + 1], offset := c.offset + 2))
  }

  /** From the end of the legacy prefixes to the end of the opcode. */
  function DecodeHead(mode: MachineMode, buf: seq<byte>, c: Context): Result<Context>
  {
    if c.offset < |buf| && buf[c.offset] == 0xD5 then DecodeRex2(buf, c)
    else if c.offset < |buf| && (buf[c.offset] == 0xC5 || buf[c.offset] == 0xC4) then
      var v :- DecodeVEX(mode, buf, c);
      if v.vex.present then VectorOpcode(buf, v) else DecodeOpcode(buf, v)
    else if c.offset < |buf| && buf[c.offset] == 0x62 then
      var v :- DecodeEVEX(mode, buf, c);
      if v.evex.present then VectorOpcode(buf, v) else DecodeOpcode(buf, v)
    else DecodeOpcode(buf, c)
  }

  // ---------------------------------------------------------------- widths

  function OperandWidth(mode: MachineMode, c: Context): nat {
    match mode
    case Long64 =>
      if c.rex.w || c.vex.w then 64
      else if c.legacy.operandSize && !c.vex.present && !c.evex.present then 16
      else 32
    case Real16 => if c.legacy.operandSize then 32 else 16
    case _ => if c.legacy.operandSize then 16 else 32
  }

  function AddressWidth(mode: MachineMode, c: Context): nat {
    match mode
    case Long64 => if c.legacy.addressSize then 32 else 64
    case Real16 => if c.legacy.addressSize then 32 else 16
    case _ => if c.legacy.addressSize then 16 else 32
  }

  function ResolveEffectiveSizes(mode: MachineMode, c: Context): Context {
    c.(operandWidth := OperandWidth(mode, c), addressWidth := AddressWidth(mode, c))
  }

  // ---------------------------------------------------------------- opcode tables

  predicate OpcodeRequiresModRM(map_: nat, op: byte) {
    if map_ == 2 || map_ == 3 then true
    else if map_ == 1 then
      !(0x05 <= op <= 0x09 || op == 0x0B || op == 0x0E || 0x30 <= op <= 0x35 || op == 0x37
        || op == 0x77 || 0x80 <= op <= 0x8F || 0xA0 <= op <= 0xA2 || op == 0xA8 || op == 0xA9
        || 0xC8 <= op <= 0xCF)
    else if op <= 0x3F then op % 8 <= 3
    else
      op == 0x62 || op == 0x63 || op == 0x69 || op == 0x6B || 0x80 <= op <= 0x8F
      || op == 0xC0 || op == 0xC1 || 0xC4 <= op <= 0xC7 || 0xD0 <= op <= 0xD3
      || 0xD8 <= op <= 0xDF || op == 0xF6 || op == 0xF7 || op == 0xFE || op == 0xFF
  }

  function WordOrDword(width: nat): nat {
    if width == 16 then 2 else 4
  }

  function OpcodeImmediateSize(map_: nat, op: byte, width: nat): nat {
    if map_ == 3 then 1
    else if map_ == 2 then 0
    else if map_ == 1 then
      if 0x70 <= op <= 0x73 || op == 0xC2 || 0xC4 <= op <= 0xC6 || op == 0xBA then 1 else 0
    else if op <= 0x3F then
      if op % 8 == 4 then 1 else if op % 8 == 5 then WordOrDword(width) else 0
    else if op == 0x68 || op == 0x69 || op == 0x81 || op == 0xA9 || op == 0xC7
            || op == 0xE8 || op == 0xE9 then WordOrDword(width)
    else if 0xB8 <= op <= 0xBF then if width == 64 then 8 else WordOrDword(width)
    else if op == 0xC2 || op == 0xCA then 2
    else if op == 0xC8 then 3
    else if op == 0x6A || op == 0x6B || 0x70 <= op <= 0x7F || op == 0x80 || op == 0x82 || op == 0x83
            || op == 0xA8 || 0xB0 <= op <= 0xB7 || op == 0xC0 || op == 0xC1 || op == 0xC6
            || op == 0xCD || 0xE0 <= op <= 0xE7 || op == 0xEB then 1
    else 0
  }

  /** Bytes of displacement that follow ModRM and SIB. */
  function DisplacementSize(c: Context): nat {
    if !c.hasModRM then 0
    else if High2(c.modrm) == 1 then 1
    else if High2(c.modrm) == 2 then if c.addressWidth == 16 then 2 else 4
    else if High2(c.modrm) == 3 then 0
    else if c.addressWidth == 16 then if Low3(c.modrm) == 6 then 2 else 0
    else if Low3(c.modrm) == 5 || (c.hasSIB && Low3(c.sib) == 5) then 4
    else 0
  }

  function ImmediateSize(c: Context): nat {
    if c.opcodeMap == 0 && 0xA0 <= c.opcode <= 0xA3 then
      if c.addressWidth == 64 then 8 else if c.addressWidth == 32 then 4 else 2
    else if c.opcodeMap == 0 && c.opcode == 0xF6 && c.hasModRM && c.opcodeExt <= 1 then 1
    else if c.opcodeMap == 0 && c.opcode == 0xF7 && c.hasModRM && c.opcodeExt <= 1 then
      WordOrDword(c.operandWidth)
    else if c.opcodeMap == 1 && 0x80 <= c.opcode <= 0x8F then WordOrDword(c.operandWidth)
    else if c.opcodeMap == 1 && (c.opcode == 0xA4 || c.opcode == 0xAC) then 1
    else OpcodeImmediateSize(c.opcodeMap, c.opcode, c.operandWidth)
  }

  // ---------------------------------------------------------------- phases 3-6

  function DecodeModRM(buf: seq<byte>, c: Context): Result<Context>
  {
    if c.offset >= |buf| then Err(TruncatedInput)
    else Ok(c.(modrm := buf[c.offset], hasModRM := true, opcodeExt := Mid3(buf[c.offset]),
               offset := c.offset + 1))
  }

  predicate NeedsSIB(c: Context) {
    High2(c.modrm) != 3 && Low3(c.modrm) == 4 && c.addressWidth != 16
  }

  function DecodeSIB(buf: seq<byte>, c: Context): Result<Context>
  {
    if c.offset >= |buf| then Err(TruncatedInput)
    else Ok(c.(sib := buf[c.offset], hasSIB := true, offset := c.offset + 1))
  }

  /** ModRM and, where ModRM asks for it, SIB. */
  function DecodeAddressing(buf: seq<byte>, c: Context): Result<Context>
  {
    if OpcodeRequiresModRM(c.opcodeMap, c.opcode) then
      var m :- DecodeModRM(buf, c);
      if NeedsSIB(m) then DecodeSIB(buf, m) else Ok(m)
    else Ok(c)
  }

  /** A displacement of size 0, 1, 2 or 4 at off; any other size is InvalidModRM. */
  function ReadDisplacement(buf: seq<byte>, off: nat, size: nat): Result<int>
  {
    if size == 0 then Ok(0)
    else if size != 1 && size != 2 && size != 4 then Err(InvalidModRM)
    else if off + size > |buf| then Err(TruncatedInput)
    else
      var v := LittleEndian(buf, off, size);
      Ok(if size == 1 then SignExtend8(v) else if size == 2 then SignExtend16(v) else SignExtend32(v))
  }

  /** An immediate of size 0, 1, 2, 3, 4 or 8 at off; any other size is InvalidOpcode. */
  function ReadImmediate(buf: seq<byte>, off: nat, size: nat): Result<int>
  {
    if size == 0 then Ok(0)
    else if size != 1 && size != 2 && size != 3 && size != 4 && size != 8 then Err(InvalidOpcode)
    else if off + size > |buf| then Err(TruncatedInput)
    else
      var v := LittleEndian(buf, off, size);
      Ok(if size == 1 then SignExtend8(v) else if size == 2 then SignExtend16(v)
         else if size == 3 then v else if size == 4 then SignExtend32(v) else SignExtend64(v))
  }

  // ---------------------------------------------------------------- the pipeline

  /** What the phases leave behind. The context's offset is the end of the instruction. */
  datatype Streamed = Streamed(ctx: Context, displacement: int, immediate: int)

  /** Displacement and immediate, after ModRM and SIB. */
  function DecodeTail(buf: seq<byte>, c: Context): Result<Streamed>
  {
    var disp :- ReadDisplacement(buf, c.offset, DisplacementSize(c));
    var afterDisp := c.offset + DisplacementSize(c);
    var imm :- ReadImmediate(buf, afterDisp, ImmediateSize(c));
    Ok(Streamed(c.(offset := afterDisp + ImmediateSize(c)), disp, imm))
  }

  function DecodeBody(mode: MachineMode, buf: seq<byte>, c: Context): Result<Streamed>
  {
    var a :- DecodeAddressing(buf, ResolveEffectiveSizes(mode, c));
    DecodeTail(buf, a)
  }

  /** Where a decode stands: the phase that comes next, and what the finished phases left. */
  datatype Progress =
    | Started(buf: seq<byte>)
    | AtPrefixes(buf: seq<byte>, ctx: Context)
    | AtHead(buf: seq<byte>, ctx: Context)
    | AtBody(buf: seq<byte>, ctx: Context)
    | Finished(result: Streamed)

  function PhasesLeft(at: Progress): nat {
    match at
    case Started(_) => 4
    case AtPrefixes(_, _) => 3
    case AtHead(_, _) => 2
    case AtBody(_, _) => 1
    case Finished(_) => 0
  }

  /** One phase. */
  function Advance(mode: MachineMode, at: Progress): (r: Result<Progress>)
    requires !at.Finished?
    ensures r.Ok? ==> PhasesLeft(r.value) < PhasesLeft(at)
  {
    match at
    case Started(buf) => Ok(AtPrefixes(buf, RESET))
    case AtPrefixes(buf, c) => Ok(AtHead(buf, ScanPrefixes(mode, buf, c)))
    case AtHead(buf, c) => (var h :- DecodeHead(mode, buf, c); Ok(AtBody(buf, h)))
    case AtBody(buf, c) => (var s :- DecodeBody(mode, buf, c); Ok(Finished(s)))
  }

  /** All phases that are left, and then the length limit. */
  function Drive(mode: MachineMode, at: Progress): Result<Streamed>
    decreases PhasesLeft(at)
  {
    if at.Finished? then
      if at.result.ctx.offset > MAX_INSTRUCTION_LENGTH then Err(InstructionTooLong) else Ok(at.result)
    else
      var next :- Advance(mode, at);
      Drive(mode, next)
  }

  function Decode(mode: MachineMode, buf: seq<byte>): Result<Streamed> {
    Drive(mode, Started(buf))
  }

  /** The phases in a row, with the length limit at the end. */
  lemma DecodeUnfolds(mode: MachineMode, buf: seq<byte>)
    ensures var head := DecodeHead(mode, buf, ScanPrefixes(mode, buf, RESET));
      if head.Err? then Decode(mode, buf) == Err(head.status)
      else
        var s := DecodeBody(mode, buf, head.value);
        Decode(mode, buf) ==
          if s.Ok? && s.value.ctx.offset > MAX_INSTRUCTION_LENGTH then Err(InstructionTooLong) else s
  {
    hide DecodeHead, DecodeBody, ScanPrefixes;
    var p := ScanPrefixes(mode, buf, RESET);
    assert Drive(mode, Started(buf)) == Drive(mode, AtPrefixes(buf, RESET)) == Drive(mode, AtHead(buf, p));
    var head := DecodeHead(mode, buf, p);
    if head.Ok? {
      assert Drive(mode, AtHead(buf, p)) == Drive(mode, AtBody(buf, head.value));
      var s := DecodeBody(mode, buf, head.value);
      if s.Ok? {
        assert Drive(mode, AtBody(buf, head.value)) == Drive(mode, Finished(s.value));
      }
    }
  }
}
