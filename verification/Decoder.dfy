/** The decoder as the program runs it: a mutable context that the phases update in place, and
    an operand array that operand building fills slot by slot. Each method is proved against
    the function of the same phase. */
module Decoder {
  import opened Types
  import S = Stream
  import opened Operands
  import opened Locality
  import opened Shape
  import opened Full
  import opened Builder

  type Context = S.Context

  /** Per-decode scratch state. */
  class DecodeContext {
    var buffer: seq<byte>
    var offset: nat
    var prefixCount: nat
    var legacy: S.Legacy
    var rex: S.Rex
    var rex2: S.Rex2
    var vex: S.Vex
    var evex: S.Evex
    var opcodeMap: nat
    var opcode: byte
    var opcodeExt: nat
    var modrm: byte
    var sib: byte
    var hasModRM: bool
    var hasSIB: bool
    var operandWidth: nat
    var addressWidth: nat

    /** The fields other than the buffer, as a value. */
    function View(): Context
      reads this
    {
      S.Context(offset, prefixCount, legacy, rex, rex2, vex, evex, opcodeMap, opcode, opcodeExt,
                modrm, sib, hasModRM, hasSIB, operandWidth, addressWidth)
    }

    /** Reset(), with the buffer set. */
    constructor (input: seq<byte>)
      ensures buffer == input && View() == S.RESET
    {
      buffer := input;
      offset, prefixCount := 0, 0;
      legacy, rex, rex2, vex, evex := S.NO_LEGACY, S.NO_REX, S.NO_REX2, S.NO_VEX, S.NO_EVEX;
      opcodeMap, opcode, opcodeExt := 0, 0, 0;
      modrm, sib, hasModRM, hasSIB := 0, 0, false, false;
      operandWidth, addressWidth := 32, 64;
    }
  }

  /** A phase returned st and left the context at after, as its function says. */
  ghost predicate Matches(st: Status, after: Context, r: S.Result<Context>) {
    if r.Ok? then st == Success && after == r.value else st == r.status != Success
  }

  // ---------------------------------------------------------------- phases

  /** The prefix switch: whether b is a legacy prefix, with its effect recorded. */
  method ApplyPrefix(ctx: DecodeContext, b: byte) returns (isPrefix: bool)
    modifies ctx`legacy
    ensures isPrefix == S.IsLegacyPrefix(b)
    ensures ctx.legacy == if isPrefix then S.ApplyPrefix(old(ctx.legacy), b) else old(ctx.legacy)
  {
    if b == 0xF0 {
      ctx.legacy := ctx.legacy.(lock := true);
    } else if b == 0xF3 {
      ctx.legacy := ctx.legacy.(rep := true);
    } else if b == 0xF2 {
      ctx.legacy := ctx.legacy.(repne := true);
    } else if b == 0x2E {
      ctx.legacy := ctx.legacy.(hasSegment := true, segment := SegmentRegister(CS));
    } else if b == 0x36 {
      ctx.legacy := ctx.legacy.(hasSegment := true, segment := SegmentRegister(SS));
    } else if b == 0x3E {
      ctx.legacy := ctx.legacy.(hasSegment := true, segment := SegmentRegister(DS));
    } else if b == 0x26 {
      ctx.legacy := ctx.legacy.(hasSegment := true, segment := SegmentRegister(ES));
    } else if b == 0x64 {
      ctx.legacy := ctx.legacy.(hasSegment := true, segment := SegmentRegister(FS));
    } else if b == 0x65 {
      ctx.legacy := ctx.legacy.(hasSegment := true, segment := SegmentRegister(GS));
    } else if b == 0x66 {
      ctx.legacy := ctx.legacy.(operandSize := true);
    } else if b == 0x67 {
      ctx.legacy := ctx.legacy.(addressSize := true);
    } else {
      return false;
    }
    return true;
  }

  /** One turn of the prefix loop, as the scan function sees it. */
  lemma ScanTurn(mode: MachineMode, buf: seq<byte>, c: Context)
    requires c.offset < |buf| && c.offset < MAX_INSTRUCTION_LENGTH
    ensures var b := buf[c.offset];
      S.ScanPrefixes(mode, buf, c) ==
      if mode == Long64 && 0x40 <= b <= 0x4F then
        c.(rex := S.RexOf(b), prefixCount := c.prefixCount + 1, offset := c.offset + 1)
      else if S.IsLegacyPrefix(b) then
        S.ScanPrefixes(mode, buf,
          c.(legacy := S.ApplyPrefix(c.legacy, b), prefixCount := c.prefixCount + 1, offset := c.offset + 1))
      else c
  {
    hide S.ApplyPrefix, S.IsLegacyPrefix, S.RexOf;
  }

  lemma ScanEnd(mode: MachineMode, buf: seq<byte>, c: Context)
    requires !(c.offset < |buf| && c.offset < MAX_INSTRUCTION_LENGTH)
    ensures S.ScanPrefixes(mode, buf, c) == c
  {
  }

  method DecodePrefixes(mode: MachineMode, ctx: DecodeContext) returns (st: Status)
    modifies ctx`offset, ctx`prefixCount, ctx`legacy, ctx`rex
    ensures st == Success && ctx.View() == S.ScanPrefixes(mode, ctx.buffer, old(ctx.View()))
  {
    hide S.ApplyPrefix, S.IsLegacyPrefix, S.ScanPrefixes, S.RexOf;
    while ctx.offset < |ctx.buffer| && ctx.offset < MAX_INSTRUCTION_LENGTH
      invariant S.ScanPrefixes(mode, ctx.buffer, ctx.View()) == S.ScanPrefixes(mode, ctx.buffer, old(ctx.View()))
      decreases MAX_INSTRUCTION_LENGTH - ctx.offset
    {
      ScanTurn(mode, ctx.buffer, ctx.View());
      var b := ctx.buffer[ctx.offset];
      if mode == Long64 && 0x40 <= b <= 0x4F {
        ctx.rex := S.RexOf(b);
        ctx.prefixCount, ctx.offset := ctx.prefixCount + 1, ctx.offset + 1;
        return Success;
      }
      var isPrefix := ApplyPrefix(ctx, b);
      if !isPrefix { return Success; }
      ctx.prefixCount, ctx.offset := ctx.prefixCount + 1, ctx.offset + 1;
    }
    ScanEnd(mode, ctx.buffer, ctx.View());
    return Success;
  }

  method DecodeRex2(ctx: DecodeContext) returns (st: Status)
    requires ctx.offset < |ctx.buffer|
    modifies ctx`offset, ctx`rex, ctx`rex2, ctx`opcodeMap, ctx`opcode
    ensures Matches(st, ctx.View(), S.DecodeRex2(ctx.buffer, old(ctx.View())))
  {
    if ctx.offset + 1 >= |ctx.buffer| { return TruncatedInput; }
    var payload := ctx.buffer[ctx.offset + 1];
    ctx.rex := S.Rex(true, payload / 128 == 1, payload / 64 % 2 == 1, payload / 32 % 2 == 1, payload / 16 % 2 == 1);
    ctx.rex2 := S.Rex2(true, payload / 8 % 2 == 1, payload / 4 % 2 == 1, payload / 2 % 2 == 1);
    if payload % 2 == 1 {
      ctx.opcodeMap := 1;
    }
    ctx.offset := ctx.offset + 2;
    if ctx.offset >= |ctx.buffer| { return TruncatedInput; }
    ctx.opcode := ctx.buffer[ctx.offset];
    ctx.offset := ctx.offset + 1;
    return Success;
  }

  /** The implied prefix of the pp field. */
  method ApplyPP(ctx: DecodeContext)
    modifies ctx`legacy
    ensures ctx.legacy == S.ApplyPP(old(ctx.legacy), ctx.vex.pp)
  {
    if ctx.vex.pp == 1 {
      ctx.legacy := ctx.legacy.(operandSize := true);
    } else if ctx.vex.pp == 2 {
      ctx.legacy := ctx.legacy.(rep := true);
    } else if ctx.vex.pp == 3 {
      ctx.legacy := ctx.legacy.(repne := true);
    }
  }

  /** C5 and its payload byte. */
  method DecodeVex2(ctx: DecodeContext, b1: byte)
    modifies ctx`offset, ctx`prefixCount, ctx`rex, ctx`vex, ctx`legacy
    ensures ctx.View() == S.DecodeVex2(old(ctx.View()), b1)
  {
    ctx.offset, ctx.prefixCount := ctx.offset + 2, ctx.prefixCount + 2;
    ctx.rex := S.Rex(true, ctx.rex.w, b1 / 128 == 0, false, false);
    ctx.vex := S.Vex(true, b1 / 4 % 2, b1 % 4, 1, S.InvertedVvvv(b1), false);
    ApplyPP(ctx);
  }

  /** C4 and its two payload bytes. */
  method DecodeVex3(ctx: DecodeContext, b1: byte, b2: byte) returns (st: Status)
    modifies ctx`offset, ctx`prefixCount, ctx`rex, ctx`vex, ctx`legacy
    ensures Matches(st, ctx.View(), S.DecodeVex3(old(ctx.View()), b1, b2))
  {
    hide S.InvertedRex, S.InvertedVvvv;
    ctx.offset, ctx.prefixCount := ctx.offset + 3, ctx.prefixCount + 3;
    ctx.vex := ctx.vex.(present := true, mmmmm := b1 % 32);
    if ctx.vex.mmmmm == 0 || ctx.vex.mmmmm > 3 { return InvalidPrefix; }
    ctx.rex := S.InvertedRex(b1, b2 / 128 == 1);
    ctx.vex := ctx.vex.(w := b2 / 128 == 1, vvvv := S.InvertedVvvv(b2), l := b2 / 4 % 2, pp := b2 % 4);
    ApplyPP(ctx);
    return Success;
  }

  method DecodeVEX(mode: MachineMode, ctx: DecodeContext) returns (st: Status)
    modifies ctx`offset, ctx`prefixCount, ctx`rex, ctx`vex, ctx`legacy
    ensures Matches(st, ctx.View(), S.DecodeVEX(mode, ctx.buffer, old(ctx.View())))
  {
    hide S.DecodeVex2, S.DecodeVex3;
    if ctx.offset >= |ctx.buffer| { return TruncatedInput; }
    var lead := ctx.buffer[ctx.offset];
    if lead == 0xC5 {
      if ctx.offset + 1 >= |ctx.buffer| { return TruncatedInput; }
      var b1 := ctx.buffer[ctx.offset + 1];
      if mode != Long64 && b1 / 64 != 3 { return Success; }
      DecodeVex2(ctx, b1);
      return Success;
    }
    if lead == 0xC4 {
      if ctx.offset + 2 >= |ctx.buffer| { return TruncatedInput; }
      var b1, b2 := ctx.buffer[ctx.offset + 1], ctx.buffer[ctx.offset + 2];
      if mode != Long64 && b1 / 64 != 3 { return Success; }
      st := DecodeVex3(ctx, b1, b2);
      return;
    }
    return Success;
  }

  /** The three payload bytes after 62. */
  method DecodeEvexPayload(ctx: DecodeContext, p1: byte, p2: byte, p3: byte) returns (st: Status)
    modifies ctx`offset, ctx`prefixCount, ctx`rex, ctx`vex, ctx`evex, ctx`legacy
    ensures Matches(st, ctx.View(), S.DecodeEvexPayload(old(ctx.View()), p1, p2, p3))
  {
    hide S.InvertedRex, S.InvertedVvvv, S.EvexFields;
    ctx.offset, ctx.prefixCount := ctx.offset + 4, ctx.prefixCount + 4;
    ctx.rex := S.InvertedRex(p1, p2 / 128 == 1);
    ctx.vex := ctx.vex.(mmmmm := p1 % 4, w := p2 / 128 == 1, vvvv := S.InvertedVvvv(p2), pp := p2 % 4);
    ctx.evex := S.EvexFields(p1, p3);
    ApplyPP(ctx);
    if ctx.vex.mmmmm == 0 || ctx.vex.mmmmm > 3 { return InvalidPrefix; }
    return Success;
  }

  method DecodeEVEX(mode: MachineMode, ctx: DecodeContext) returns (st: Status)
    modifies ctx`offset, ctx`prefixCount, ctx`rex, ctx`vex, ctx`evex, ctx`legacy
    ensures Matches(st, ctx.View(), S.DecodeEVEX(mode, ctx.buffer, old(ctx.View())))
  {
    hide S.DecodeEvexPayload;
    if ctx.offset + 3 >= |ctx.buffer| { return TruncatedInput; }
    var p1, p2, p3 := ctx.buffer[ctx.offset + 1], ctx.buffer[ctx.offset + 2], ctx.buffer[ctx.offset + 3];
    if mode != Long64 {
      if p1 / 4 % 4 != 0 || p2 / 4 % 2 == 0 { return Success; }
    }
    st := DecodeEvexPayload(ctx, p1, p2, p3);
  }

  /** The opcode byte after VEX or EVEX. */
  method VectorOpcode(ctx: DecodeContext) returns (st: Status)
    modifies ctx`offset, ctx`opcode, ctx`opcodeMap
    ensures Matches(st, ctx.View(), S.VectorOpcode(ctx.buffer, old(ctx.View())))
  {
    if ctx.offset >= |ctx.buffer| { return TruncatedInput; }
    ctx.opcode := ctx.buffer[ctx.offset];
    ctx.offset := ctx.offset + 1;
    if ctx.vex.mmmmm != 1 && ctx.vex.mmmmm != 2 && ctx.vex.mmmmm != 3 { return InvalidPrefix; }
    ctx.opcodeMap := ctx.vex.mmmmm;
    return Success;
  }

  method DecodeOpcode(ctx: DecodeContext) returns (st: Status)
    modifies ctx`offset, ctx`opcode, ctx`opcodeMap
    ensures Matches(st, ctx.View(), S.DecodeOpcode(ctx.buffer, old(ctx.View())))
  {
    if ctx.offset >= |ctx.buffer| { return TruncatedInput; }
    var b := ctx.buffer[ctx.offset];
    ctx.offset := ctx.offset + 1;
    if b != 0x0F {
      ctx.opcodeMap, ctx.opcode := 0, b;
      return Success;
    }
    if ctx.offset >= |ctx.buffer| { return TruncatedInput; }
    b := ctx.buffer[ctx.offset];
    if b == 0x38 || b == 0x3A {
      ctx.offset := ctx.offset + 1;
      if ctx.offset >= |ctx.buffer| { return TruncatedInput; }
      ctx.opcodeMap := if b == 0x38 then 2 else 3;
      ctx.opcode := ctx.buffer[ctx.offset];
      ctx.offset := ctx.offset + 1;
      return Success;
    }
    ctx.opcodeMap, ctx.opcode, ctx.offset := 1, b, ctx.offset + 1;
    return Success;
  }

  /** Phases 1a to 2, in the order the pipeline tries them. */
  method DecodeHead(mode: MachineMode, ctx: DecodeContext) returns (st: Status)
    requires !ctx.vex.present && !ctx.evex.present
    modifies ctx`offset, ctx`prefixCount, ctx`rex, ctx`rex2, ctx`vex, ctx`evex, ctx`legacy, ctx`opcode, ctx`opcodeMap
    ensures Matches(st, ctx.View(), S.DecodeHead(mode, ctx.buffer, old(ctx.View())))
  {
    hide S.DecodeRex2, S.DecodeVEX, S.DecodeEVEX, S.DecodeOpcode, S.VectorOpcode;
    if ctx.offset < |ctx.buffer| && ctx.buffer[ctx.offset] == 0xD5 {
      st := DecodeRex2(ctx);
      return;
    }
    if ctx.offset < |ctx.buffer| && (ctx.buffer[ctx.offset] == 0xC5 || ctx.buffer[ctx.offset] == 0xC4) {
      VexUnchanged(mode, ctx.buffer, ctx.View());
      st := DecodeVEX(mode, ctx);
      if st != Success { return; }
      if ctx.vex.present {
        st := VectorOpcode(ctx);
        return;
      }
    }
    if ctx.offset < |ctx.buffer| && ctx.buffer[ctx.offset] == 0x62 {
      st := DecodeEVEX(mode, ctx);
      if st != Success { return; }
      if ctx.evex.present {
        st := VectorOpcode(ctx);
        return;
      }
    }
    st := DecodeOpcode(ctx);
  }

  /** Bytes that are no VEX prefix leave the context alone. */
  lemma VexUnchanged(mode: MachineMode, buf: seq<byte>, c: Context)
    requires !c.vex.present
    ensures S.DecodeVEX(mode, buf, c).Ok? && !S.DecodeVEX(mode, buf, c).value.vex.present ==>
              S.DecodeVEX(mode, buf, c) == S.Ok(c)
  {
  }

  method ResolveEffectiveSizes(mode: MachineMode, ctx: DecodeContext)
    modifies ctx`operandWidth, ctx`addressWidth
    ensures ctx.View() == S.ResolveEffectiveSizes(mode, old(ctx.View()))
  {
    match mode
    case Long64 =>
      if ctx.rex.w || ctx.vex.w {
        ctx.operandWidth := 64;
      } else if ctx.legacy.operandSize && !ctx.vex.present && !ctx.evex.present {
        ctx.operandWidth := 16;
      } else {
        ctx.operandWidth := 32;
      }
      ctx.addressWidth := if ctx.legacy.addressSize then 32 else 64;
    case LongCompat32 =>
      ctx.operandWidth := if ctx.legacy.operandSize then 16 else 32;
      ctx.addressWidth := if ctx.legacy.addressSize then 16 else 32;
    case Legacy32 =>
      ctx.operandWidth := if ctx.legacy.operandSize then 16 else 32;
      ctx.addressWidth := if ctx.legacy.addressSize then 16 else 32;
    case Real16 =>
      ctx.operandWidth := if ctx.legacy.operandSize then 32 else 16;
      ctx.addressWidth := if ctx.legacy.addressSize then 32 else 16;
  }

  method DecodeModRM(ctx: DecodeContext) returns (st: Status)
    modifies ctx`offset, ctx`modrm, ctx`hasModRM, ctx`opcodeExt
    ensures Matches(st, ctx.View(), S.DecodeModRM(ctx.buffer, old(ctx.View())))
  {
    if ctx.offset >= |ctx.buffer| { return TruncatedInput; }
    ctx.modrm := ctx.buffer[ctx.offset];
    ctx.offset := ctx.offset + 1;
    ctx.hasModRM := true;
    ctx.opcodeExt := S.Mid3(ctx.modrm);
    return Success;
  }

  method DecodeSIB(ctx: DecodeContext) returns (st: Status)
    modifies ctx`offset, ctx`sib, ctx`hasSIB
    ensures Matches(st, ctx.View(), S.DecodeSIB(ctx.buffer, old(ctx.View())))
  {
    if ctx.offset >= |ctx.buffer| { return TruncatedInput; }
    ctx.sib := ctx.buffer[ctx.offset];
    ctx.offset := ctx.offset + 1;
    ctx.hasSIB := true;
    return Success;
  }

  /** Phases 3 and 4. */
  method DecodeAddressing(ctx: DecodeContext) returns (st: Status)
    modifies ctx`offset, ctx`modrm, ctx`sib, ctx`hasModRM, ctx`hasSIB, ctx`opcodeExt
    ensures Matches(st, ctx.View(), S.DecodeAddressing(ctx.buffer, old(ctx.View())))
  {
    hide S.OpcodeRequiresModRM, S.DecodeModRM, S.DecodeSIB;
    if S.OpcodeRequiresModRM(ctx.opcodeMap, ctx.opcode) {
      st := DecodeModRM(ctx);
      if st != Success { return; }
      if S.High2(ctx.modrm) != 3 && S.Low3(ctx.modrm) == 4 && ctx.addressWidth != 16 {
        st := DecodeSIB(ctx);
        return;
      }
    }
    return Success;
  }

  method DecodeDisplacement(ctx: DecodeContext, size: nat) returns (st: Status, disp: int)
    modifies ctx`offset
    ensures var r := S.ReadDisplacement(ctx.buffer, old(ctx.offset), size);
      if size == 0 then st == InvalidModRM
      else if r.Ok? then st == Success && disp == r.value && ctx.offset == old(ctx.offset) + size
      else st == r.status
  {
    disp := 0;
    if size != 1 && size != 2 && size != 4 { return InvalidModRM, 0; }
    if ctx.offset + size > |ctx.buffer| { return TruncatedInput, 0; }
    var v := S.LittleEndian(ctx.buffer, ctx.offset, size);
    disp := if size == 1 then S.SignExtend8(v) else if size == 2 then S.SignExtend16(v) else S.SignExtend32(v);
    ctx.offset := ctx.offset + size;
    st := Success;
  }

  method DecodeImmediate(ctx: DecodeContext, size: nat) returns (st: Status, imm: int)
    modifies ctx`offset
    ensures var r := S.ReadImmediate(ctx.buffer, old(ctx.offset), size);
      if size == 0 then st == InvalidOpcode
      else if r.Ok? then st == Success && imm == r.value && ctx.offset == old(ctx.offset) + size
      else st == r.status
  {
    imm := 0;
    if size != 1 && size != 2 && size != 3 && size != 4 && size != 8 { return InvalidOpcode, 0; }
    if ctx.offset + size > |ctx.buffer| { return TruncatedInput, 0; }
    var v := S.LittleEndian(ctx.buffer, ctx.offset, size);
    imm := if size == 1 then S.SignExtend8(v) else if size == 2 then S.SignExtend16(v)
           else if size == 3 then v else if size == 4 then S.SignExtend32(v) else S.SignExtend64(v);
    ctx.offset := ctx.offset + size;
    st := Success;
  }

  /** What a phase sequence that ends in a Streamed result promises. */
  ghost predicate Streams(st: Status, after: Context, immediate: int, r: S.Result<S.Streamed>) {
    if r.Ok? then st == Success && after == r.value.ctx && immediate == r.value.immediate
    else st == r.status != Success
  }

  /** Phases 5 and 6. */
  method DecodeTail(ctx: DecodeContext) returns (st: Status, immediate: int)
    modifies ctx`offset
    ensures Streams(st, ctx.View(), immediate, S.DecodeTail(ctx.buffer, old(ctx.View())))
  {
    hide S.ReadDisplacement, S.ReadImmediate, S.DisplacementSize, S.ImmediateSize;
    ghost var before := ctx.View();
    immediate := 0;
    FailuresAreNotSuccess(ctx.buffer, ctx.offset, S.DisplacementSize(ctx.View()), S.ImmediateSize(ctx.View()));
    SizesIgnoreOffset(before, ctx.offset + S.DisplacementSize(before));
    var dispSize := S.DisplacementSize(ctx.View());
    if dispSize > 0 {
      var disp;
      st, disp := DecodeDisplacement(ctx, dispSize);
      if st != Success { return; }
    }
    assert ctx.View() == before.(offset := before.offset + dispSize);
    var immSize := S.ImmediateSize(ctx.View());
    st := Success;
    if immSize > 0 {
      st, immediate := DecodeImmediate(ctx, immSize);
    }
  }

  lemma SizesIgnoreOffset(c: Context, off: nat)
    ensures S.DisplacementSize(c.(offset := off)) == S.DisplacementSize(c)
    ensures S.ImmediateSize(c.(offset := off)) == S.ImmediateSize(c)
  {
  }

  lemma FailuresAreNotSuccess(buf: seq<byte>, off: nat, d: nat, i: nat)
    ensures S.ReadDisplacement(buf, off, 0) == S.Ok(0) && S.ReadImmediate(buf, off + d, 0) == S.Ok(0)
    ensures S.ReadDisplacement(buf, off, d).Err? ==> S.ReadDisplacement(buf, off, d).status != Success
    ensures S.ReadImmediate(buf, off + d, i).Err? ==> S.ReadImmediate(buf, off + d, i).status != Success
  {
  }

  /** All phases and the length limit, on a freshly reset context. */
  method RunPhases(mode: MachineMode, ctx: DecodeContext) returns (st: Status, immediate: int)
    requires ctx.View() == S.RESET
    modifies ctx
    ensures ctx.buffer == old(ctx.buffer)
    ensures Streams(st, ctx.View(), immediate, S.Decode(mode, ctx.buffer))
  {
    hide S.Drive, S.ScanPrefixes, S.DecodeHead, S.DecodeAddressing, S.DecodeTail, S.ResolveEffectiveSizes;
    ghost var buf := ctx.buffer;
    S.DecodeUnfolds(mode, buf);
    immediate := 0;
    PrefixesAdvance(mode, buf, S.RESET);
    st := DecodePrefixes(mode, ctx);
    if st != Success { return; }
    st := DecodeHead(mode, ctx);
    if st != Success { return; }
    ResolveEffectiveSizes(mode, ctx);
    st := DecodeAddressing(ctx);
    if st != Success { return; }
    st, immediate := DecodeTail(ctx);
    if st != Success { return; }
    if ctx.offset > MAX_INSTRUCTION_LENGTH {
      st := InstructionTooLong;
    }
  }

  /** The decoder: a machine mode, and whether Init() has set it. */
  class Decoder {
    const tables: Tables
    var mode: MachineMode
    var initialized: bool

    constructor (tables: Tables)
      ensures this.tables == tables && mode == Long64 && !initialized
    {
      this.tables := tables;
      mode, initialized := Long64, false;
    }

    method Init(m: MachineMode) returns (st: Status)
      modifies this
      ensures st == Success && mode == m && initialized
    {
      mode, initialized := m, true;
      st := Success;
    }

    /** Decodes one instruction. A refused call leaves the caller's record and operands alone; a
        failed decode clears them; a successful one fills them as the function DecodeFull says. */
    method DecodeFull(buffer: seq<byte>, before: Instruction, operands: array<Operand>)
      returns (status: Status, instruction: Instruction)
      requires operands.Length == MAX_OPERANDS
      modifies operands
      ensures |buffer| == 0 ==> status == InvalidInput
      ensures |buffer| > 0 && !initialized ==> status == InternalError
      ensures |buffer| == 0 || !initialized ==> instruction == before && operands[..] == old(operands[..])
      ensures |buffer| > 0 && initialized ==>
        match Full.DecodeFull(tables, mode, buffer)
        case Ok(d) => status == Success && instruction == d.instruction
                      && Holds(operands, instruction.operandCount, d.operands)
        case Err(e) => status == e != Success && instruction == CLEARED && Cleared(operands)
    {
      hide S.Drive, OperandList, Reread;
      if |buffer| == 0 { return InvalidInput, before; }
      if !initialized { return InternalError, before; }
      instruction := CLEARED;
      for i := 0 to MAX_OPERANDS
        invariant forall k :: 0 <= k < i ==> operands[k] == NoOperand
      {
        operands[i] := NoOperand;
      }
      assert Cleared(operands);
      var ctx := new DecodeContext(buffer);
      var immediate;
      status, immediate := RunPhases(mode, ctx);
      if status != Success { return; }
      AcceptedWidth(mode, buffer);
      LengthBound(mode, buffer);
      var c := ctx.View();
      var count := BuildOperands(mode, buffer, c, immediate, operands);
      instruction := InstructionOf(tables, mode, c, RawBytes(buffer, c.offset), count);
    }
  }

  lemma AcceptedWidth(mode: MachineMode, buf: seq<byte>)
    requires S.Decode(mode, buf).Ok?
    ensures S.Decode(mode, buf).value.ctx.addressWidth in {16, 32, 64}
  {
    hide S.Drive;
    var p, h, c, s := Run(mode, buf);
  }
}
