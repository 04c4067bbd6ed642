/** Facts about the context of an accepted instruction, and the displacement that operand
    building reads a second time. */
module Shape {
  import opened Types
  import opened Stream
  import opened Operands
  import opened Locality

  /** Opcode bytes of the legacy escapes. */
  function EscapeLength(opcodeMap: nat): nat {
    if opcodeMap == 0 then 1 else if opcodeMap == 1 then 2 else 3
  }

  /** The prefixes the context counts and the bytes up to the end of the opcode. */
  ghost predicate HeadShape(h: Context) {
    && h.opcodeMap <= 3
    && (h.rex2.present ==> !h.vex.present && !h.evex.present && h.opcodeMap <= 1)
    && !(h.vex.present && h.evex.present)
    && (h.vex.present || h.evex.present ==> h.opcodeMap == h.vex.mmmmm)
    && h.offset == h.prefixCount + if h.rex2.present then 3
                                   else if h.vex.present || h.evex.present then 1
                                   else EscapeLength(h.opcodeMap)
  }

  /** What the head leaves alone; a legacy head counts no further prefix and keeps REX. */
  ghost predicate HeadKeeps(c: Context, h: Context) {
    && c.offset < h.offset
    && c.prefixCount <= h.prefixCount
    && (!h.vex.present && !h.evex.present ==> h.prefixCount == c.prefixCount && h.legacy == c.legacy)
    && (!h.vex.present && !h.evex.present && !h.rex2.present ==> h.rex == c.rex)
    && h.legacy.hasSegment == c.legacy.hasSegment && h.legacy.segment == c.legacy.segment
  }

  lemma VectorHeadShape(mode: MachineMode, buf: seq<byte>, c: Context)
    requires c == RESET.(offset := c.offset, prefixCount := c.offset, legacy := c.legacy, rex := c.rex)
    requires c.offset < |buf| && buf[c.offset] in {0xC5, 0xC4, 0x62}
    requires DecodeHead(mode, buf, c).Ok?
    ensures HeadShape(DecodeHead(mode, buf, c).value)
    ensures HeadKeeps(c, DecodeHead(mode, buf, c).value)
  {
  }

  lemma HeadHasShape(mode: MachineMode, buf: seq<byte>, c: Context)
    requires c == RESET.(offset := c.offset, prefixCount := c.offset, legacy := c.legacy, rex := c.rex)
    requires DecodeHead(mode, buf, c).Ok?
    ensures HeadShape(DecodeHead(mode, buf, c).value)
    ensures HeadKeeps(c, DecodeHead(mode, buf, c).value)
  {
    if c.offset < |buf| && buf[c.offset] in {0xC5, 0xC4, 0x62} {
      VectorHeadShape(mode, buf, c);
    }
  }

  ghost predicate RealSegment(l: Legacy) {
    l.hasSegment ==> l.segment.SegmentRegister?
  }

  lemma PrefixKeepsSegmentReal(l: Legacy, b: byte)
    requires RealSegment(l) && IsLegacyPrefix(b)
    ensures RealSegment(ApplyPrefix(l, b))
  {
  }

  lemma {:induction false} SegmentIsReal(mode: MachineMode, buf: seq<byte>, c: Context)
    requires RealSegment(c.legacy)
    ensures RealSegment(ScanPrefixes(mode, buf, c).legacy)
    decreases MAX_INSTRUCTION_LENGTH - c.offset
  {
    hide RealSegment, ApplyPrefix;
    if c.offset < |buf| && c.offset < MAX_INSTRUCTION_LENGTH {
      var b := buf[c.offset];
      if !IsRex(mode, b) && IsLegacyPrefix(b) {
        PrefixKeepsSegmentReal(c.legacy, b);
        SegmentIsReal(mode, buf, c.(legacy := ApplyPrefix(c.legacy, b),
                                    prefixCount := c.prefixCount + 1, offset := c.offset + 1));
      }
    }
  }

  /** The context after ModRM and SIB. */
  ghost predicate ContextShape(mode: MachineMode, h: Context, c: Context) {
    && c == h.(operandWidth := c.operandWidth, addressWidth := c.addressWidth, modrm := c.modrm, sib := c.sib,
               hasModRM := c.hasModRM, hasSIB := c.hasSIB, opcodeExt := c.opcodeExt, offset := c.offset)
    && c.addressWidth in {16, 32, 64}
    && (c.addressWidth == 64 ==> mode == Long64)
    && (c.addressWidth == 16 ==> mode != Long64)
    && c.operandWidth in {16, 32, 64}
    && c.addressWidth == AddressWidth(mode, h)
    && c.hasModRM == OpcodeRequiresModRM(c.opcodeMap, c.opcode)
    && c.hasSIB == (c.hasModRM && NeedsSIB(c))
    && (c.hasModRM ==> c.opcodeExt == Mid3(c.modrm))
  }

  /** ModRM and SIB are the bytes after the head. */
  ghost predicate AddressingBytes(buf: seq<byte>, h: Context, c: Context) {
    && c.offset == h.offset + (if c.hasModRM then 1 else 0) + (if c.hasSIB then 1 else 0)
    && (c.hasModRM ==> h.offset < |buf| && buf[h.offset] == c.modrm)
    && (c.hasSIB ==> h.offset + 1 < |buf| && buf[h.offset + 1] == c.sib)
  }

  lemma AddressingShape(mode: MachineMode, buf: seq<byte>, h: Context)
    requires !h.hasModRM && !h.hasSIB
    requires DecodeAddressing(buf, ResolveEffectiveSizes(mode, h)).Ok?
    ensures var c := DecodeAddressing(buf, ResolveEffectiveSizes(mode, h)).value;
      ContextShape(mode, h, c) && AddressingBytes(buf, h, c)
  {
  }

  /** Displacement and immediate are the bytes after that, up to the end of the instruction. */
  ghost predicate TailShape(buf: seq<byte>, c: Context, s: Streamed) {
    && s.ctx == c.(offset := s.ctx.offset)
    && DisplacementSize(s.ctx) == DisplacementSize(c)
    && ImmediateSize(s.ctx) == ImmediateSize(c)
    && s.ctx.offset == c.offset + DisplacementSize(c) + ImmediateSize(c)
    && s.ctx.offset <= |buf|
    && ReadDisplacement(buf, c.offset, DisplacementSize(c)) == Ok(s.displacement)
    && ReadImmediate(buf, c.offset + DisplacementSize(c), ImmediateSize(c)) == Ok(s.immediate)
  }

  lemma TailHasShape(buf: seq<byte>, c: Context)
    requires DecodeTail(buf, c).Ok? && c.offset <= |buf|
    ensures TailShape(buf, c, DecodeTail(buf, c).value)
  {
  }

  /** The stages of an accepting run: prefixes p, head h, addressing c, result s. */
  ghost predicate Stages(mode: MachineMode, buf: seq<byte>, p: Context, h: Context, c: Context, s: Streamed) {
    && p == RESET.(offset := p.offset, prefixCount := p.offset, legacy := p.legacy, rex := p.rex)
    && (p.legacy.hasSegment ==> p.legacy.segment.SegmentRegister?)
    && HeadKeeps(p, h)
    && HeadShape(h)
    && ContextShape(mode, h, c)
    && AddressingBytes(buf, h, c)
    && TailShape(buf, c, s)
    && s.ctx.offset <= MAX_INSTRUCTION_LENGTH
  }

  lemma BodyStages(mode: MachineMode, buf: seq<byte>, h: Context)
    requires DecodeBody(mode, buf, h).Ok? && !h.hasModRM && !h.hasSIB && h.offset <= |buf|
    ensures var c := DecodeAddressing(buf, ResolveEffectiveSizes(mode, h));
      c.Ok? && ContextShape(mode, h, c.value) && AddressingBytes(buf, h, c.value)
      && TailShape(buf, c.value, DecodeBody(mode, buf, h).value)
  {
    AddressingShape(mode, buf, h);
    TailHasShape(buf, DecodeAddressing(buf, ResolveEffectiveSizes(mode, h)).value);
  }

  lemma Run(mode: MachineMode, buf: seq<byte>) returns (p: Context, h: Context, c: Context, s: Streamed)
    requires Decode(mode, buf).Ok?
    ensures p == Prefixed(mode, buf) && Decode(mode, buf) == Ok(s)
    ensures DecodeHead(mode, buf, p) == Ok(h)
    ensures Stages(mode, buf, p, h, c, s)
  {
    p, s := Prefixed(mode, buf), Decode(mode, buf).value;
    Accepted(mode, buf);
    h := DecodeHead(mode, buf, p).value;
    assert DecodeBody(mode, buf, h) == Ok(s);
    SegmentIsReal(mode, buf, RESET);
    HeadHasShape(mode, buf, p);
    BodyStages(mode, buf, h);
    c := DecodeAddressing(buf, ResolveEffectiveSizes(mode, h)).value;
  }

  // ---------------------------------------------------------------- the second reading

  /** Where the streamed displacement starts. */
  function DisplacementStart(c: Context): int {
    c.offset - ImmediateSize(c) - DisplacementSize(c)
  }

  /** Exactly when the second reading takes the bytes the stream consumed: no REX2 before a
      displacement, and in 16-bit addressing neither mod 2 nor the form mod 0, rm 5. */
  predicate RereadsStream(c: Context) {
    && !(c.rex2.present && DisplacementSize(c) > 0)
    && !(c.addressWidth == 16 && (High2(c.modrm) == 2 || (High2(c.modrm) == 0 && Low3(c.modrm) == 5)))
  }

  /** Reading the same window gives the same value. */
  lemma RereadValue(buf: seq<byte>, c: Context, off: nat, disp: int)
    requires RereadSize(c) == DisplacementSize(c)
    requires RereadSize(c) > 0 ==> RereadOffset(c) == off
    requires ReadDisplacement(buf, off, DisplacementSize(c)) == Ok(disp)
    ensures Reread(buf, c) == disp
  {
  }

  lemma RereadExactAt(mode: MachineMode, buf: seq<byte>, p: Context, h: Context, c: Context, s: Streamed)
    requires Stages(mode, buf, p, h, c, s) && c.hasModRM
    ensures RereadsStream(s.ctx) <==>
      RereadSize(s.ctx) == DisplacementSize(s.ctx)
      && (RereadSize(s.ctx) > 0 ==> RereadOffset(s.ctx) == DisplacementStart(s.ctx))
    ensures RereadsStream(s.ctx) ==> Reread(buf, s.ctx) == s.displacement
  {
    if RereadsStream(s.ctx) {
      RereadValue(buf, s.ctx, c.offset, s.displacement);
    }
  }

  lemma RereadExact(mode: MachineMode, buf: seq<byte>)
    requires Decode(mode, buf).Ok? && Decode(mode, buf).value.ctx.hasModRM
    ensures var c := Decode(mode, buf).value.ctx;
      RereadsStream(c) <==>
      RereadSize(c) == DisplacementSize(c) && (RereadSize(c) > 0 ==> RereadOffset(c) == DisplacementStart(c))
    ensures var s := Decode(mode, buf).value;
      RereadsStream(s.ctx) ==> Reread(buf, s.ctx) == s.displacement
  {
    var p, h, c, s := Run(mode, buf);
    RereadExactAt(mode, buf, p, h, c, s);
  }

  /** With 32- and 64-bit addresses the window lies inside the instruction, REX2 included, and it
      never touches the legacy prefixes. */
  lemma RereadInside(mode: MachineMode, buf: seq<byte>, p: Context, h: Context, c: Context, s: Streamed)
    requires Stages(mode, buf, p, h, c, s) && c.hasModRM
    ensures RereadOffset(s.ctx) >= p.offset
    ensures s.ctx.addressWidth != 16 ==> RereadOffset(s.ctx) + RereadSize(s.ctx) <= s.ctx.offset
  {
  }
}
