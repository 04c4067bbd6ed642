/** What every field of the instruction record, and the segment of every memory operand, is in
    terms of the input bytes. */
module Record {
  import opened Types
  import opened Stream
  import opened Operands
  import opened Locality
  import opened Shape
  import opened Full
  import opened Prefixes
  import opened OpcodeMap
  import opened Raw
  import opened Notation
  import opened Address

  /** The legacy prefixes of an input. */
  function LegacyRun(buf: seq<byte>): seq<byte> {
    if LegacyEnd(buf, 0) <= |buf| then buf[..LegacyEnd(buf, 0)] else []
  }

  /** Where the byte after all prefixes stands. */
  function LeadAt(mode: MachineMode, buf: seq<byte>): nat {
    LegacyEnd(buf, 0) + if RexAt(mode, buf, LegacyEnd(buf, 0)) then 1 else 0
  }

  function LeadIn(mode: MachineMode, buf: seq<byte>): Lead { LeadOf(mode, buf, LeadAt(mode, buf)) }

  /** pp of VEX or EVEX; zero without them. */
  function PpIn(mode: MachineMode, buf: seq<byte>): nat { PpOf(LeadIn(mode, buf), buf, LeadAt(mode, buf)) }

  function MapIn(mode: MachineMode, buf: seq<byte>): nat { MapOf(LeadIn(mode, buf), buf, LeadAt(mode, buf)) }

  function OpcodeIn(mode: MachineMode, buf: seq<byte>): nat {
    OpcodeAt(LeadIn(mode, buf), MapIn(mode, buf), LeadAt(mode, buf))
  }

  function EntryIn(mode: MachineMode, buf: seq<byte>): char { Entry(MapIn(mode, buf), At(buf, OpcodeIn(mode, buf))) }

  /** The bit W: of REX2, VEX or EVEX, or of a REX byte. */
  predicate WIn(mode: MachineMode, buf: seq<byte>) {
    var k := LeadAt(mode, buf);
    match LeadIn(mode, buf)
    case Rex2Lead => Bit(At(buf, k + 1), 128)
    case Vex3Lead => Bit(At(buf, k + 2), 128)
    case EvexLead => Bit(At(buf, k + 2), 128)
    case _ => RexAt(mode, buf, LegacyEnd(buf, 0)) && Bit(At(buf, LegacyEnd(buf, 0)), 8)
  }

  // ---------------------------------------------------------------- attributes

  /** Every attribute bit. */
  ghost predicate AttributesMatch(a: Attributes, mode: MachineMode, buf: seq<byte>) {
    var run, lead, pp := LegacyRun(buf), LeadIn(mode, buf), PpIn(mode, buf);
    && (a.lock <==> 0xF0 in run)
    && (a.rep <==> 0xF3 in run || pp == 2)
    && !a.repe
    && (a.repne <==> 0xF2 in run || pp == 3)
    && (a.operandSize <==> 0x66 in run || pp == 1)
    && (a.addressSize <==> 0x67 in run)
    && (a.segmentOverride <==> exists b: byte :: b in run && b in SEGMENT_OF)
    && (a.rex <==> RexAt(mode, buf, LegacyEnd(buf, 0)) || lead != PlainLead)
    && (a.rex2 <==> lead == Rex2Lead)
    && (a.vex <==> lead == Vex2Lead || lead == Vex3Lead)
    && (a.evex <==> lead == EvexLead)
    && (a.modrm <==> TakesModRM(EntryIn(mode, buf)))
    && (a.sib <==> a.modrm && SibFollows(AddressOf(mode, 0x67 in run) == 16, At(buf, OpcodeIn(mode, buf) + 1)))
  }

  lemma {:induction false} HasSegment(run: seq<byte>)
    ensures LastSegment(run) != NoRegister <==> exists b: byte :: b in run && b in SEGMENT_OF
  {
    if run != [] {
      HasSegment(run[1..]);
      assert run == [run[0]] + run[1..];
      if LastSegment(run) == NoRegister {
        assert forall b: byte :: b in run ==> b == run[0] || b in run[1..];
      }
    }
  }

  /** The context of the reference after the opcode. */
  function HeadIn(mode: MachineMode, buf: seq<byte>): Context { RawHead(mode, buf, RawPrefixes(mode, buf)) }

  lemma VerdictIs(mode: MachineMode, buf: seq<byte>)
    requires Verdict(mode, buf).Ok?
    ensures Verdict(mode, buf).value == RawBody(mode, buf, HeadIn(mode, buf)) && HeadIn(mode, buf).opcodeMap <= 3
  {
    hide RawBody, RawPrefixes, Bit;
  }

  lemma HeadParts(mode: MachineMode, buf: seq<byte>)
    ensures var h, run, k, lead := HeadIn(mode, buf), LegacyRun(buf), LeadAt(mode, buf), LeadIn(mode, buf);
      && h.offset == OpcodeIn(mode, buf) + 1
      && h.legacy == WithPp(Meaning(NO_LEGACY, run), PpIn(mode, buf))
      && (h.rex.present <==> RexAt(mode, buf, LegacyEnd(buf, 0)) || lead != PlainLead)
      && ((h.rex.w || h.vex.w) <==> WIn(mode, buf))
      && h.rex2 == Rex2Of(lead, buf, k) && h.vex == VexOf(lead, buf, k) && h.evex == EvexOf(lead, buf, k)
      && h.opcodeMap == MapIn(mode, buf) && h.opcode == At(buf, OpcodeIn(mode, buf))
  {
    hide Meaning, Bit;
  }

  lemma BodyParts(mode: MachineMode, buf: seq<byte>, h: Context)
    ensures var c, m := RawBody(mode, buf, h), h.offset;
      && c.legacy == h.legacy && c.rex == h.rex && c.rex2 == h.rex2 && c.vex == h.vex && c.evex == h.evex
      && c.opcodeMap == h.opcodeMap && c.opcode == h.opcode
      && c.operandWidth == WidthOf(mode, c.rex.w || c.vex.w, c.legacy.operandSize, c.vex.present || c.evex.present)
      && c.addressWidth == AddressOf(mode, c.legacy.addressSize)
      && c.hasModRM == TakesModRM(Entry(c.opcodeMap, c.opcode))
      && c.modrm == (if c.hasModRM then At(buf, m) else 0)
      && c.opcodeExt == c.modrm / 8 % 8
      && c.hasSIB == (c.hasModRM && SibFollows(c.addressWidth == 16, c.modrm))
      && c.sib == (if c.hasSIB then At(buf, m + 1) else 0)
  {
    hide Entry, ImmediateBytes, FormTail, TakesModRM, WidthOf, AddressOf, SibFollows;
  }

  /** The parts of the reference context that the record shows. */
  lemma ContextParts(mode: MachineMode, buf: seq<byte>)
    requires Verdict(mode, buf).Ok?
    ensures var c, run, k, lead := Verdict(mode, buf).value, LegacyRun(buf), LeadAt(mode, buf), LeadIn(mode, buf);
      && c.legacy == WithPp(Meaning(NO_LEGACY, run), PpIn(mode, buf))
      && (c.rex.present <==> RexAt(mode, buf, LegacyEnd(buf, 0)) || lead != PlainLead)
      && ((c.rex.w || c.vex.w) <==> WIn(mode, buf))
      && c.rex2 == Rex2Of(lead, buf, k) && c.vex == VexOf(lead, buf, k) && c.evex == EvexOf(lead, buf, k)
      && c.opcodeMap == MapIn(mode, buf) <= 3 && c.opcode == At(buf, OpcodeIn(mode, buf))
  {
    hide Verdict, RawBody, HeadIn, WithPp, Meaning, PpIn, LegacyRun, WIn, LeadIn, LeadAt, LegacyEnd, RexAt, Rex2Of, VexOf, EvexOf,
         MapIn, OpcodeIn, WidthOf, AddressOf, SibFollows, TakesModRM, Entry;
    VerdictIs(mode, buf);
    HeadParts(mode, buf);
    BodyParts(mode, buf, HeadIn(mode, buf));
  }

  lemma ContextAddressing(mode: MachineMode, buf: seq<byte>)
    requires Verdict(mode, buf).Ok?
    ensures var c, m := Verdict(mode, buf).value, OpcodeIn(mode, buf) + 1;
      && c.operandWidth == WidthOf(mode, c.rex.w || c.vex.w, c.legacy.operandSize, c.vex.present || c.evex.present)
      && c.addressWidth == AddressOf(mode, c.legacy.addressSize)
      && c.hasModRM == TakesModRM(EntryIn(mode, buf))
      && c.modrm == (if c.hasModRM then At(buf, m) else 0)
      && c.opcodeExt == c.modrm / 8 % 8
      && c.hasSIB == (c.hasModRM && SibFollows(c.addressWidth == 16, c.modrm))
      && c.sib == (if c.hasSIB then At(buf, m + 1) else 0)
  {
    hide Verdict, RawBody, HeadIn, WithPp, Meaning, PpIn, LegacyRun, WIn, LeadIn, LeadAt, LegacyEnd, RexAt, Rex2Of, VexOf, EvexOf,
         MapIn, OpcodeIn, WidthOf, AddressOf, SibFollows, TakesModRM, Entry;
    VerdictIs(mode, buf);
    HeadParts(mode, buf);
    BodyParts(mode, buf, HeadIn(mode, buf));
  }

  /** The fields of VEX and EVEX, and nothing without them. */
  ghost predicate EncodingMatches(e: VectorEncoding, mode: MachineMode, buf: seq<byte>) {
    var k, lead := LeadAt(mode, buf), LeadIn(mode, buf);
    if !IsVector(lead) then e == VectorEncoding(false, false, 0, 0, 0, false, 0, 0, 0, 0)
    else
      var b := At(buf, if lead == Vex2Lead then k + 1 else k + 2);
      && e.hasEvex == (lead == EvexLead) && e.hasVex == (lead != EvexLead)
      && e.l == (if lead != EvexLead && Bit(b, 4) then 1 else 0)
      && e.pp == b % 4 && e.vvvv == 15 - b / 8 % 16
      && e.w == (lead != Vex2Lead && Bit(b, 128))
      && (if lead != EvexLead then e.z == e.ll == e.b == e.aaa == 0
          else
            var p3 := At(buf, k + 3);
            e.z == p3 / 128 && e.ll == p3 / 32 % 4 && e.b == p3 / 16 % 2 && e.aaa == p3 % 8)
  }

  lemma AttributesExact(mode: MachineMode, buf: seq<byte>)
    requires Verdict(mode, buf).Ok?
    ensures AttributesMatch(AttributesOf(Verdict(mode, buf).value), mode, buf)
  {
    hide Verdict, LastSegment, VexOf, EvexOf, Rex2Of, LegacyRun, PpIn, EntryIn, OpcodeIn, RexAt, LegacyEnd, TakesModRM,
         SibFollows, IsRelativeBranch;
    ContextParts(mode, buf);
    ContextAddressing(mode, buf);
    HasSegment(LegacyRun(buf));
    LeadFlags(LeadIn(mode, buf), buf, LeadAt(mode, buf));
  }

  lemma LeadFlags(lead: Lead, buf: seq<byte>, k: nat)
    ensures Rex2Of(lead, buf, k).present <==> lead == Rex2Lead
    ensures VexOf(lead, buf, k).present <==> lead == Vex2Lead || lead == Vex3Lead
    ensures EvexOf(lead, buf, k).present <==> lead == EvexLead
  {
  }

  lemma EncodingExact(mode: MachineMode, buf: seq<byte>)
    requires Verdict(mode, buf).Ok?
    ensures EncodingMatches(EncodingOf(Verdict(mode, buf).value), mode, buf)
  {
    hide Verdict, LegacyRun, PpIn, EntryIn, OpcodeIn, RexAt, LegacyEnd, Bit, LeadIn, LeadAt, MapIn, WithPp, Meaning, WIn;
    ContextParts(mode, buf);
  }

  // ---------------------------------------------------------------- the record

  /** Length and raw bytes: the instruction, and zeros after it. */
  ghost predicate BytesMatch(inst: Instruction, buf: seq<byte>, length: nat) {
    && inst.length == length <= |buf| && length <= MAX_INSTRUCTION_LENGTH
    && |inst.rawBytes| == MAX_INSTRUCTION_LENGTH
    && inst.rawBytes[..length] == buf[..length]
    && forall i :: length <= i < MAX_INSTRUCTION_LENGTH ==> inst.rawBytes[i] == 0
  }

  /** Opcode, ModRM, SIB, widths and segment override. */
  ghost predicate FieldsMatch(inst: Instruction, mode: MachineMode, buf: seq<byte>) {
    var run, o := LegacyRun(buf), OpcodeIn(mode, buf);
    && inst.opcodeMap == MapIn(mode, buf) && inst.opcode == At(buf, o)
    && inst.hasModRM == inst.attributes.modrm && inst.hasSIB == inst.attributes.sib
    && inst.modrm == (if inst.hasModRM then At(buf, o + 1) else 0)
    && inst.opcodeExt == inst.modrm / 8 % 8
    && inst.sib == (if inst.hasSIB then At(buf, o + 2) else 0)
    && inst.operandWidth == WidthOf(mode, WIn(mode, buf), inst.attributes.operandSize, IsVector(LeadIn(mode, buf)))
    && inst.addressWidth == AddressOf(mode, 0x67 in run)
    && inst.segmentOverride == LastSegment(run)
  }

  /** Every field of the record. */
  ghost predicate RecordMatches(tables: Tables, inst: Instruction, count: nat, mode: MachineMode, buf: seq<byte>, c: Context) {
    && AttributesMatch(inst.attributes, mode, buf)
    && (inst.attributes.relative <==> |Template(c)| == 1 && Template(c)[0].J?)
    && EncodingMatches(inst.encoding, mode, buf)
    && BytesMatch(inst, buf, c.offset)
    && FieldsMatch(inst, mode, buf)
    && inst.operandCount == inst.operandCountVisible == count
    && inst.address == 0
    && inst.mnemonic == tables.mnemonic(mode, c)
    && inst.category == tables.category(inst.mnemonic)
    && inst.isaExtension == tables.isaExtension(c)
  }

  lemma FieldsExact(tables: Tables, mode: MachineMode, buf: seq<byte>, raw: seq<byte>, count: nat)
    requires Verdict(mode, buf).Ok?
    ensures FieldsMatch(InstructionOf(tables, mode, Verdict(mode, buf).value, raw, count), mode, buf)
  {
    hide Verdict, WithPp, Meaning, LastSegment, LegacyRun, OpcodeIn, EntryIn, MapIn, WIn, LeadIn, WidthOf, AddressOf,
         SibFollows, TakesModRM, PpIn, VexOf, EvexOf, Rex2Of, LeadAt, LegacyEnd, RexAt, EncodingOf, IsRelativeBranch;
    ContextParts(mode, buf);
    ContextAddressing(mode, buf);
    SegmentMeaning(LegacyRun(buf), PpIn(mode, buf));
    LeadFlags(LeadIn(mode, buf), buf, LeadAt(mode, buf));
  }

  lemma BytesExact(tables: Tables, mode: MachineMode, buf: seq<byte>, c: Context, count: nat)
    requires c.offset <= |buf| && c.offset <= MAX_INSTRUCTION_LENGTH
    ensures BytesMatch(InstructionOf(tables, mode, c, RawBytes(buf, c.offset), count), buf, c.offset)
  {
    hide EncodingOf, AttributesOf;
    var raw := RawBytes(buf, c.offset);
    assert raw[..c.offset] == buf[..c.offset];
    forall i | c.offset <= i < MAX_INSTRUCTION_LENGTH
      ensures raw[i] == 0
    {
      assert raw[i] == NO_BYTES[i];
    }
  }

  lemma RelativeExact(c: Context)
    requires c.opcodeMap <= 3
    ensures IsRelativeBranch(c) <==> |Template(c)| == 1 && Template(c)[0].J?
  {
  }

  lemma SegmentMeaning(run: seq<byte>, pp: nat)
    ensures var l := WithPp(Meaning(NO_LEGACY, run), pp);
      && l.hasSegment == (LastSegment(run) != NoRegister)
      && (if l.hasSegment then l.segment else NoRegister) == LastSegment(run)
      && l.addressSize == (0x67 in run)
  {
  }

  /** For every accepted input, each field of the record is what the bytes say. */
  lemma RecordExact(tables: Tables, mode: MachineMode, buf: seq<byte>)
    requires DecodeFull(tables, mode, buf).Ok?
    ensures Verdict(mode, buf).Ok?
    ensures var d := DecodeFull(tables, mode, buf).value;
      RecordMatches(tables, d.instruction, |d.operands|, mode, buf, Verdict(mode, buf).value)
  {
    hide Drive, Verdict, OperandsOf, AttributesMatch, AttributesOf, EncodingMatches, EncodingOf, FieldsMatch, BytesMatch,
         Template, IsRelativeBranch, RawBytes;
    DecodeExact(mode, buf);
    LengthBound(mode, buf);
    var c, count := Verdict(mode, buf).value, |DecodeFull(tables, mode, buf).value.operands|;
    AttributesExact(mode, buf);
    EncodingExact(mode, buf);
    FieldsExact(tables, mode, buf, RawBytes(buf, c.offset), count);
    BytesExact(tables, mode, buf, c, count);
    ContextParts(mode, buf);
    RelativeExact(c);
    RelativeAttribute(c);
  }

  lemma RelativeAttribute(c: Context)
    ensures AttributesOf(c).relative == IsRelativeBranch(c)
  {
  }

  // ---------------------------------------------------------------- segments and displacements

  /** A form without a base register. */
  predicate IsBare(c: Context) {
    c.modrm < 0x40 && (if c.addressWidth == 16 then c.modrm % 8 == 6 else if c.hasSIB then c.sib % 8 == 5 else c.modrm % 8 == 5)
  }

  function BaseBits(c: Context): nat { if c.addressWidth != 16 && c.hasSIB then c.sib % 8 else c.modrm % 8 }

  /** The segment without an override: SS exactly if the three base bits are 4 or 5. */
  function DefaultFor(c: Context): Segment {
    if !IsBare(c) && (BaseBits(c) == 4 || BaseBits(c) == 5) then SS else DS
  }

  /** The default segment of the manual: SS for bases built on SP and BP. */
  function ManualDefault(c: Context): Segment {
    if IsBare(c) then DS
    else if c.addressWidth == 16 then if c.modrm % 8 in {2, 3, 6} then SS else DS
    else if BaseBits(c) in {4, 5} && !c.rex.b then SS
    else DS
  }

  /** The two agree exactly outside R12 and R13 and the 16-bit forms without BX. */
  lemma DefaultAgreesWithManual(c: Context)
    ensures DefaultFor(c) == ManualDefault(c) <==>
      IsBare(c) || (if c.addressWidth == 16 then c.modrm % 8 in {0, 1, 7} else !(BaseBits(c) in {4, 5} && c.rex.b))
  {
  }

  lemma MemorySegment(c: Context, disp: int)
    requires c.addressWidth in {16, 32, 64} && (c.hasSIB ==> c.addressWidth != 16)
    ensures MemoryOf(c, disp).segment == if c.legacy.hasSegment then c.legacy.segment else SegmentRegister(DefaultFor(c))
    ensures MemoryOf(c, disp).hasDisplacement <==> ShowsDisplacement(c)
  {
    hide BaseRegister, IndexRegister, Scale;
  }

  lemma ShowsExact(c: Context)
    requires c.hasModRM && c.modrm < 0xC0 && c.hasSIB == SibFollows(c.addressWidth == 16, c.modrm)
    ensures ShowsDisplacement(c) <==> FormTail(c.addressWidth == 16, c.modrm, c.sib) > if c.hasSIB then 1 else 0
  {
  }

  /** Segment and displacement flag of a memory operand, from the bytes. */
  ghost predicate SegmentMatches(m: Memory, buf: seq<byte>, c: Context) {
    && m.segment == (if LastSegment(LegacyRun(buf)) != NoRegister then LastSegment(LegacyRun(buf)) else SegmentRegister(DefaultFor(c)))
    && (m.hasDisplacement <==> FormTail(c.addressWidth == 16, c.modrm, c.sib) > if c.hasSIB then 1 else 0)
  }

  /** For every memory operand of an accepted instruction: the segment is the last override, or
      the default of its base bits, and the displacement flag says whether there are any bytes. */
  lemma SegmentExact(mode: MachineMode, buf: seq<byte>)
    requires Decode(mode, buf).Ok?
    ensures Verdict(mode, buf).Ok?
    ensures var ops := OperandsOf(mode, buf, Decode(mode, buf).value);
      forall i :: 0 <= i < |ops| && ops[i].MemoryOperand? ==> SegmentMatches(ops[i].mem, buf, Verdict(mode, buf).value)
  {
    hide Drive, Verdict, OperandList, Reread, MemoryOf, UsesModRMPair, PassesZero, FormTail, DefaultFor, WithPp, Meaning,
         LastSegment, LegacyRun, ShowsDisplacement, SibFollows, VexOf, EvexOf, Rex2Of, WIn, LeadIn;
    DecodeExact(mode, buf);
    var p, h, a, s := Run(mode, buf);
    var c := Verdict(mode, buf).value;
    ContextParts(mode, buf);
    ContextAddressing(mode, buf);
    SegmentMeaning(LegacyRun(buf), PpIn(mode, buf));
    ListMemory(mode, c, Reread(buf, c), s.immediate);
    if HasMemoryOperand(c) {
      MemoryHasModRM(c);
      FormFacts(c);
      SibNotNarrow(c);
      MemorySegment(c, if UsesModRMPair(c) then Reread(buf, c) else 0);
      ShowsExact(c);
    }
  }

  lemma SibNotNarrow(c: Context)
    requires c.hasSIB ==> SibFollows(c.addressWidth == 16, c.modrm)
    ensures c.hasSIB ==> c.addressWidth != 16
  {
  }
}
