/** What every field of a decoded context is in terms of the input bytes, and how long the
    instruction is: a reference that reads positions and tables instead of running phases. */
module Raw {
  import opened Types
  import opened Stream
  import opened Locality
  import opened Prefixes
  import opened OpcodeMap

  /** The byte at i; zero past the end. */
  function At(buf: seq<byte>, i: nat): byte { if i < |buf| then buf[i] else 0 }

  /** A bit of a byte, by its weight. */
  predicate Bit(b: byte, weight: nat)
    requires weight > 0
  {
    b / weight % 2 == 1
  }

  // ---------------------------------------------------------------- the lead byte

  /** How the opcode is introduced after the legacy prefixes and REX. */
  datatype Lead = PlainLead | Rex2Lead | Vex2Lead | Vex3Lead | EvexLead

  /** D5 always, C5, C4 and 62 in 64-bit mode; outside it C5 and C4 before a byte that would be
      a register form, and 62 before the fixed bits of EVEX. */
  function LeadOf(mode: MachineMode, buf: seq<byte>, k: nat): Lead {
    match At(buf, k)
    case 0xD5 => Rex2Lead
    case 0xC5 => if mode == Long64 || At(buf, k + 1) >= 0xC0 then Vex2Lead else PlainLead
    case 0xC4 => if mode == Long64 || At(buf, k + 1) >= 0xC0 then Vex3Lead else PlainLead
    case 0x62 =>
      if mode == Long64 || (!Bit(At(buf, k + 1), 8) && !Bit(At(buf, k + 1), 4) && Bit(At(buf, k + 2), 4))
      then EvexLead else PlainLead
    case _ => PlainLead
  }

  /** How many bytes the lead byte asks for before anything else. */
  function LeadNeeds(b: byte): nat {
    match b
    case 0xC5 => 2
    case 0xC4 => 3
    case 0x62 => 4
    case _ => 1
  }

  /** The opcode map: of the payload, or of the escape bytes. */
  function MapOf(lead: Lead, buf: seq<byte>, k: nat): nat {
    match lead
    case Rex2Lead => At(buf, k + 1) % 2
    case Vex2Lead => 1
    case Vex3Lead => At(buf, k + 1) % 32
    case EvexLead => At(buf, k + 1) % 4
    case PlainLead =>
      if At(buf, k) != 0x0F then 0
      else if At(buf, k + 1) == 0x38 then 2
      else if At(buf, k + 1) == 0x3A then 3
      else 1
  }

  function OpcodeAt(lead: Lead, opcodeMap: nat, k: nat): nat {
    k + match lead
        case PlainLead => (if opcodeMap == 0 then 0 else if opcodeMap == 1 then 1 else 2)
        case Rex2Lead => 2
        case Vex2Lead => 2
        case Vex3Lead => 3
        case EvexLead => 4
  }

  /** VEX and EVEX name one of the maps 1, 2 and 3. */
  predicate BadMap(lead: Lead, buf: seq<byte>, k: nat) {
    (lead == Vex3Lead || lead == EvexLead) && MapOf(lead, buf, k) !in {1, 2, 3}
  }

  // ---------------------------------------------------------------- the fields of the head

  predicate IsVector(lead: Lead) { lead == Vex2Lead || lead == Vex3Lead || lead == EvexLead }

  /** The payload byte with W, vvvv and pp. */
  function LastPayload(lead: Lead, buf: seq<byte>, k: nat): byte {
    if lead == Vex2Lead then At(buf, k + 1) else At(buf, k + 2)
  }

  function PpOf(lead: Lead, buf: seq<byte>, k: nat): nat {
    if IsVector(lead) then LastPayload(lead, buf, k) % 4 else 0
  }

  /** REX2 carries the bits as they are, VEX and EVEX inverted and W after them; C5 has R alone
      and leaves W to a REX byte before it. */
  function ExtensionsOf(lead: Lead, buf: seq<byte>, k: nat, rex: Rex): Rex {
    var b := At(buf, k + 1);
    match lead
    case PlainLead => rex
    case Rex2Lead => Rex(true, Bit(b, 128), Bit(b, 64), Bit(b, 32), Bit(b, 16))
    case Vex2Lead => Rex(true, rex.w, !Bit(b, 128), false, false)
    case Vex3Lead => Rex(true, Bit(At(buf, k + 2), 128), !Bit(b, 128), !Bit(b, 64), !Bit(b, 32))
    case EvexLead => Rex(true, Bit(At(buf, k + 2), 128), !Bit(b, 128), !Bit(b, 64), !Bit(b, 32))
  }

  function Rex2Of(lead: Lead, buf: seq<byte>, k: nat): Rex2 {
    var b := At(buf, k + 1);
    if lead == Rex2Lead then Rex2(true, Bit(b, 8), Bit(b, 4), Bit(b, 2)) else NO_REX2
  }

  function VexOf(lead: Lead, buf: seq<byte>, k: nat): Vex {
    var b := LastPayload(lead, buf, k);
    match lead
    case Vex2Lead => Vex(true, if Bit(b, 4) then 1 else 0, b % 4, 1, 15 - b / 8 % 16, false)
    case Vex3Lead => Vex(true, if Bit(b, 4) then 1 else 0, b % 4, MapOf(lead, buf, k), 15 - b / 8 % 16, Bit(b, 128))
    case EvexLead => Vex(false, 0, b % 4, MapOf(lead, buf, k), 15 - b / 8 % 16, Bit(b, 128))
    case _ => NO_VEX
  }

  function EvexOf(lead: Lead, buf: seq<byte>, k: nat): Evex {
    var b := At(buf, k + 3);
    if lead == EvexLead then
      Evex(true, b / 128, b / 32 % 4, b / 16 % 2, b % 8,
           if Bit(b, 8) then 0 else 1, if Bit(At(buf, k + 1), 16) then 0 else 1)
    else NO_EVEX
  }

  /** The implied prefix of pp: 66, F3 or F2. */
  function WithPp(l: Legacy, pp: nat): Legacy {
    l.(operandSize := l.operandSize || pp == 1, rep := l.rep || pp == 2, repne := l.repne || pp == 3)
  }

  /** The context after the opcode, field by field from the bytes. */
  function RawHead(mode: MachineMode, buf: seq<byte>, p: Context): Context {
    var k := p.offset;
    var lead := LeadOf(mode, buf, k);
    var o := OpcodeAt(lead, MapOf(lead, buf, k), k);
    p.(offset := o + 1,
       prefixCount := if IsVector(lead) then o else p.prefixCount,
       legacy := WithPp(p.legacy, PpOf(lead, buf, k)),
       rex := ExtensionsOf(lead, buf, k, p.rex),
       rex2 := Rex2Of(lead, buf, k),
       vex := VexOf(lead, buf, k),
       evex := EvexOf(lead, buf, k),
       opcodeMap := MapOf(lead, buf, k),
       opcode := At(buf, o))
  }

  /** Which status the head ends with, and the context it leaves. */
  function HeadVerdict(mode: MachineMode, buf: seq<byte>, p: Context): Result<Context> {
    var k := p.offset;
    var lead := LeadOf(mode, buf, k);
    if |buf| < k + LeadNeeds(At(buf, k)) then Err(TruncatedInput)
    else if BadMap(lead, buf, k) then Err(InvalidPrefix)
    else if |buf| <= OpcodeAt(lead, MapOf(lead, buf, k), k) then Err(TruncatedInput)
    else Ok(RawHead(mode, buf, p))
  }

  /** What the prefix phase leaves. */
  predicate Fresh(p: Context) {
    p == RESET.(offset := p.offset, prefixCount := p.offset, legacy := p.legacy, rex := p.rex)
  }

  lemma BitFacts(b: byte)
    ensures b / 64 == 3 <==> b >= 0xC0
    ensures b / 4 % 4 == 0 <==> !Bit(b, 8) && !Bit(b, 4)
    ensures b / 4 % 2 == 0 <==> !Bit(b, 4)
    ensures b / 128 == 1 <==> Bit(b, 128)
    ensures b / 128 == 0 <==> !Bit(b, 128)
    ensures b / 64 % 2 == 0 <==> !Bit(b, 64)
    ensures b / 32 % 2 == 0 <==> !Bit(b, 32)
    ensures b / 16 % 2 == 0 <==> !Bit(b, 16)
    ensures b / 8 % 2 == 0 <==> !Bit(b, 8)
    ensures b / 4 % 2 == if Bit(b, 4) then 1 else 0
  {
  }

  lemma PlainHead(mode: MachineMode, buf: seq<byte>, p: Context)
    requires Fresh(p) && |buf| >= p.offset + LeadNeeds(At(buf, p.offset)) && LeadOf(mode, buf, p.offset) == PlainLead
    ensures DecodeHead(mode, buf, p) == HeadVerdict(mode, buf, p)
  {
    hide DecodeVex2, DecodeVex3, DecodeEvexPayload, DecodeRex2;
    BitFacts(At(buf, p.offset + 1));
    BitFacts(At(buf, p.offset + 2));
    hide Bit;
  }

  lemma Rex2HeadRaw(mode: MachineMode, buf: seq<byte>, p: Context)
    requires Fresh(p) && p.offset < |buf| && buf[p.offset] == 0xD5
    ensures DecodeHead(mode, buf, p) == HeadVerdict(mode, buf, p)
  {
    hide DecodeVEX, DecodeEVEX, DecodeOpcode;
    BitFacts(At(buf, p.offset + 1));
  }

  lemma Vex2Payload(buf: seq<byte>, p: Context)
    requires Fresh(p) && p.offset + 1 < |buf|
    ensures DecodeVex2(p, buf[p.offset + 1]) ==
      p.(offset := p.offset + 2, prefixCount := p.offset + 2,
         legacy := WithPp(p.legacy, PpOf(Vex2Lead, buf, p.offset)),
         rex := ExtensionsOf(Vex2Lead, buf, p.offset, p.rex),
         vex := VexOf(Vex2Lead, buf, p.offset))
  {
    BitFacts(buf[p.offset + 1]);
    hide Bit;
  }

  lemma Vex3Payload(buf: seq<byte>, p: Context)
    requires Fresh(p) && p.offset + 2 < |buf|
    ensures DecodeVex3(p, buf[p.offset + 1], buf[p.offset + 2]) ==
      if BadMap(Vex3Lead, buf, p.offset) then Err(InvalidPrefix)
      else Ok(p.(offset := p.offset + 3, prefixCount := p.offset + 3,
                 legacy := WithPp(p.legacy, PpOf(Vex3Lead, buf, p.offset)),
                 rex := ExtensionsOf(Vex3Lead, buf, p.offset, p.rex),
                 vex := VexOf(Vex3Lead, buf, p.offset)))
  {
    BitFacts(buf[p.offset + 1]);
    BitFacts(buf[p.offset + 2]);
    hide Bit;
  }

  lemma VexParts(lead: Lead, buf: seq<byte>, k: nat)
    requires lead == Vex2Lead || lead == Vex3Lead
    ensures Rex2Of(lead, buf, k) == NO_REX2 && EvexOf(lead, buf, k) == NO_EVEX
    ensures VexOf(lead, buf, k).present && VexOf(lead, buf, k).mmmmm == MapOf(lead, buf, k)
  {
  }

  lemma Vex2Head(mode: MachineMode, buf: seq<byte>, p: Context)
    requires Fresh(p) && |buf| >= p.offset + LeadNeeds(At(buf, p.offset)) && LeadOf(mode, buf, p.offset) == Vex2Lead
    ensures DecodeHead(mode, buf, p) == HeadVerdict(mode, buf, p)
  {
    hide DecodeEVEX, DecodeOpcode, DecodeRex2, DecodeVex2, DecodeVex3, ExtensionsOf, WithPp, PpOf;
    Vex2Payload(buf, p);
    BitFacts(buf[p.offset + 1]);
    VexParts(Vex2Lead, buf, p.offset);
    hide VexOf, EvexOf, Rex2Of, Bit;
  }

  lemma Vex3Head(mode: MachineMode, buf: seq<byte>, p: Context)
    requires Fresh(p) && |buf| >= p.offset + LeadNeeds(At(buf, p.offset)) && LeadOf(mode, buf, p.offset) == Vex3Lead
    ensures DecodeHead(mode, buf, p) == HeadVerdict(mode, buf, p)
  {
    hide DecodeEVEX, DecodeOpcode, DecodeRex2, DecodeVex2, DecodeVex3, ExtensionsOf, WithPp, PpOf;
    Vex3Payload(buf, p);
    BitFacts(buf[p.offset + 1]);
    VexParts(Vex3Lead, buf, p.offset);
    hide VexOf, EvexOf, Rex2Of, Bit;
  }

  lemma EvexPayloadRaw(buf: seq<byte>, p: Context, p1: byte, p2: byte, p3: byte)
    requires Fresh(p) && p.offset + 3 < |buf|
    requires p1 == buf[p.offset + 1] && p2 == buf[p.offset + 2] && p3 == buf[p.offset + 3]
    ensures DecodeEvexPayload(p, p1, p2, p3) ==
      if BadMap(EvexLead, buf, p.offset) then Err(InvalidPrefix)
      else Ok(p.(offset := p.offset + 4, prefixCount := p.offset + 4,
                 legacy := WithPp(p.legacy, PpOf(EvexLead, buf, p.offset)),
                 rex := ExtensionsOf(EvexLead, buf, p.offset, p.rex),
                 vex := VexOf(EvexLead, buf, p.offset), evex := EvexOf(EvexLead, buf, p.offset)))
  {
    BitFacts(p1);
    BitFacts(p2);
    BitFacts(p3);
    hide Bit;
  }

  lemma EvexHead(mode: MachineMode, buf: seq<byte>, p: Context)
    requires Fresh(p) && |buf| >= p.offset + LeadNeeds(At(buf, p.offset)) && LeadOf(mode, buf, p.offset) == EvexLead
    ensures DecodeHead(mode, buf, p) == HeadVerdict(mode, buf, p)
  {
    hide DecodeVEX, DecodeOpcode, DecodeRex2, DecodeEvexPayload, ExtensionsOf, EvexOf, WithPp, PpOf;
    var k := p.offset;
    EvexPayloadRaw(buf, p, buf[k + 1], buf[k + 2], buf[k + 3]);
    BitFacts(buf[k + 1]);
    BitFacts(buf[k + 2]);
    hide Bit;
    EvexParts(buf, k);
    hide VexOf;
  }

  lemma EvexParts(buf: seq<byte>, k: nat)
    ensures Rex2Of(EvexLead, buf, k) == NO_REX2
    ensures VexOf(EvexLead, buf, k).mmmmm == MapOf(EvexLead, buf, k)
    ensures EvexOf(EvexLead, buf, k).present
  {
  }

  lemma ShortHead(mode: MachineMode, buf: seq<byte>, p: Context)
    requires p.offset <= |buf| < p.offset + LeadNeeds(At(buf, p.offset))
    ensures DecodeHead(mode, buf, p) == Err(TruncatedInput)
  {
  }

  /** The head, for every input: its status and every field, from the bytes. */
  lemma HeadExact(mode: MachineMode, buf: seq<byte>, p: Context)
    requires Fresh(p) && p.offset <= |buf|
    ensures DecodeHead(mode, buf, p) == HeadVerdict(mode, buf, p)
  {
    if |buf| < p.offset + LeadNeeds(At(buf, p.offset)) {
      ShortHead(mode, buf, p);
    } else {
      match LeadOf(mode, buf, p.offset)
      case PlainLead => PlainHead(mode, buf, p);
      case Rex2Lead => Rex2HeadRaw(mode, buf, p);
      case Vex2Lead => Vex2Head(mode, buf, p);
      case Vex3Lead => Vex3Head(mode, buf, p);
      case EvexLead => EvexHead(mode, buf, p);
    }
  }

  // ---------------------------------------------------------------- widths, ModRM, SIB and length

  /** Section 2.1.1 and table 3-4 of the manual: what 66h, W and the mode make of the operand
      width. A vector prefix hides 66h in 64-bit mode. */
  function WidthOf(mode: MachineMode, w: bool, override: bool, vector: bool): nat {
    match mode
    case Long64 => if w then 64 else if override && !vector then 16 else 32
    case Real16 => if override then 32 else 16
    case _ => if override then 16 else 32
  }

  function AddressOf(mode: MachineMode, override: bool): nat {
    match mode
    case Long64 => if override then 32 else 64
    case Real16 => if override then 32 else 16
    case _ => if override then 16 else 32
  }

  predicate SibFollows(narrow: bool, modrm: byte) { !narrow && modrm < 0xC0 && modrm % 8 == 4 }

  /** Bytes of SIB and displacement after a ModRM byte and, if it has one, its SIB byte. */
  function FormTail(narrow: bool, modrm: byte, sib: byte): nat {
    var mod, rm := modrm / 64, modrm % 8;
    if narrow then
      if mod == 1 then 1 else if mod == 2 || (mod == 0 && rm == 6) then 2 else 0
    else
      var bare := mod == 0 && (rm == 5 || (rm == 4 && sib % 8 == 5));
      (if mod != 3 && rm == 4 then 1 else 0) + (if mod == 1 then 1 else if mod == 2 || bare then 4 else 0)
  }

  /** The complete context, from the bytes after the head. Its offset is the length. */
  function RawBody(mode: MachineMode, buf: seq<byte>, h: Context): Context {
    var entry, m := Entry(h.opcodeMap, h.opcode), h.offset;
    var width := WidthOf(mode, h.rex.w || h.vex.w, h.legacy.operandSize, h.vex.present || h.evex.present);
    var address := AddressOf(mode, h.legacy.addressSize);
    var has := TakesModRM(entry);
    var modrm: byte := if has then At(buf, m) else 0;
    var sibs := has && SibFollows(address == 16, modrm);
    h.(operandWidth := width, addressWidth := address,
       hasModRM := has, modrm := modrm, opcodeExt := modrm / 8 % 8,
       hasSIB := sibs, sib := if sibs then At(buf, m + 1) else 0,
       offset := m + (if has then 1 + FormTail(address == 16, modrm, At(buf, m + 1)) else 0)
                 + ImmediateBytes(entry, width, address, modrm / 8 % 8))
  }

  lemma WidthsExact(mode: MachineMode, h: Context)
    ensures OperandWidth(mode, h)
         == WidthOf(mode, h.rex.w || h.vex.w, h.legacy.operandSize, h.vex.present || h.evex.present)
    ensures AddressWidth(mode, h) == AddressOf(mode, h.legacy.addressSize)
  {
  }

  /** The displacement of a form: FormTail without its SIB byte. */
  lemma DisplacementExact(c: Context)
    requires c.hasModRM && c.hasSIB == SibFollows(c.addressWidth == 16, c.modrm)
    ensures DisplacementSize(c) + (if c.hasSIB then 1 else 0) == FormTail(c.addressWidth == 16, c.modrm, c.sib)
  {
  }

  lemma TailExact(buf: seq<byte>, c: Context)
    requires c.offset <= |buf| && c.opcodeMap <= 3 && c.hasModRM == OpcodeRequiresModRM(c.opcodeMap, c.opcode)
    ensures var end := c.offset + DisplacementSize(c) + ImmediateSize(c);
      if end > |buf| then DecodeTail(buf, c) == Err(TruncatedInput)
      else DecodeTail(buf, c).Ok? && DecodeTail(buf, c).value.ctx == c.(offset := end)
  {
    if DecodeTail(buf, c).Err? {
      TailFails(buf, c);
    }
  }

  /** What addressing leaves: the fields of RawBody, before displacement and immediate. */
  lemma AddressingExact(mode: MachineMode, buf: seq<byte>, h: Context)
    requires h.opcodeMap <= 3 && !h.hasModRM && !h.hasSIB && h.modrm == 0 && h.sib == 0 && h.opcodeExt == 0
    requires h.offset <= |buf|
    ensures var a, c := DecodeAddressing(buf, ResolveEffectiveSizes(mode, h)), RawBody(mode, buf, h);
      var start := h.offset + (if c.hasModRM then 1 else 0) + (if c.hasSIB then 1 else 0);
      if start > |buf| then a == Err(TruncatedInput) else a == Ok(c.(offset := start))
  {
    hide Entry, ImmediateBytes, OpcodeRequiresModRM, FormTail, ImmediateSize;
    WidthsExact(mode, h);
    EntriesFit(h);
  }

  /** After the head, for every input: truncation exactly when the length is not there, and
      every field from the bytes. */
  lemma BodyExact(mode: MachineMode, buf: seq<byte>, h: Context)
    requires h.opcodeMap <= 3 && !h.hasModRM && !h.hasSIB && h.modrm == 0 && h.sib == 0 && h.opcodeExt == 0
    requires h.offset <= |buf|
    ensures var c := RawBody(mode, buf, h);
      if c.offset > |buf| then DecodeBody(mode, buf, h) == Err(TruncatedInput)
      else DecodeBody(mode, buf, h).Ok? && DecodeBody(mode, buf, h).value.ctx == c
  {
    hide Entry, ImmediateBytes, OpcodeRequiresModRM, FormTail, ImmediateSize, DisplacementSize, DecodeTail, DecodeAddressing;
    AddressingExact(mode, buf, h);
    var c := RawBody(mode, buf, h);
    var start := h.offset + (if c.hasModRM then 1 else 0) + (if c.hasSIB then 1 else 0);
    var a := c.(offset := start);
    EntriesFit(a);
    if c.hasModRM {
      DisplacementExact(a);
      if !c.hasSIB {
        NoSib(c.addressWidth == 16, c.modrm, At(buf, h.offset + 1));
      }
    } else {
      NoDisplacement(a);
    }
    if start <= |buf| {
      TailExact(buf, a);
    }
  }

  lemma NoSib(narrow: bool, modrm: byte, next: byte)
    requires !SibFollows(narrow, modrm)
    ensures FormTail(narrow, modrm, next) == FormTail(narrow, modrm, 0)
  {
  }

  lemma NoDisplacement(c: Context)
    requires !c.hasModRM
    ensures DisplacementSize(c) == 0
  {
  }

  // ---------------------------------------------------------------- the whole decode

  function RexBits(b: byte): Rex { Rex(true, Bit(b, 8), Bit(b, 4), Bit(b, 2), Bit(b, 1)) }

  /** What the prefixes leave, from the bytes. */
  function RawPrefixes(mode: MachineMode, buf: seq<byte>): Context {
    var k := LegacyEnd(buf, 0);
    var run: seq<byte> := if k <= |buf| then buf[..k] else [];
    var end := if RexAt(mode, buf, k) then k + 1 else k;
    RESET.(offset := end, prefixCount := end, legacy := Meaning(NO_LEGACY, run),
           rex := if RexAt(mode, buf, k) then RexBits(buf[k]) else NO_REX)
  }

  lemma RexBitsValue(b: byte)
    requires b / 16 == 4
    ensures RexBits(b).present && RexValue(RexBits(b)) == b
  {
    assert b % 16 == 8 * (b / 8 % 2) + 4 * (b / 4 % 2) + 2 * (b / 2 % 2) + b % 2;
  }

  lemma PrefixesExact(mode: MachineMode, buf: seq<byte>)
    ensures Prefixed(mode, buf) == RawPrefixes(mode, buf)
  {
    hide ScanPrefixes, Meaning, RexValue, RexBits;
    var k := ScanMeaning(mode, buf);
    if RexAt(mode, buf, k) {
      RexBitsValue(buf[k]);
      RexUnique(Prefixed(mode, buf).rex, RexBits(buf[k]));
    }
  }

  /** The status of a decode and the context of an accepted instruction, from the bytes. */
  function Verdict(mode: MachineMode, buf: seq<byte>): Result<Context> {
    var head := HeadVerdict(mode, buf, RawPrefixes(mode, buf));
    if head.Err? then head
    else
      var c := RawBody(mode, buf, head.value);
      if c.offset > |buf| then Err(TruncatedInput)
      else if c.offset > MAX_INSTRUCTION_LENGTH then Err(InstructionTooLong)
      else Ok(c)
  }

  /** For every byte string, the decoder ends with the status of the reference, and on success
      with its context, length included. */
  lemma DecodeExact(mode: MachineMode, buf: seq<byte>)
    ensures match Verdict(mode, buf)
      case Err(status) => Decode(mode, buf) == Err(status)
      case Ok(c) => Decode(mode, buf).Ok? && Decode(mode, buf).value.ctx == c
  {
    hide Drive, DecodeHead, DecodeBody, ScanPrefixes, HeadVerdict, RawBody, RawPrefixes;
    DecodeUnfolds(mode, buf);
    PrefixesExact(mode, buf);
    PrefixesAdvance(mode, buf, RESET);
    var p := Prefixed(mode, buf);
    HeadExact(mode, buf, p);
    if HeadVerdict(mode, buf, p).Ok? {
      HeadIsFresh(mode, buf, p);
      BodyExact(mode, buf, HeadVerdict(mode, buf, p).value);
    }
  }

  lemma HeadIsFresh(mode: MachineMode, buf: seq<byte>, p: Context)
    requires Fresh(p) && HeadVerdict(mode, buf, p).Ok?
    ensures var h := HeadVerdict(mode, buf, p).value;
      h.opcodeMap <= 3 && !h.hasModRM && !h.hasSIB && h.modrm == 0 && h.sib == 0 && h.opcodeExt == 0 && h.offset <= |buf|
  {
  }
}
