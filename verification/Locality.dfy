/** Which bytes the streaming decoder depends on: locality, extension stability,
    prefix-freeness and finality of the status. */
module Locality {
  import opened Types
  import opened Stream

  /** a and b both reach hi and agree from lo up to hi. */
  ghost predicate Same(a: seq<byte>, b: seq<byte>, lo: nat, hi: nat) {
    hi <= |a| && hi <= |b| && forall i :: lo <= i < hi ==> a[i] == b[i]
  }

  function Max(x: nat, y: nat): nat { if x < y then y else x }

  // ---------------------------------------------------------------- one phase at a time

  lemma {:induction false} LittleEndianSame(a: seq<byte>, b: seq<byte>, off: nat, n: nat)
    requires Same(a, b, off, off + n)
    ensures LittleEndian(a, off, n) == LittleEndian(b, off, n)
    decreases n
  {
    if n > 0 {
      LittleEndianSame(a, b, off + 1, n - 1);
    }
  }

  lemma {:induction false} PrefixesAdvance(mode: MachineMode, buf: seq<byte>, c: Context)
    requires c.offset <= MAX_INSTRUCTION_LENGTH && c.offset <= |buf|
    ensures c.offset <= ScanPrefixes(mode, buf, c).offset <= MAX_INSTRUCTION_LENGTH
    ensures ScanPrefixes(mode, buf, c).offset <= |buf|
    ensures var r := ScanPrefixes(mode, buf, c);
      && r.prefixCount - c.prefixCount == r.offset - c.offset
      && r == c.(offset := r.offset, prefixCount := r.prefixCount, legacy := r.legacy, rex := r.rex)
    decreases MAX_INSTRUCTION_LENGTH - c.offset
  {
    if c.offset < |buf| && c.offset < MAX_INSTRUCTION_LENGTH {
      var b := buf[c.offset];
      if !IsRex(mode, b) && IsLegacyPrefix(b) {
        PrefixesAdvance(mode, buf, c.(legacy := ApplyPrefix(c.legacy, b),
                                      prefixCount := c.prefixCount + 1, offset := c.offset + 1));
      }
    }
  }

  /** The prefix scan depends on the bytes it consumes and on the one that stops it. */
  lemma {:induction false} PrefixesSame(mode: MachineMode, a: seq<byte>, b: seq<byte>, c: Context)
    requires Same(a, b, c.offset, ScanPrefixes(mode, a, c).offset + 1)
    ensures ScanPrefixes(mode, b, c) == ScanPrefixes(mode, a, c)
    decreases MAX_INSTRUCTION_LENGTH - c.offset
  {
    if c.offset < |a| && c.offset < MAX_INSTRUCTION_LENGTH {
      var x := a[c.offset];
      if !IsRex(mode, x) && IsLegacyPrefix(x) {
        var c' := c.(legacy := ApplyPrefix(c.legacy, x), prefixCount := c.prefixCount + 1, offset := c.offset + 1);
        PrefixesAdvance(mode, a, c');
        PrefixesSame(mode, a, b, c');
      }
    }
  }

  /** Where the bounds test of the lead byte at the end of the prefixes looks to. */
  function LookaheadEnd(buf: seq<byte>, c: Context): nat
    requires c.offset < |buf|
  {
    if buf[c.offset] == 0xC5 then c.offset + 2
    else if buf[c.offset] == 0xC4 then c.offset + 3
    else if buf[c.offset] == 0x62 then c.offset + 4
    else c.offset + 1
  }

  /** Where the head can end. Only LES, LDS and BOUND look past the opcode they consume. */
  ghost predicate HeadEnd(mode: MachineMode, buf: seq<byte>, c: Context, h: Context)
    requires c.offset < |buf|
  {
    var ahead := LookaheadEnd(buf, c);
    && c.offset < h.offset <= |buf|
    && ahead <= |buf|
    && h.opcodeMap <= 3
    && (h.opcodeMap == 0 ==> h.offset <= c.offset + 3)
    && h.offset <= c.offset + 5
    && (ahead > h.offset ==> mode != Long64 && ahead <= h.offset + 3
                             && h.opcodeMap == 0 && h.opcode in {0xC5, 0xC4, 0x62})
    && h.legacy.hasSegment == c.legacy.hasSegment
    && h.legacy.segment == c.legacy.segment
    && h.legacy.addressSize == c.legacy.addressSize
    && h.hasModRM == c.hasModRM && h.hasSIB == c.hasSIB
  }

  /** What a VEX or EVEX prefix leaves alone, and how far it reaches. */
  ghost predicate VectorEnd(c: Context, v: Context, size: nat) {
    && v.offset == c.offset + size
    && 1 <= v.vex.mmmmm <= 3
    && v.legacy.hasSegment == c.legacy.hasSegment
    && v.legacy.segment == c.legacy.segment
    && v.legacy.addressSize == c.legacy.addressSize
    && v.hasModRM == c.hasModRM && v.hasSIB == c.hasSIB
  }

  lemma VexEnd(mode: MachineMode, buf: seq<byte>, c: Context)
    requires c.offset < |buf| && (buf[c.offset] == 0xC5 || buf[c.offset] == 0xC4)
    requires !c.vex.present && DecodeVEX(mode, buf, c).Ok?
    ensures LookaheadEnd(buf, c) <= |buf|
    ensures var v := DecodeVEX(mode, buf, c).value;
      if v.vex.present then VectorEnd(c, v, LookaheadEnd(buf, c) - c.offset) else v == c && mode != Long64
  {
  }

  lemma EvexEnd(mode: MachineMode, buf: seq<byte>, c: Context)
    requires c.offset < |buf| && buf[c.offset] == 0x62
    requires !c.evex.present && DecodeEVEX(mode, buf, c).Ok?
    ensures LookaheadEnd(buf, c) <= |buf|
    ensures var v := DecodeEVEX(mode, buf, c).value;
      if v.evex.present then VectorEnd(c, v, LookaheadEnd(buf, c) - c.offset) else v == c && mode != Long64
  {
  }

  lemma HeadAdvance(mode: MachineMode, buf: seq<byte>, c: Context)
    requires DecodeHead(mode, buf, c).Ok?
    requires !c.vex.present && !c.evex.present && c.opcodeMap == 0
    ensures c.offset < |buf| && HeadEnd(mode, buf, c, DecodeHead(mode, buf, c).value)
  {
    hide DecodeVEX, DecodeEVEX;
    if c.offset < |buf| {
      if buf[c.offset] == 0xC5 || buf[c.offset] == 0xC4 {
        VexEnd(mode, buf, c);
      } else if buf[c.offset] == 0x62 {
        EvexEnd(mode, buf, c);
      }
    }
  }

  lemma OpcodeSame(a: seq<byte>, b: seq<byte>, c: Context)
    requires DecodeOpcode(a, c).Ok?
    requires Same(a, b, c.offset, DecodeOpcode(a, c).value.offset)
    ensures DecodeOpcode(b, c) == DecodeOpcode(a, c)
  {
  }

  lemma VexSame(mode: MachineMode, a: seq<byte>, b: seq<byte>, c: Context)
    requires c.offset < |a| && (a[c.offset] == 0xC5 || a[c.offset] == 0xC4)
    requires !c.vex.present
    requires DecodeHead(mode, a, c).Ok?
    requires Same(a, b, c.offset, Max(DecodeHead(mode, a, c).value.offset, LookaheadEnd(a, c)))
    ensures DecodeVEX(mode, b, c) == DecodeVEX(mode, a, c)
    ensures DecodeHead(mode, b, c) == DecodeHead(mode, a, c)
  {
    var k := c.offset;
    assert a[k] == b[k] && k + 1 < |a| && a[k + 1] == b[k + 1];
    if a[k] == 0xC4 {
      assert a[k + 2] == b[k + 2];
    }
    assert DecodeVEX(mode, b, c) == DecodeVEX(mode, a, c);
    if !DecodeVEX(mode, a, c).value.vex.present {
      OpcodeSame(a, b, c);
    }
  }

  lemma EvexSame(mode: MachineMode, a: seq<byte>, b: seq<byte>, c: Context)
    requires c.offset < |a| && a[c.offset] == 0x62
    requires !c.evex.present
    requires DecodeHead(mode, a, c).Ok?
    requires Same(a, b, c.offset, Max(DecodeHead(mode, a, c).value.offset, LookaheadEnd(a, c)))
    ensures DecodeHead(mode, b, c) == DecodeHead(mode, a, c)
  {
    var k := c.offset;
    assert a[k] == b[k] && a[k + 1] == b[k + 1] && a[k + 2] == b[k + 2] && a[k + 3] == b[k + 3];
    assert DecodeEVEX(mode, b, c) == DecodeEVEX(mode, a, c);
    if !DecodeEVEX(mode, a, c).value.evex.present {
      OpcodeSame(a, b, c);
    }
  }

  lemma Rex2Same(a: seq<byte>, b: seq<byte>, c: Context)
    requires c.offset < |a| && c.offset < |b|
    requires DecodeRex2(a, c).Ok?
    requires Same(a, b, c.offset, DecodeRex2(a, c).value.offset)
    ensures DecodeRex2(b, c) == DecodeRex2(a, c)
  {
  }

  /** The head depends on the bytes it consumes and on those its lead byte looks ahead to. */
  lemma HeadSame(mode: MachineMode, a: seq<byte>, b: seq<byte>, c: Context)
    requires c.offset < |a|
    requires DecodeHead(mode, a, c).Ok?
    requires !c.vex.present && !c.evex.present
    requires Same(a, b, c.offset, Max(DecodeHead(mode, a, c).value.offset, LookaheadEnd(a, c)))
    ensures DecodeHead(mode, b, c) == DecodeHead(mode, a, c)
  {
    assert a[c.offset] == b[c.offset];
    if a[c.offset] == 0xC5 || a[c.offset] == 0xC4 {
      VexSame(mode, a, b, c);
    } else if a[c.offset] == 0x62 {
      EvexSame(mode, a, b, c);
    } else if a[c.offset] == 0xD5 {
      Rex2Same(a, b, c);
    } else {
      OpcodeSame(a, b, c);
    }
  }

  lemma AddressingSame(a: seq<byte>, b: seq<byte>, c: Context)
    requires DecodeAddressing(a, c).Ok?
    requires Same(a, b, c.offset, DecodeAddressing(a, c).value.offset)
    ensures DecodeAddressing(b, c) == DecodeAddressing(a, c)
  {
  }

  lemma TailSame(a: seq<byte>, b: seq<byte>, c: Context)
    requires DecodeTail(a, c).Ok?
    requires Same(a, b, c.offset, DecodeTail(a, c).value.ctx.offset)
    ensures DecodeTail(b, c) == DecodeTail(a, c)
  {
    var afterDisp := c.offset + DisplacementSize(c);
    LittleEndianSame(a, b, c.offset, DisplacementSize(c));
    LittleEndianSame(a, b, afterDisp, ImmediateSize(c));
  }

  lemma BodyAdvance(mode: MachineMode, buf: seq<byte>, c: Context)
    requires DecodeBody(mode, buf, c).Ok?
    requires !c.hasModRM && !c.hasSIB && c.opcodeMap <= 3 && c.offset <= |buf|
    ensures var s := DecodeBody(mode, buf, c).value;
      && c.offset <= s.ctx.offset <= |buf|
      && (OpcodeRequiresModRM(c.opcodeMap, c.opcode) ==> c.offset < s.ctx.offset)
  {
  }

  lemma BodySame(mode: MachineMode, a: seq<byte>, b: seq<byte>, c: Context)
    requires DecodeBody(mode, a, c).Ok?
    requires Same(a, b, c.offset, DecodeBody(mode, a, c).value.ctx.offset)
    ensures DecodeBody(mode, b, c) == DecodeBody(mode, a, c)
  {
    var sized := ResolveEffectiveSizes(mode, c);
    AddressingSame(a, b, sized);
    TailSame(a, b, DecodeAddressing(a, sized).value);
  }

  // ---------------------------------------------------------------- the whole pipeline

  function Prefixed(mode: MachineMode, buf: seq<byte>): Context {
    ScanPrefixes(mode, buf, RESET)
  }

  /** How many leading bytes an accepting run of the decoder tests or reads. */
  ghost function Examined(mode: MachineMode, buf: seq<byte>): nat
    requires Decode(mode, buf).Ok?
  {
    Accepted(mode, buf);
    Max(Decode(mode, buf).value.ctx.offset, LookaheadEnd(buf, Prefixed(mode, buf)))
  }

  lemma Accepted(mode: MachineMode, buf: seq<byte>)
    requires Decode(mode, buf).Ok?
    ensures var p := Prefixed(mode, buf);
      && p.offset < |buf|
      && p == RESET.(offset := p.offset, prefixCount := p.offset, legacy := p.legacy, rex := p.rex)
      && DecodeHead(mode, buf, p).Ok?
      && var h := DecodeHead(mode, buf, p).value;
      && HeadEnd(mode, buf, p, h)
      && DecodeBody(mode, buf, h) == Decode(mode, buf)
      && h.offset <= Decode(mode, buf).value.ctx.offset <= |buf|
      && Decode(mode, buf).value.ctx.offset <= MAX_INSTRUCTION_LENGTH
  {
    DecodeUnfolds(mode, buf);
    PrefixesAdvance(mode, buf, RESET);
    HeadAdvance(mode, buf, Prefixed(mode, buf));
    BodyAdvance(mode, buf, DecodeHead(mode, buf, Prefixed(mode, buf)).value);
  }

  /** An accepted instruction is 1 to 15 bytes long and lies inside the buffer. The decoder
      looks at most two bytes past it, and not at all in 64-bit mode. */
  lemma ExaminedBound(mode: MachineMode, buf: seq<byte>)
    requires Decode(mode, buf).Ok?
    ensures var length := Decode(mode, buf).value.ctx.offset;
      && 1 <= length <= MAX_INSTRUCTION_LENGTH
      && length <= Examined(mode, buf) <= |buf|
      && Examined(mode, buf) <= length + 2
      && (mode == Long64 ==> Examined(mode, buf) == length)
  {
    Accepted(mode, buf);
    BodyAdvance(mode, buf, DecodeHead(mode, buf, Prefixed(mode, buf)).value);
  }

  /** Locality: the examined bytes decide the whole result. */
  lemma Locality(mode: MachineMode, a: seq<byte>, b: seq<byte>)
    requires Decode(mode, a).Ok?
    requires Same(a, b, 0, Examined(mode, a))
    ensures Decode(mode, b) == Decode(mode, a)
  {
    Accepted(mode, a);
    DecodeUnfolds(mode, a);
    DecodeUnfolds(mode, b);
    var p := Prefixed(mode, a);
    PrefixesSame(mode, a, b, RESET);
    HeadSame(mode, a, b, p);
    BodySame(mode, a, b, DecodeHead(mode, a, p).value);
  }

  /** In 64-bit mode the bytes of the instruction itself decide. */
  lemma LocalityLong64(a: seq<byte>, b: seq<byte>)
    requires Decode(Long64, a).Ok?
    requires Same(a, b, 0, Decode(Long64, a).value.ctx.offset)
    ensures Decode(Long64, b) == Decode(Long64, a)
  {
    ExaminedBound(Long64, a);
    Locality(Long64, a, b);
  }

  lemma HeadNeedsLookahead(mode: MachineMode, buf: seq<byte>, c: Context)
    requires c.offset < |buf| < LookaheadEnd(buf, c)
    ensures DecodeHead(mode, buf, c).Err?
  {
  }

  lemma LookaheadMatters(mode: MachineMode, a: seq<byte>)
    requires Decode(mode, a).Ok? && Decode(mode, a).value.ctx.offset < Examined(mode, a)
    ensures Decode(mode, a).value.ctx.offset <= |a|
    ensures Decode(mode, a[..Decode(mode, a).value.ctx.offset]).Err?
  {
    hide Drive, DecodeHead, DecodeBody;
    Accepted(mode, a);
    var b := a[..Decode(mode, a).value.ctx.offset];
    DecodeUnfolds(mode, b);
    PrefixesSame(mode, a, b, RESET);
    HeadNeedsLookahead(mode, b, Prefixed(mode, b));
  }

  /** In every mode: the bytes of the instruction itself decide exactly when the decoder did not
      look past them. */
  lemma LocalityByExamined(mode: MachineMode, a: seq<byte>)
    requires Decode(mode, a).Ok?
    ensures (forall b :: Same(a, b, 0, Decode(mode, a).value.ctx.offset) ==> Decode(mode, b) == Decode(mode, a))
            <==> Examined(mode, a) == Decode(mode, a).value.ctx.offset
  {
    var length := Decode(mode, a).value.ctx.offset;
    ExaminedBound(mode, a);
    if Examined(mode, a) == length {
      forall b | Same(a, b, 0, length)
        ensures Decode(mode, b) == Decode(mode, a)
      {
        Locality(mode, a, b);
      }
    } else {
      LookaheadMatters(mode, a);
      assert Same(a, a[..length], 0, length);
    }
  }

  /** Extension stability, in every mode: a is a prefix of b. */
  lemma ExtensionStable(mode: MachineMode, a: seq<byte>, b: seq<byte>)
    requires Decode(mode, a).Ok? && a <= b
    ensures Decode(mode, b) == Decode(mode, a)
  {
    ExaminedBound(mode, a);
    Locality(mode, a, b);
  }

  lemma LengthBound(mode: MachineMode, a: seq<byte>)
    requires Decode(mode, a).Ok?
    ensures 1 <= Decode(mode, a).value.ctx.offset <= MAX_INSTRUCTION_LENGTH
    ensures Decode(mode, a).value.ctx.offset <= |a|
  {
    ExaminedBound(mode, a);
  }

  /** Prefix-freeness, in every mode: no proper prefix of an accepted instruction is accepted. */
  lemma PrefixFree(mode: MachineMode, a: seq<byte>, k: nat)
    requires Decode(mode, a).Ok? && k < Decode(mode, a).value.ctx.offset
    ensures k < |a| && Decode(mode, a[..k]).Err?
  {
    LengthBound(mode, a);
    var short := a[..k];
    if Decode(mode, short).Ok? {
      LengthBound(mode, short);
      ExtensionStable(mode, short, a);
      assert false;
    }
  }

  /** Fifteen bytes decide in 64-bit mode, seventeen in every mode. */
  lemma FifteenBytesDecide(mode: MachineMode, a: seq<byte>, x: seq<byte>)
    requires |a| >= if mode == Long64 then 15 else 17
    ensures Decode(mode, a).Ok? <==> Decode(mode, a + x).Ok?
    ensures Decode(mode, a).Ok? ==> Decode(mode, a + x) == Decode(mode, a)
  {
    if Decode(mode, a).Ok? {
      ExtensionStable(mode, a, a + x);
    } else if Decode(mode, a + x).Ok? {
      ExaminedBound(mode, a + x);
      Locality(mode, a + x, a);
    }
  }

  // ---------------------------------------------------------------- finality of the status

  lemma HeadFails(mode: MachineMode, buf: seq<byte>, c: Context)
    requires DecodeHead(mode, buf, c).Err? && c.offset <= |buf|
    requires !c.vex.present && !c.evex.present
    ensures var st := DecodeHead(mode, buf, c).status;
      && (st == InvalidPrefix || st == TruncatedInput)
      && (st == InvalidPrefix ==> c.offset < |buf| && LookaheadEnd(buf, c) <= |buf|)
      && (st == TruncatedInput ==> |buf| < c.offset + 5)
  {
  }

  lemma HeadInvalidSame(mode: MachineMode, a: seq<byte>, b: seq<byte>, c: Context)
    requires DecodeHead(mode, a, c) == Err(InvalidPrefix)
    requires !c.vex.present && !c.evex.present
    requires c.offset < |a| && Same(a, b, c.offset, LookaheadEnd(a, c))
    ensures DecodeHead(mode, b, c) == DecodeHead(mode, a, c)
  {
    var k := c.offset;
    assert a[k] == b[k];
    if a[k] == 0xC4 {
      assert a[k + 1] == b[k + 1] && a[k + 2] == b[k + 2];
    } else if a[k] == 0x62 {
      assert a[k + 1] == b[k + 1] && a[k + 2] == b[k + 2] && a[k + 3] == b[k + 3];
    }
  }

  /** The size defaults InvalidModRM and InvalidOpcode are unreachable, and displacement and
      immediate have at most eight bytes together, five outside the one-byte map. */
  lemma TailFails(buf: seq<byte>, c: Context)
    requires DecodeTail(buf, c).Err? && c.offset <= |buf| && c.opcodeMap <= 3
    requires c.hasModRM == OpcodeRequiresModRM(c.opcodeMap, c.opcode)
    ensures DecodeTail(buf, c) == Err(TruncatedInput)
    ensures |buf| < c.offset + if c.opcodeMap == 0 then 8 else 5
  {
  }

  /** So the whole body fails only by truncation. */
  lemma BodyFails(mode: MachineMode, buf: seq<byte>, c: Context)
    requires DecodeBody(mode, buf, c).Err? && c.offset <= |buf|
    requires !c.hasModRM && !c.hasSIB && c.opcodeMap <= 3
    ensures DecodeBody(mode, buf, c) == Err(TruncatedInput)
    ensures |buf| < c.offset + if c.opcodeMap == 0 then 10 else 7
  {
    var a := DecodeAddressing(buf, ResolveEffectiveSizes(mode, c));
    if a.Ok? {
      TailFails(buf, a.value);
    }
  }

  /** Only these failures occur, every one but TruncatedInput survives any extension of the
      input, and TruncatedInput cannot occur on 28 bytes or more. */
  lemma StatusFinality(mode: MachineMode, a: seq<byte>, x: seq<byte>)
    requires Decode(mode, a).Err?
    ensures Decode(mode, a).status in {InvalidPrefix, TruncatedInput, InstructionTooLong}
    ensures Decode(mode, a).status != TruncatedInput ==> Decode(mode, a + x) == Decode(mode, a)
    ensures Decode(mode, a).status == TruncatedInput ==> |a| < 28
  {
    var b := a + x;
    DecodeUnfolds(mode, a);
    DecodeUnfolds(mode, b);
    var p := Prefixed(mode, a);
    PrefixesAdvance(mode, a, RESET);
    if DecodeHead(mode, a, p).Err? {
      HeadFails(mode, a, p);
      if DecodeHead(mode, a, p).status == InvalidPrefix {
        PrefixesSame(mode, a, b, RESET);
        HeadInvalidSame(mode, a, b, p);
      }
    } else {
      HeadAdvance(mode, a, p);
      var h := DecodeHead(mode, a, p).value;
      if DecodeBody(mode, a, h).Err? {
        BodyFails(mode, a, h);
      } else {
        BodyAdvance(mode, a, h);
        PrefixesSame(mode, a, b, RESET);
        HeadSame(mode, a, b, p);
        BodySame(mode, a, b, h);
      }
    }
  }
}
