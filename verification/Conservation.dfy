/** Byte conservation: an accepted instruction can be encoded again from what was decoded. */
module Conservation {
  import opened Types
  import opened Stream
  import opened Locality
  import opened Shape
  import opened WellFormed
  import opened Prefixes

  /** How the opcode was introduced. EVEX carries the three reserved bits that decoding drops. */
  datatype HeadForm =
    | LegacyForm
    | Rex2Form
    | Vex2Form
    | Vex3Form
    | EvexForm(reserved1: nat, reserved2: nat)

  function Flag(set_: bool, weight: nat): nat { if set_ then weight else 0 }

  /** From the end of the legacy prefixes to the opcode. Values, not yet bytes. */
  function HeadValues(c: Context, form: HeadForm): seq<int> {
    match form
    case LegacyForm =>
      if c.opcodeMap == 0 then [c.opcode]
      else if c.opcodeMap == 1 then [0x0F, c.opcode]
      else [0x0F, if c.opcodeMap == 2 then 0x38 else 0x3A, c.opcode]
    case Rex2Form =>
      [0xD5,
       Flag(c.rex.w, 128) + Flag(c.rex.r, 64) + Flag(c.rex.x, 32) + Flag(c.rex.b, 16)
       + Flag(c.rex2.r4, 8) + Flag(c.rex2.x4, 4) + Flag(c.rex2.b4, 2) + c.opcodeMap,
       c.opcode]
    case Vex2Form =>
      [0xC5, Flag(!c.rex.r, 128) + 8 * (15 - c.vex.vvvv) + 4 * c.vex.l + c.vex.pp, c.opcode]
    case Vex3Form =>
      [0xC4,
       Flag(!c.rex.r, 128) + Flag(!c.rex.x, 64) + Flag(!c.rex.b, 32) + c.vex.mmmmm,
       Flag(c.vex.w, 128) + 8 * (15 - c.vex.vvvv) + 4 * c.vex.l + c.vex.pp,
       c.opcode]
    case EvexForm(k, m) =>
      [0x62,
       Flag(!c.rex.r, 128) + Flag(!c.rex.x, 64) + Flag(!c.rex.b, 32) + 16 * (1 - c.evex.r2) + 4 * k + c.vex.mmmmm,
       Flag(c.vex.w, 128) + 8 * (15 - c.vex.vvvv) + 4 * m + c.vex.pp,
       128 * c.evex.z + 32 * c.evex.ll + 16 * c.evex.b + 8 * (1 - c.evex.v2) + c.evex.aaa,
       c.opcode]
  }

  /** The form a head was read in. */
  function FormOf(buf: seq<byte>, p: Context, h: Context): HeadForm
    requires p.offset < |buf|
  {
    if h.rex2.present then Rex2Form
    else if h.vex.present then if buf[p.offset] == 0xC5 then Vex2Form else Vex3Form
    else if h.evex.present && p.offset + 2 < |buf| then
      EvexForm(buf[p.offset + 1] / 4 % 4, buf[p.offset + 2] / 4 % 2)
    else LegacyForm
  }

  /** A byte is the sum of its bits. */
  lemma Bits(b: byte)
    ensures b == 128 * (b / 128) + 64 * (b / 64 % 2) + 32 * (b / 32 % 2) + 16 * (b / 16 % 2)
                 + 8 * (b / 8 % 2) + 4 * (b / 4 % 2) + 2 * (b / 2 % 2) + b % 2
    ensures b / 128 <= 1
    ensures b / 8 % 16 == 8 * (b / 64 % 2) + 4 * (b / 32 % 2) + 2 * (b / 16 % 2) + b / 8 % 2
    ensures b / 32 % 4 == 2 * (b / 64 % 2) + b / 32 % 2
    ensures b / 4 % 4 == 2 * (b / 8 % 2) + b / 4 % 2
    ensures b % 32 == 16 * (b / 16 % 2) + 8 * (b / 8 % 2) + 4 * (b / 4 % 2) + b % 4
    ensures b % 8 == 4 * (b / 4 % 2) + b % 4
    ensures b % 4 == 2 * (b / 2 % 2) + b % 2
  {
    assert b / 64 == 2 * (b / 128) + b / 64 % 2;
    assert b / 32 == 2 * (b / 64) + b / 32 % 2;
    assert b / 16 == 2 * (b / 32) + b / 16 % 2;
    assert b / 8 == 2 * (b / 16) + b / 8 % 2;
    assert b / 4 == 2 * (b / 8) + b / 4 % 2;
    assert b / 2 == 2 * (b / 4) + b / 2 % 2;
  }

  lemma FlagOfBit(bit: nat, weight: nat)
    requires bit <= 1
    ensures Flag(bit == 1, weight) == weight * bit
    ensures Flag(!(bit == 0), weight) == weight * bit
  {
  }

  lemma Rex2Payload(b: byte)
    ensures b == Flag(b / 128 == 1, 128) + Flag(b / 64 % 2 == 1, 64) + Flag(b / 32 % 2 == 1, 32)
                 + Flag(b / 16 % 2 == 1, 16) + Flag(b / 8 % 2 == 1, 8) + Flag(b / 4 % 2 == 1, 4)
                 + Flag(b / 2 % 2 == 1, 2) + b % 2
  {
    Bits(b);
    FlagOfBit(b / 128, 128);
    FlagOfBit(b / 64 % 2, 64);
    FlagOfBit(b / 32 % 2, 32);
    FlagOfBit(b / 16 % 2, 16);
    FlagOfBit(b / 8 % 2, 8);
    FlagOfBit(b / 4 % 2, 4);
    FlagOfBit(b / 2 % 2, 2);
  }

  /** R, X and B, inverted, over the low five bits. */
  lemma InvertedRxb(b: byte)
    ensures b == Flag(!(b / 128 == 0), 128) + Flag(!(b / 64 % 2 == 0), 64) + Flag(!(b / 32 % 2 == 0), 32) + b % 32
    ensures b % 32 == 16 * (b / 16 % 2) + 4 * (b / 4 % 4) + b % 4
  {
    Bits(b);
    FlagOfBit(b / 128, 128);
    FlagOfBit(b / 64 % 2, 64);
    FlagOfBit(b / 32 % 2, 32);
  }

  /** One flag, then vvvv, one bit and pp. */
  lemma FlagVvvvPp(b: byte)
    ensures b == Flag(b / 128 == 1, 128) + 8 * (b / 8 % 16) + 4 * (b / 4 % 2) + b % 4
    ensures Flag(b / 128 == 1, 128) == Flag(!(b / 128 == 0), 128)
  {
    Bits(b);
    FlagOfBit(b / 128, 128);
  }

  lemma EvexThird(b: byte)
    ensures b == 128 * (b / 128) + 32 * (b / 32 % 4) + 16 * (b / 16 % 2) + 8 * (b / 8 % 2) + b % 8
  {
    Bits(b);
  }

  lemma Vex2Conserved(c: Context, b1: byte)
    ensures HeadValues(DecodeVex2(c, b1), Vex2Form)[1] == b1
  {
    FlagVvvvPp(b1);
  }

  lemma Vex3Conserved(c: Context, b1: byte, b2: byte)
    requires DecodeVex3(c, b1, b2).Ok?
    ensures HeadValues(DecodeVex3(c, b1, b2).value, Vex3Form)[1] == b1
    ensures HeadValues(DecodeVex3(c, b1, b2).value, Vex3Form)[2] == b2
  {
    InvertedRxb(b1);
    FlagVvvvPp(b2);
  }

  lemma EvexConserved(c: Context, p1: byte, p2: byte, p3: byte)
    requires DecodeEvexPayload(c, p1, p2, p3).Ok?
    ensures var v := HeadValues(DecodeEvexPayload(c, p1, p2, p3).value, EvexForm(p1 / 4 % 4, p2 / 4 % 2));
      v[1] == p1 && v[2] == p2 && v[3] == p3
  {
    InvertedRxb(p1);
    FlagVvvvPp(p2);
    EvexThird(p3);
  }

  lemma Rex2Conserved(buf: seq<byte>, c: Context)
    requires c.offset < |buf| && buf[c.offset] == 0xD5 && DecodeRex2(buf, c).Ok? && c.opcodeMap == 0
    ensures HeadValues(DecodeRex2(buf, c).value, Rex2Form) == buf[c.offset..c.offset + 3]
  {
    hide Flag;
    var b := buf[c.offset + 1];
    Rex2Payload(b);
    assert DecodeRex2(buf, c).value.opcodeMap == b % 2;
  }

  /** A vector head is its prefix followed by the opcode byte. */
  lemma VectorHeadSplits(mode: MachineMode, buf: seq<byte>, p: Context, h: Context)
    requires p.offset < |buf| && !p.vex.present && !p.evex.present
    requires DecodeHead(mode, buf, p) == Ok(h) && (h.vex.present || h.evex.present)
    ensures var v := if buf[p.offset] == 0x62 then DecodeEVEX(mode, buf, p) else DecodeVEX(mode, buf, p);
      && buf[p.offset] in {0xC5, 0xC4, 0x62}
      && h.evex.present == (buf[p.offset] == 0x62) && h.vex.present == !h.evex.present
      && h.rex2 == p.rex2
      && v.Ok? && v.value.offset < |buf|
      && h == v.value.(opcode := buf[v.value.offset], offset := v.value.offset + 1, opcodeMap := v.value.vex.mmmmm)
  {
  }

  lemma VexHeadConserved(mode: MachineMode, buf: seq<byte>, p: Context, v: Context, h: Context)
    requires p.offset < |buf| && buf[p.offset] in {0xC5, 0xC4} && !p.vex.present
    requires DecodeVEX(mode, buf, p) == Ok(v) && v.vex.present && v.offset < |buf|
    requires h == v.(opcode := buf[v.offset], offset := v.offset + 1, opcodeMap := v.vex.mmmmm)
    ensures p.offset <= h.offset <= |buf|
    ensures HeadValues(h, if buf[p.offset] == 0xC5 then Vex2Form else Vex3Form) == buf[p.offset..h.offset]
  {
    hide Flag;
    var k := p.offset;
    if buf[k] == 0xC5 {
      Vex2Conserved(p, buf[k + 1]);
      assert v == DecodeVex2(p, buf[k + 1]);
      assert HeadValues(h, Vex2Form)[1] == HeadValues(v, Vex2Form)[1];
    } else {
      Vex3Conserved(p, buf[k + 1], buf[k + 2]);
      assert Ok(v) == DecodeVex3(p, buf[k + 1], buf[k + 2]);
      assert HeadValues(h, Vex3Form)[1..3] == HeadValues(v, Vex3Form)[1..3];
    }
  }

  lemma EvexHeadConserved(mode: MachineMode, buf: seq<byte>, p: Context, v: Context, h: Context)
    requires p.offset < |buf| && buf[p.offset] == 0x62 && !p.evex.present
    requires DecodeEVEX(mode, buf, p) == Ok(v) && v.evex.present && v.offset < |buf|
    requires h == v.(opcode := buf[v.offset], offset := v.offset + 1, opcodeMap := v.vex.mmmmm)
    ensures p.offset + 4 < h.offset <= |buf|
    ensures HeadValues(h, EvexForm(buf[p.offset + 1] / 4 % 4, buf[p.offset + 2] / 4 % 2)) == buf[p.offset..h.offset]
  {
    hide HeadValues, DecodeEvexPayload;
    var k := p.offset;
    var form := EvexForm(buf[k + 1] / 4 % 4, buf[k + 2] / 4 % 2);
    EvexPayload(mode, buf, p);
    EvexConserved(p, buf[k + 1], buf[k + 2], buf[k + 3]);
    VectorValues(v, h, form);
    assert HeadValues(h, form)[1..4] == HeadValues(v, form)[1..4];
  }

  /** EVEX is its payload, four bytes long. */
  lemma EvexPayload(mode: MachineMode, buf: seq<byte>, p: Context)
    requires p.offset < |buf| && !p.evex.present && DecodeEVEX(mode, buf, p).Ok? && DecodeEVEX(mode, buf, p).value.evex.present
    ensures p.offset + 3 < |buf| && DecodeEVEX(mode, buf, p).value.offset == p.offset + 4
    ensures DecodeEVEX(mode, buf, p)
         == DecodeEvexPayload(p, buf[p.offset + 1], buf[p.offset + 2], buf[p.offset + 3])
  {
  }

  /** The opcode byte comes last; the bytes before it do not depend on it. */
  lemma VectorValues(v: Context, h: Context, form: HeadForm)
    requires form.EvexForm? && h == v.(opcode := h.opcode, offset := h.offset, opcodeMap := h.opcodeMap)
    ensures |HeadValues(h, form)| == |HeadValues(v, form)| == 5
    ensures HeadValues(h, form)[..4] == HeadValues(v, form)[..4]
    ensures HeadValues(h, form)[0] == 0x62 && HeadValues(h, form)[4] == h.opcode
  {
    hide Flag;
  }

  /** Any other head but REX2 is an escape and an opcode byte. */
  lemma LegacyHeadSplits(mode: MachineMode, buf: seq<byte>, p: Context, h: Context)
    requires p.offset < |buf| && buf[p.offset] != 0xD5 && !p.vex.present && !p.evex.present && !p.rex2.present
    requires DecodeHead(mode, buf, p) == Ok(h) && !h.vex.present && !h.evex.present
    ensures DecodeOpcode(buf, p) == Ok(h) && !h.rex2.present
  {
  }

  lemma LegacyHeadConserved(buf: seq<byte>, p: Context)
    requires DecodeOpcode(buf, p).Ok?
    ensures var h := DecodeOpcode(buf, p).value;
      p.offset <= h.offset <= |buf| && HeadValues(h, LegacyForm) == buf[p.offset..h.offset]
  {
  }

  lemma HeadConserved(mode: MachineMode, buf: seq<byte>, p: Context, h: Context)
    requires p.offset < |buf| && !p.vex.present && !p.evex.present && !p.rex2.present && p.opcodeMap == 0
    requires DecodeHead(mode, buf, p) == Ok(h)
    ensures p.offset <= h.offset <= |buf|
    ensures HeadValues(h, FormOf(buf, p, h)) == buf[p.offset..h.offset]
  {
    hide HeadValues, DecodeVEX, DecodeEVEX;
    if h.vex.present || h.evex.present {
      VectorHeadSplits(mode, buf, p, h);
      if h.evex.present {
        EvexHeadConserved(mode, buf, p, DecodeEVEX(mode, buf, p).value, h);
      } else {
        VexHeadConserved(mode, buf, p, DecodeVEX(mode, buf, p).value, h);
      }
    } else if buf[p.offset] == 0xD5 {
      Rex2Conserved(buf, p);
    } else {
      LegacyHeadSplits(mode, buf, p, h);
      LegacyHeadConserved(buf, p);
    }
  }

  // ---------------------------------------------------------------- the head determines its fields

  /** The fields of a head fit their bits. */
  predicate HeadRange(c: Context, form: HeadForm) {
    match form
    case LegacyForm => c.opcodeMap <= 3
    case Rex2Form => c.opcodeMap <= 1
    case Vex2Form => c.vex.vvvv < 16 && c.vex.l < 2 && c.vex.pp < 4
    case Vex3Form => c.vex.mmmmm < 32 && c.vex.vvvv < 16 && c.vex.l < 2 && c.vex.pp < 4
    case EvexForm(k, m) =>
      && k < 4 && m < 2
      && c.vex.mmmmm < 4 && c.vex.vvvv < 16 && c.vex.pp < 4
      && c.evex.z < 2 && c.evex.ll < 4 && c.evex.b < 2 && c.evex.v2 < 2 && c.evex.r2 < 2 && c.evex.aaa < 8
  }

  /** Two contexts agree on every field that a head carries. */
  predicate SameHead(c: Context, d: Context, form: HeadForm) {
    c.opcode == d.opcode &&
    match form
    case LegacyForm => c.opcodeMap == d.opcodeMap
    case Rex2Form =>
      && c.opcodeMap == d.opcodeMap
      && c.rex.w == d.rex.w && c.rex.r == d.rex.r && c.rex.x == d.rex.x && c.rex.b == d.rex.b
      && c.rex2.r4 == d.rex2.r4 && c.rex2.x4 == d.rex2.x4 && c.rex2.b4 == d.rex2.b4
    case Vex2Form =>
      c.rex.r == d.rex.r && c.vex.vvvv == d.vex.vvvv && c.vex.l == d.vex.l && c.vex.pp == d.vex.pp
    case Vex3Form =>
      && c.rex.r == d.rex.r && c.rex.x == d.rex.x && c.rex.b == d.rex.b && c.vex.mmmmm == d.vex.mmmmm
      && c.vex.w == d.vex.w && c.vex.vvvv == d.vex.vvvv && c.vex.l == d.vex.l && c.vex.pp == d.vex.pp
    case EvexForm(_, _) =>
      && c.rex.r == d.rex.r && c.rex.x == d.rex.x && c.rex.b == d.rex.b && c.vex.mmmmm == d.vex.mmmmm
      && c.vex.w == d.vex.w && c.vex.vvvv == d.vex.vvvv && c.vex.pp == d.vex.pp
      && c.evex.z == d.evex.z && c.evex.ll == d.evex.ll && c.evex.b == d.evex.b
      && c.evex.v2 == d.evex.v2 && c.evex.r2 == d.evex.r2 && c.evex.aaa == d.evex.aaa
  }

  lemma TopFlag(f: bool, g: bool, weight: nat, x: nat, y: nat)
    requires x < weight && y < weight && Flag(f, weight) + x == Flag(g, weight) + y
    ensures f == g && x == y
  {
  }

  lemma ThreeFlags(f1: bool, f2: bool, f3: bool, x: nat, g1: bool, g2: bool, g3: bool, y: nat)
    requires x < 32 && y < 32
    requires Flag(f1, 128) + Flag(f2, 64) + Flag(f3, 32) + x == Flag(g1, 128) + Flag(g2, 64) + Flag(g3, 32) + y
    ensures f1 == g1 && f2 == g2 && f3 == g3 && x == y
  {
    TopFlag(f1, g1, 128, Flag(f2, 64) + Flag(f3, 32) + x, Flag(g2, 64) + Flag(g3, 32) + y);
    TopFlag(f2, g2, 64, Flag(f3, 32) + x, Flag(g3, 32) + y);
    TopFlag(f3, g3, 32, x, y);
  }

  lemma FourFlags(f1: bool, f2: bool, f3: bool, f4: bool, x: nat, g1: bool, g2: bool, g3: bool, g4: bool, y: nat)
    requires x < 2 && y < 2
    requires Flag(f1, 16) + Flag(f2, 8) + Flag(f3, 4) + Flag(f4, 2) + x
          == Flag(g1, 16) + Flag(g2, 8) + Flag(g3, 4) + Flag(g4, 2) + y
    ensures f1 == g1 && f2 == g2 && f3 == g3 && f4 == g4 && x == y
  {
    TopFlag(f1, g1, 16, Flag(f2, 8) + Flag(f3, 4) + Flag(f4, 2) + x, Flag(g2, 8) + Flag(g3, 4) + Flag(g4, 2) + y);
    TopFlag(f2, g2, 8, Flag(f3, 4) + Flag(f4, 2) + x, Flag(g3, 4) + Flag(g4, 2) + y);
    TopFlag(f3, g3, 4, Flag(f4, 2) + x, Flag(g4, 2) + y);
    TopFlag(f4, g4, 2, x, y);
  }

  /** A flag, vvvv, one bit and pp. */
  lemma FlagVvvv(f: bool, v: nat, l: nat, pp: nat, g: bool, w: nat, m: nat, qq: nat)
    requires v < 16 && w < 16 && l < 2 && m < 2 && pp < 4 && qq < 4
    requires Flag(f, 128) + 8 * (15 - v) + 4 * l + pp == Flag(g, 128) + 8 * (15 - w) + 4 * m + qq
    ensures f == g && v == w && l == m && pp == qq
  {
    TopFlag(f, g, 128, 8 * (15 - v) + 4 * l + pp, 8 * (15 - w) + 4 * m + qq);
  }

  lemma SevenFlags(f1: bool, f2: bool, f3: bool, f4: bool, f5: bool, f6: bool, f7: bool, x: nat,
                   g1: bool, g2: bool, g3: bool, g4: bool, g5: bool, g6: bool, g7: bool, y: nat)
    requires x < 2 && y < 2
    requires Flag(f1, 128) + Flag(f2, 64) + Flag(f3, 32) + Flag(f4, 16) + Flag(f5, 8) + Flag(f6, 4) + Flag(f7, 2) + x
          == Flag(g1, 128) + Flag(g2, 64) + Flag(g3, 32) + Flag(g4, 16) + Flag(g5, 8) + Flag(g6, 4) + Flag(g7, 2) + y
    ensures f1 == g1 && f2 == g2 && f3 == g3 && f4 == g4 && f5 == g5 && f6 == g6 && f7 == g7 && x == y
  {
    hide Flag;
    FlagsBelow(f4, f5, f6, f7, x);
    FlagsBelow(g4, g5, g6, g7, y);
    ThreeFlags(f1, f2, f3, Flag(f4, 16) + Flag(f5, 8) + Flag(f6, 4) + Flag(f7, 2) + x,
               g1, g2, g3, Flag(g4, 16) + Flag(g5, 8) + Flag(g6, 4) + Flag(g7, 2) + y);
    FourFlags(f4, f5, f6, f7, x, g4, g5, g6, g7, y);
  }

  lemma Rex2Unique(c: Context, d: Context)
    requires HeadRange(c, Rex2Form) && HeadRange(d, Rex2Form) && HeadValues(c, Rex2Form) == HeadValues(d, Rex2Form)
    ensures SameHead(c, d, Rex2Form)
  {
    hide Flag;
    var v, w := HeadValues(c, Rex2Form), HeadValues(d, Rex2Form);
    assert v[1] == w[1] && v[2] == w[2];
    SevenFlags(c.rex.w, c.rex.r, c.rex.x, c.rex.b, c.rex2.r4, c.rex2.x4, c.rex2.b4, c.opcodeMap,
               d.rex.w, d.rex.r, d.rex.x, d.rex.b, d.rex2.r4, d.rex2.x4, d.rex2.b4, d.opcodeMap);
  }

  lemma FlagsBelow(f1: bool, f2: bool, f3: bool, f4: bool, x: nat)
    requires x < 2
    ensures Flag(f1, 16) + Flag(f2, 8) + Flag(f3, 4) + Flag(f4, 2) + x < 32
  {
  }

  lemma VexUnique(c: Context, d: Context, form: HeadForm)
    requires form.Vex2Form? || form.Vex3Form?
    requires HeadRange(c, form) && HeadRange(d, form) && HeadValues(c, form) == HeadValues(d, form)
    ensures SameHead(c, d, form)
  {
    hide Flag;
    var v, w := HeadValues(c, form), HeadValues(d, form);
    assert v[1] == w[1] && v[2] == w[2] && v[|v| - 1] == w[|w| - 1];
    if form.Vex2Form? {
      FlagVvvv(!c.rex.r, c.vex.vvvv, c.vex.l, c.vex.pp, !d.rex.r, d.vex.vvvv, d.vex.l, d.vex.pp);
    } else {
      ThreeFlags(!c.rex.r, !c.rex.x, !c.rex.b, c.vex.mmmmm, !d.rex.r, !d.rex.x, !d.rex.b, d.vex.mmmmm);
      FlagVvvv(c.vex.w, c.vex.vvvv, c.vex.l, c.vex.pp, d.vex.w, d.vex.vvvv, d.vex.l, d.vex.pp);
    }
  }

  lemma EvexUnique(c: Context, d: Context, form: HeadForm)
    requires form.EvexForm?
    requires HeadRange(c, form) && HeadRange(d, form) && HeadValues(c, form) == HeadValues(d, form)
    ensures SameHead(c, d, form)
  {
    hide Flag;
    var v, w := HeadValues(c, form), HeadValues(d, form);
    assert v[1] == w[1] && v[2] == w[2] && v[3] == w[3] && v[4] == w[4];
    var k, m := form.reserved1, form.reserved2;
    ThreeFlags(!c.rex.r, !c.rex.x, !c.rex.b, 16 * (1 - c.evex.r2) + 4 * k + c.vex.mmmmm,
               !d.rex.r, !d.rex.x, !d.rex.b, 16 * (1 - d.evex.r2) + 4 * k + d.vex.mmmmm);
    FlagVvvv(c.vex.w, c.vex.vvvv, m, c.vex.pp, d.vex.w, d.vex.vvvv, m, d.vex.pp);
  }

  /** The bytes of a head determine every field they carry. */
  lemma HeadUnique(c: Context, d: Context, form: HeadForm)
    requires HeadRange(c, form) && HeadRange(d, form) && HeadValues(c, form) == HeadValues(d, form)
    ensures SameHead(c, d, form)
  {
    match form
    case LegacyForm => LegacyUnique(c, d);
    case Rex2Form => Rex2Unique(c, d);
    case Vex2Form => VexUnique(c, d, form);
    case Vex3Form => VexUnique(c, d, form);
    case EvexForm(_, _) => EvexUnique(c, d, form);
  }

  lemma LegacyUnique(c: Context, d: Context)
    requires c.opcodeMap <= 3 && d.opcodeMap <= 3 && HeadValues(c, LegacyForm) == HeadValues(d, LegacyForm)
    ensures SameHead(c, d, LegacyForm)
  {
    var v, w := HeadValues(c, LegacyForm), HeadValues(d, LegacyForm);
    assert v[|v| - 1] == w[|w| - 1];
    if |v| == 3 {
      assert v[1] == w[1];
    }
  }

  lemma HeadInRange(mode: MachineMode, buf: seq<byte>, p: Context, h: Context)
    requires p == RESET.(offset := p.offset, prefixCount := p.offset, legacy := p.legacy, rex := p.rex)
    requires p.offset < |buf| && DecodeHead(mode, buf, p) == Ok(h)
    ensures HeadRange(h, FormOf(buf, p, h))
  {
    if h.vex.present || h.evex.present {
      VectorHeadSplits(mode, buf, p, h);
    }
  }

  // ---------------------------------------------------------------- displacement and immediate

  function Modulus(size: nat): nat {
    if size == 0 then 1 else 256 * Modulus(size - 1)
  }

  /** The low bytes of a value, least significant first. */
  function LowBytes(value: int, size: nat): seq<int>
    decreases size
  {
    if size == 0 then [] else [value % 256] + LowBytes(value / 256, size - 1)
  }

  lemma {:induction false} LowBytesOfLittleEndian(buf: seq<byte>, off: nat, n: nat)
    requires off + n <= |buf|
    ensures LowBytes(LittleEndian(buf, off, n), n) == buf[off..off + n]
    decreases n
  {
    if n > 0 {
      LowBytesOfLittleEndian(buf, off + 1, n - 1);
    }
  }

  /** Taking away a multiple of the modulus changes no byte. */
  lemma {:induction false} LowBytesModulo(value: int, n: nat)
    ensures LowBytes(value - Modulus(n), n) == LowBytes(value, n)
    decreases n
  {
    if n > 0 {
      assert (value - Modulus(n)) % 256 == value % 256;
      assert (value - Modulus(n)) / 256 == value / 256 - Modulus(n - 1);
      LowBytesModulo(value / 256, n - 1);
    }
  }

  lemma DisplacementConserved(buf: seq<byte>, off: nat, size: nat)
    requires ReadDisplacement(buf, off, size).Ok? && off <= |buf|
    ensures off + size <= |buf|
    ensures LowBytes(ReadDisplacement(buf, off, size).value, size) == buf[off..off + size]
  {
    if size > 0 {
      LowBytesOfLittleEndian(buf, off, size);
      LowBytesModulo(LittleEndian(buf, off, size), size);
      ModulusValues();
    }
  }

  lemma ModulusValues()
    ensures Modulus(1) == 0x100 && Modulus(2) == 0x1_0000 && Modulus(3) == 0x100_0000
    ensures Modulus(4) == 0x1_0000_0000
    ensures Modulus(8) == 0x1_0000_0000_0000_0000
  {
    assert Modulus(3) == 0x100_0000;
    assert Modulus(5) == 256 * Modulus(4);
    assert Modulus(6) == 256 * Modulus(5);
    assert Modulus(7) == 256 * Modulus(6);
  }

  lemma ImmediateConserved(buf: seq<byte>, off: nat, size: nat)
    requires ReadImmediate(buf, off, size).Ok? && off <= |buf|
    ensures off + size <= |buf|
    ensures LowBytes(ReadImmediate(buf, off, size).value, size) == buf[off..off + size]
  {
    if size > 0 {
      LowBytesOfLittleEndian(buf, off, size);
      LowBytesModulo(LittleEndian(buf, off, size), size);
      ModulusValues();
    }
  }

  // ---------------------------------------------------------------- the whole instruction

  /** ModRM and SIB. */
  function AddressingValues(c: Context): seq<int> {
    (if c.hasModRM then [c.modrm] else []) + (if c.hasSIB then [c.sib] else [])
  }

  /** The REX byte, if there is one. */
  function RexBytes(rex: Rex): seq<int> { if rex.present then [RexValue(rex)] else [] }

  /** Encodes what was decoded, after the given legacy prefixes and REX bits. */
  function Encode(prefixes: seq<byte>, rex: Rex, form: HeadForm, s: Streamed): seq<int> {
    prefixes
    + RexBytes(rex)
    + HeadValues(s.ctx, form)
    + AddressingValues(s.ctx)
    + LowBytes(s.displacement, DisplacementSize(s.ctx))
    + LowBytes(s.immediate, ImmediateSize(s.ctx))
  }

  lemma Glue(buf: seq<int>, p: nat, h: nat, c: nat, d: nat, e: nat)
    requires p <= h <= c <= d <= e <= |buf|
    ensures buf[..p] + buf[p..h] + buf[h..c] + buf[c..d] + buf[d..e] == buf[..e]
  {
    assert buf[..p] + buf[p..h] == buf[..h];
    assert buf[..h] + buf[h..c] == buf[..c];
    assert buf[..c] + buf[c..d] == buf[..d];
    assert buf[..d] + buf[d..e] == buf[..e];
  }

  lemma AddressingConserved(buf: seq<byte>, h: Context, c: Context, s: Streamed)
    requires AddressingBytes(buf, h, c) && c.offset <= |buf| && (c.hasSIB ==> c.hasModRM)
    requires s.ctx == c.(offset := s.ctx.offset)
    ensures AddressingValues(s.ctx) == buf[h.offset..c.offset]
  {
  }

  lemma TailConserved(mode: MachineMode, buf: seq<byte>, h: Context, c: Context, s: Streamed)
    requires AddressingBytes(buf, h, c) && TailShape(buf, c, s) && c.offset <= |buf| && (c.hasSIB ==> c.hasModRM)
    ensures AddressingValues(s.ctx) == buf[h.offset..c.offset]
    ensures c.offset + DisplacementSize(s.ctx) <= s.ctx.offset <= |buf|
    ensures LowBytes(s.displacement, DisplacementSize(s.ctx)) == buf[c.offset..c.offset + DisplacementSize(s.ctx)]
    ensures LowBytes(s.immediate, ImmediateSize(s.ctx)) == buf[c.offset + DisplacementSize(s.ctx)..s.ctx.offset]
  {
    hide DisplacementSize, ImmediateSize, ReadDisplacement, ReadImmediate, LowBytes, AddressingValues;
    AddressingConserved(buf, h, c, s);
    var d := DisplacementSize(c);
    DisplacementConserved(buf, c.offset, d);
    ImmediateConserved(buf, c.offset + d, ImmediateSize(c));
  }

  /** Later phases leave the fields of the head alone. */
  lemma HeadValuesKept(mode: MachineMode, h: Context, c: Context, s: Streamed, form: HeadForm)
    requires ContextShape(mode, h, c) && s.ctx == c.(offset := s.ctx.offset)
    ensures HeadValues(s.ctx, form) == HeadValues(h, form)
  {
  }

  lemma ConservedAt(mode: MachineMode, buf: seq<byte>, k: nat, p: Context, h: Context, c: Context, s: Streamed, form: HeadForm)
    requires Stages(mode, buf, p, h, c, s) && k <= p.offset && h.offset <= |buf|
    requires RexBytes(p.rex) == buf[k..p.offset]
    requires HeadValues(h, form) == buf[p.offset..h.offset]
    ensures Encode(buf[..k], p.rex, form, s) == buf[..s.ctx.offset]
  {
    hide DisplacementSize, ImmediateSize, ReadDisplacement, ReadImmediate, LowBytes, HeadValues, AddressingValues, RexBytes;
    TailConserved(mode, buf, h, c, s);
    HeadValuesKept(mode, h, c, s, form);
    assert buf[..k] + buf[k..p.offset] == buf[..p.offset];
    Glue(buf, p.offset, h.offset, c.offset, c.offset + DisplacementSize(s.ctx), s.ctx.offset);
  }

  /** The values of a field of this many bytes: two's complement, but for the three bytes of
      ENTER, which are unsigned; an absent field is zero. */
  predicate FieldRange(value: int, size: nat) {
    if size == 0 then value == 0
    else if size == 3 then 0 <= value < 0x100_0000
    else 0 <= 2 * value + Modulus(size) < 2 * Modulus(size)
  }

  lemma {:induction false} UnsignedUnique(v: nat, w: nat, n: nat)
    requires v < Modulus(n) && w < Modulus(n) && LowBytes(v, n) == LowBytes(w, n)
    ensures v == w
    decreases n
  {
    if n > 0 {
      var bv, bw := LowBytes(v, n), LowBytes(w, n);
      assert bv[0] == bw[0] && bv[1..] == LowBytes(v / 256, n - 1) && bw[1..] == LowBytes(w / 256, n - 1);
      UnsignedUnique(v / 256, w / 256, n - 1);
    }
  }

  /** The unsigned value with the same low bytes. */
  function Unsigned(v: int, n: nat): int { if v < 0 then v + Modulus(n) else v }

  lemma UnsignedBytes(v: int, n: nat)
    ensures LowBytes(Unsigned(v, n), n) == LowBytes(v, n)
  {
    LowBytesModulo(v + Modulus(n), n);
  }

  /** The bytes of a field determine its value. */
  lemma FieldUnique(v: int, w: int, n: nat)
    requires FieldRange(v, n) && FieldRange(w, n) && LowBytes(v, n) == LowBytes(w, n)
    ensures v == w
  {
    hide LowBytes;
    ModulusValues();
    UnsignedBytes(v, n);
    UnsignedBytes(w, n);
    if n > 0 {
      UnsignedUnique(Unsigned(v, n), Unsigned(w, n), n);
    }
  }

  lemma FieldsInRange(buf: seq<byte>, c: Context, s: Streamed)
    requires TailShape(buf, c, s)
    ensures FieldRange(s.displacement, DisplacementSize(s.ctx)) && FieldRange(s.immediate, ImmediateSize(s.ctx))
  {
    hide DisplacementSize, ImmediateSize, FieldRange, ReadDisplacement, ReadImmediate;
    var d, i := DisplacementSize(c), ImmediateSize(c);
    DisplacementFieldRange(buf, c.offset, d);
    ImmediateFieldRange(buf, c.offset + d, i);
  }

  lemma DisplacementFieldRange(buf: seq<byte>, off: nat, size: nat)
    requires ReadDisplacement(buf, off, size).Ok?
    ensures FieldRange(ReadDisplacement(buf, off, size).value, size)
  {
    ModulusValues();
    if size > 0 {
      LittleEndianBound(buf, off, size);
    }
  }

  lemma ImmediateFieldRange(buf: seq<byte>, off: nat, size: nat)
    requires ReadImmediate(buf, off, size).Ok?
    ensures FieldRange(ReadImmediate(buf, off, size).value, size)
  {
    ModulusValues();
    if size > 0 {
      LittleEndianBound(buf, off, size);
    }
  }

  /** The form of the head of an accepted instruction. */
  function AcceptedForm(mode: MachineMode, buf: seq<byte>): HeadForm
    requires Decode(mode, buf).Ok?
  {
    Accepted(mode, buf);
    var p := Prefixed(mode, buf);
    FormOf(buf, p, DecodeHead(mode, buf, p).value)
  }

  /** The REX byte after the legacy prefixes is the encoding of the bits that were read. */
  lemma RexConserved(mode: MachineMode, buf: seq<byte>)
    ensures var k, p := LegacyEnd(buf, 0), Prefixed(mode, buf);
      k <= p.offset <= |buf| && RexBytes(p.rex) == buf[k..p.offset]
  {
    hide ScanPrefixes, Meaning, RexValue;
    var k := ScanMeaning(mode, buf);
  }

  /** Byte conservation: legacy prefixes, REX, head, ModRM, SIB, displacement and immediate, encoded
      again from the decoded fields, are exactly the bytes of the instruction. The bits of REX, the
      fields of the head, the displacement and the immediate are the only ones in range with those
      bytes (RexUnique, HeadUnique, FieldUnique), and without REX2, VEX or EVEX the bits of REX are
      those of the result. */
  lemma ByteConservation(mode: MachineMode, buf: seq<byte>)
    requires Decode(mode, buf).Ok?
    ensures var s, form := Decode(mode, buf).value, AcceptedForm(mode, buf);
      var k, rex := LegacyEnd(buf, 0), Prefixed(mode, buf).rex;
      && k <= s.ctx.offset <= |buf|
      && Encode(buf[..k], rex, form, s) == buf[..s.ctx.offset]
      && (form == LegacyForm ==> s.ctx.rex == rex)
      && HeadRange(s.ctx, form)
      && FieldRange(s.displacement, DisplacementSize(s.ctx))
      && FieldRange(s.immediate, ImmediateSize(s.ctx))
    ensures var c := Decode(mode, buf).value.ctx;
      LegacyEnd(buf, 0) + |RexBytes(Prefixed(mode, buf).rex)| + |HeadValues(c, AcceptedForm(mode, buf))|
      + |AddressingValues(c)| + DisplacementSize(c) + ImmediateSize(c) == c.offset
  {
    hide Drive, DecodeHead, ScanPrefixes, Encode, HeadValues, DisplacementSize, ImmediateSize, FieldRange, RexBytes, LegacyEnd;
    var p, h, c, s := Run(mode, buf);
    Accepted(mode, buf);
    RexConserved(mode, buf);
    HeadConserved(mode, buf, p, h);
    HeadInRange(mode, buf, p, h);
    var form := FormOf(buf, p, h);
    ConservedAt(mode, buf, LegacyEnd(buf, 0), p, h, c, s, form);
    FieldsInRange(buf, c, s);
    HeadValuesKept(mode, h, c, s, form);
    EvexIsLong(mode, buf, p, h);
  }

  /** An EVEX head has its payload in the buffer, so its form is EvexForm. */
  lemma EvexIsLong(mode: MachineMode, buf: seq<byte>, p: Context, h: Context)
    requires !p.evex.present && !p.vex.present && p.offset < |buf| && DecodeHead(mode, buf, p) == Ok(h)
    ensures h.evex.present ==> p.offset + 2 < |buf|
  {
  }
}
