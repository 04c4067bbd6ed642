/** When the decoder looks past the instruction it accepts, told from the bytes alone. */
module Lookahead {
  import opened Types
  import opened Stream
  import opened Locality
  import opened Shape
  import opened Prefixes
  import opened Raw

  /** The bytes at k read as VEX or EVEX outside 64-bit mode: C4 with a register form of ModRM, 62
      with the reserved bits that EVEX fixes. */
  predicate ReadsAsVector(buf: seq<byte>, k: nat)
    requires k + 2 < |buf|
  {
    if buf[k] == 0xC4 then buf[k + 1] / 64 == 3
    else buf[k + 1] / 4 % 4 == 0 && buf[k + 2] / 4 % 2 == 1
  }

  /** The guard: LES without SIB and displacement, or BOUND with at most one byte of them, outside
      64-bit mode. */
  predicate LooksPast(mode: MachineMode, buf: seq<byte>) {
    var k := LegacyEnd(buf, 0);
    && mode != Long64
    && k + 2 < |buf| && (buf[k] == 0xC4 || buf[k] == 0x62) && !ReadsAsVector(buf, k)
    && FormTail(PrefixAddressWidth(mode, buf[..k]) == 16, buf[k + 1], buf[k + 2]) <= if buf[k] == 0xC4 then 0 else 1
  }

  /** C4 and 62 that are no vector prefix are one-byte opcodes; as vector prefixes they lead to
      another opcode map. */
  lemma LeadByte(mode: MachineMode, buf: seq<byte>, p: Context, h: Context)
    requires mode != Long64 && !p.vex.present && !p.evex.present
    requires p.offset < |buf| && (buf[p.offset] == 0xC4 || buf[p.offset] == 0x62)
    requires DecodeHead(mode, buf, p) == Ok(h)
    ensures p.offset + 2 < |buf|
    ensures !ReadsAsVector(buf, p.offset) ==> h == p.(opcodeMap := 0, opcode := buf[p.offset], offset := p.offset + 1)
    ensures ReadsAsVector(buf, p.offset) ==> h.opcodeMap >= 1
  {
  }

  /** How long LES and BOUND are. */
  lemma FormLength(mode: MachineMode, buf: seq<byte>, p: Context, h: Context, c: Context, s: Streamed)
    requires Stages(mode, buf, p, h, c, s)
    requires h.opcodeMap == 0 && (h.opcode == 0xC4 || h.opcode == 0x62)
    ensures h.offset < |buf| && s.ctx.offset == h.offset + 1 + FormTail(c.addressWidth == 16, buf[h.offset], At(buf, h.offset + 1))
  {
  }

  /** The guard tells exactly when the decoder looks past an accepted instruction. */
  lemma LooksPastExact(mode: MachineMode, a: seq<byte>)
    requires Decode(mode, a).Ok?
    ensures LooksPast(mode, a) <==> Decode(mode, a).value.ctx.offset < Examined(mode, a)
  {
    hide Drive, DecodeHead, ScanPrefixes, FormTail, ReadsAsVector;
    ExaminedBound(mode, a);
    if mode != Long64 {
      Accepted(mode, a);
      var p, h, c, s := Run(mode, a);
      var k := ScanMeaning(mode, a);
      AddressWidthMeaning(mode, a);
      assert p.offset == k;
      if a[k] == 0xC4 || a[k] == 0x62 {
        LeadByte(mode, a, p, h);
        if !ReadsAsVector(a, k) {
          FormLength(mode, a, p, h, c, s);
        }
      }
    }
  }

  /** In every mode the bytes of an accepted instruction decide the result exactly when the guard
      does not hold of the input. */
  lemma LocalityExact(mode: MachineMode, a: seq<byte>)
    requires Decode(mode, a).Ok?
    ensures (forall b :: Same(a, b, 0, Decode(mode, a).value.ctx.offset) ==> Decode(mode, b) == Decode(mode, a))
            <==> !LooksPast(mode, a)
  {
    hide Drive, LooksPast;
    ExaminedBound(mode, a);
    LooksPastExact(mode, a);
    LocalityByExamined(mode, a);
  }
}
