/** Locality and stability of the complete result: the instruction record and its operands. */
module Stability {
  import opened Types
  import opened Stream
  import opened Operands
  import opened Locality
  import opened Shape
  import opened Full

  // ---------------------------------------------------------------- where the displacement shows

  /** Whether the operands show the displacement that is read a second time. */
  predicate ShowsReread(c: Context) {
    UsesModRMPair(c) && High2(c.modrm) != 3 && ShowsDisplacement(c)
  }

  lemma PairShows(c: Context, d1: int, d2: int, regSize: nat, rmSize: nat, regIsDst: bool)
    ensures ModRMPair(c, d1, regSize, rmSize, regIsDst) == ModRMPair(c, d2, regSize, rmSize, regIsDst)
            <==> (High2(c.modrm) != 3 && ShowsDisplacement(c) ==> d1 == d2)
  {
    var p1, p2 := ModRMPair(c, d1, regSize, rmSize, regIsDst), ModRMPair(c, d2, regSize, rmSize, regIsDst);
    var k := if regIsDst then 1 else 0;
    assert p1[k] == RegOrMem(c, rmSize, d1) && p2[k] == RegOrMem(c, rmSize, d2);
  }

  lemma OneByteShows(mode: MachineMode, c: Context, d1: int, d2: int, imm: int)
    requires c.opcodeMap == 0
    ensures OperandList(mode, c, d1, imm) == OperandList(mode, c, d2, imm) <==> (ShowsReread(c) ==> d1 == d2)
    ensures |OperandList(mode, c, d1, imm)| == |OperandList(mode, c, d2, imm)|
  {
    var op := c.opcode;
    if op <= 0x3D && op % 8 <= 3 && c.hasModRM {
      var size := ByteOrWidth(op % 8 % 2 == 0, c);
      PairShows(c, d1, d2, size, size, op % 8 >= 2);
    } else if 0x84 <= op <= 0x8B && c.hasModRM {
      var size := ByteOrWidth(op % 2 == 0, c);
      PairShows(c, d1, d2, size, size, op >= 0x8A || op == 0x86 || op == 0x87);
    } else if 0x8C <= op <= 0x8E && c.hasModRM {
      PairShows(c, d1, d2, c.operandWidth, c.operandWidth, op != 0x8C);
    }
  }

  lemma TwoByteShows(c: Context, d1: int, d2: int, imm: int)
    requires c.opcodeMap == 1
    ensures TwoByteOperands(c, d1, imm) == TwoByteOperands(c, d2, imm) <==> (ShowsReread(c) ==> d1 == d2)
    ensures |TwoByteOperands(c, d1, imm)| == |TwoByteOperands(c, d2, imm)|
  {
    var op, width := c.opcode, c.operandWidth;
    PairShows(c, d1, d2, width,
              if op == 0xB6 || op == 0xBE then 8 else if op == 0xB7 || op == 0xBF then 16 else width, true);
  }

  lemma ThreeByteShows(c: Context, d1: int, d2: int, imm: int)
    requires c.opcodeMap in {2, 3}
    ensures ThreeByteOperands(c, d1, imm) == ThreeByteOperands(c, d2, imm) <==> (ShowsReread(c) ==> d1 == d2)
    ensures |ThreeByteOperands(c, d1, imm)| == |ThreeByteOperands(c, d2, imm)|
  {
    PairShows(c, d1, d2, 128, 128, true);
    if c.hasModRM {
      assert ThreeByteOperands(c, d1, imm)[..2] == ModRMPair(c, d1, 128, 128, true);
      assert ThreeByteOperands(c, d2, imm)[..2] == ModRMPair(c, d2, 128, 128, true);
    }
  }

  /** The operand list depends on the displacement exactly where it shows. */
  lemma ListShows(mode: MachineMode, c: Context, d1: int, d2: int, imm: int)
    requires c.opcodeMap <= 3
    ensures OperandList(mode, c, d1, imm) == OperandList(mode, c, d2, imm) <==> (ShowsReread(c) ==> d1 == d2)
    ensures |OperandList(mode, c, d1, imm)| == |OperandList(mode, c, d2, imm)|
  {
    if c.opcodeMap == 0 {
      OneByteShows(mode, c, d1, d2, imm);
    } else if c.opcodeMap == 1 {
      TwoByteShows(c, d1, d2, imm);
    } else {
      ThreeByteShows(c, d1, d2, imm);
    }
  }

  // ---------------------------------------------------------------- the window

  /** The four-byte window of a two-byte displacement leaves the buffer. */
  predicate Overreads(buf: seq<byte>, c: Context) {
    UsesModRMPair(c) && c.addressWidth == 16 && High2(c.modrm) == 2 && RereadOffset(c) + 4 > |buf|
  }

  lemma WindowInside(mode: MachineMode, buf: seq<byte>, p: Context, h: Context, c: Context, s: Streamed)
    requires Stages(mode, buf, p, h, c, s) && ShowsReread(s.ctx)
    ensures p.offset <= RereadOffset(s.ctx)
    ensures RereadOffset(s.ctx) + RereadSize(s.ctx) <= |buf| <==> !Overreads(buf, s.ctx)
    ensures c.addressWidth != 16 ==> RereadOffset(s.ctx) + RereadSize(s.ctx) <= s.ctx.offset
  {
    RereadInside(mode, buf, p, h, c, s);
  }

  lemma RereadSame(a: seq<byte>, b: seq<byte>, c: Context)
    requires Same(a, b, RereadOffset(c), RereadOffset(c) + RereadSize(c))
    ensures Reread(a, c) == Reread(b, c)
  {
    LittleEndianSame(a, b, RereadOffset(c), RereadSize(c));
  }

  lemma OverreadChanges(a: seq<byte>, c: Context)
    requires Overreads(a, c) && RereadOffset(c) <= |a|
    ensures Reread(a, c) == 0 != Reread(a + [1, 1, 1, 1], c)
  {
    var b, off := a + [1, 1, 1, 1], RereadOffset(c);
    assert b[off + 3] == 1;
    assert LittleEndian(b, off + 2, 2) == b[off + 2] + 256 * LittleEndian(b, off + 3, 1);
    assert LittleEndian(b, off + 1, 3) == b[off + 1] + 256 * LittleEndian(b, off + 2, 2);
  }

  // ---------------------------------------------------------------- extension

  /** The operands are stable under every extension of the input exactly when the displacement
      is not over-read. */
  lemma OperandsStableExact(mode: MachineMode, a: seq<byte>)
    requires Decode(mode, a).Ok?
    ensures var s := Decode(mode, a).value;
      (forall b :: a <= b ==> OperandsOf(mode, b, s) == OperandsOf(mode, a, s)) <==> !Overreads(a, s.ctx)
  {
    var p, h, c, s := Run(mode, a);
    OperandsStableAt(mode, a, p, h, c, s);
  }

  lemma OperandsStableAt(mode: MachineMode, a: seq<byte>, p: Context, h: Context, c: Context, s: Streamed)
    requires Stages(mode, a, p, h, c, s)
    ensures (forall b :: a <= b ==> OperandsOf(mode, b, s) == OperandsOf(mode, a, s)) <==> !Overreads(a, s.ctx)
  {
    if ShowsReread(s.ctx) {
      WindowInside(mode, a, p, h, c, s);
    }
    if Overreads(a, s.ctx) {
      var b := a + [1, 1, 1, 1];
      OverreadChanges(a, s.ctx);
      ListShows(mode, s.ctx, Reread(a, s.ctx), Reread(b, s.ctx), s.immediate);
      assert a <= b && OperandsOf(mode, b, s) != OperandsOf(mode, a, s);
    } else {
      forall b | a <= b
        ensures OperandsOf(mode, b, s) == OperandsOf(mode, a, s)
      {
        if ShowsReread(s.ctx) {
          RereadSame(a, b, s.ctx);
        }
        ListShows(mode, s.ctx, Reread(a, s.ctx), Reread(b, s.ctx), s.immediate);
      }
    }
  }

  lemma CountIgnoresDisplacement(mode: MachineMode, a: seq<byte>, b: seq<byte>, s: Streamed)
    requires Decode(mode, a) == Ok(s)
    ensures |OperandsOf(mode, a, s)| == |OperandsOf(mode, b, s)|
  {
    var p, h, c, s' := Run(mode, a);
    ListShows(mode, s.ctx, Reread(a, s.ctx), Reread(b, s.ctx), s.immediate);
  }

  /** In every mode, an accepted instruction record is the same on every extension of the input. */
  lemma InstructionStable(tables: Tables, mode: MachineMode, a: seq<byte>, b: seq<byte>)
    requires DecodeFull(tables, mode, a).Ok? && a <= b
    ensures DecodeFull(tables, mode, b).Ok?
    ensures DecodeFull(tables, mode, b).value.instruction == DecodeFull(tables, mode, a).value.instruction
  {
    var s := Decode(mode, a).value;
    ExtensionStable(mode, a, b);
    LengthBound(mode, a);
    assert RawBytes(a, s.ctx.offset) == RawBytes(b, s.ctx.offset);
    CountIgnoresDisplacement(mode, a, b, s);
  }

  lemma OperandsLocal(mode: MachineMode, a: seq<byte>, b: seq<byte>, p: Context, h: Context, c: Context, s: Streamed)
    requires Stages(mode, a, p, h, c, s) && mode == Long64 && Same(a, b, 0, s.ctx.offset)
    ensures OperandsOf(mode, b, s) == OperandsOf(mode, a, s)
  {
    if ShowsReread(s.ctx) {
      WindowInside(mode, a, p, h, c, s);
      RereadSame(a, b, s.ctx);
    }
    ListShows(mode, s.ctx, Reread(a, s.ctx), Reread(b, s.ctx), s.immediate);
  }

  /** In 64-bit mode the bytes of the instruction decide record and operands together. */
  lemma FullLocalityLong64(tables: Tables, a: seq<byte>, b: seq<byte>)
    requires DecodeFull(tables, Long64, a).Ok?
    requires Same(a, b, 0, DecodeFull(tables, Long64, a).value.instruction.length)
    ensures DecodeFull(tables, Long64, b) == DecodeFull(tables, Long64, a)
  {
    var p, h, c, s := Run(Long64, a);
    OperandsLocal(Long64, a, b, p, h, c, s);
    LocalityLong64(a, b);
    LengthBound(Long64, a);
    assert RawBytes(a, s.ctx.offset) == RawBytes(b, s.ctx.offset);
  }
}
