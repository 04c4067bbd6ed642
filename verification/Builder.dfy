/** Operand building as the program runs it: memory operands filled field by field, and the
    operand array filled slot by slot. */
module Builder {
  import opened Types
  import opened Stream
  import opened Operands
  import opened Full

  /** BuildMemOperand: the fields in the order the addressing form sets them. */
  method BuildMemOperand(c: Context, displacement: int, size: nat) returns (op: Operand)
    requires c.addressWidth in {16, 32, 64}
    ensures op == MemoryOperand(size, MemoryOf(c, displacement))
  {
    var segment, base, index, scale := NoRegister, NoRegister, NoRegister, 0;
    var hasDisp, disp := false, 0;
    var mod, rm := High2(c.modrm), Low3(c.modrm);
    var addrBits := if c.addressWidth == 64 then 64 else if c.addressWidth == 32 then 32 else 16;
    if c.legacy.hasSegment {
      segment := c.legacy.segment;
    }
    if c.addressWidth == 16 {
      if mod == 0 && rm == 6 {
        hasDisp, disp := true, displacement;
        if !c.legacy.hasSegment {
          segment := SegmentRegister(DS);
        }
      } else {
        base := BASES_16[rm];
        if INDICES_16[rm] != NoRegister {
          index, scale := INDICES_16[rm], 1;
        }
        if mod == 1 || mod == 2 {
          hasDisp, disp := true, displacement;
        }
        if !c.legacy.hasSegment {
          segment := DefaultSegment(rm);
        }
      }
    } else if !c.hasSIB {
      if mod == 0 && rm == 5 {
        hasDisp, disp := true, displacement;
        if c.addressWidth == 64 {
          base := Rip;
        }
        if !c.legacy.hasSegment {
          segment := SegmentRegister(DS);
        }
      } else {
        base := ResolveGPR(Extend(rm, c.rex.b), addrBits, c.rex.present);
        if mod == 1 || mod == 2 {
          hasDisp, disp := true, displacement;
        }
        if !c.legacy.hasSegment {
          segment := DefaultSegment(rm);
        }
      }
    } else {
      base, segment, hasDisp, disp := SibBase(c, displacement, segment);
      if Mid3(c.sib) != 4 || c.rex.x {
        index := ResolveGPR(Extend(Mid3(c.sib), c.rex.x), addrBits, c.rex.present);
        scale := [1, 2, 4, 8][High2(c.sib)];
      }
    }
    op := MemoryOperand(size, Memory(segment, base, index, scale, hasDisp, disp));
  }

  /** The base register, segment and displacement of a SIB form. */
  method SibBase(c: Context, displacement: int, override: Register)
    returns (base: Register, segment: Register, hasDisp: bool, disp: int)
    requires c.addressWidth in {32, 64} && c.hasSIB
    requires c.legacy.hasSegment ==> override == c.legacy.segment
    ensures var m := MemoryOf(c, displacement);
      base == m.base && segment == m.segment && hasDisp == m.hasDisplacement && disp == m.displacement
  {
    base, segment, hasDisp, disp := NoRegister, override, false, 0;
    if Low3(c.sib) == 5 && High2(c.modrm) == 0 {
      hasDisp, disp := true, displacement;
      if !c.legacy.hasSegment {
        segment := SegmentRegister(DS);
      }
    } else {
      base := ResolveGPR(Extend(Low3(c.sib), c.rex.b), c.addressWidth, c.rex.present);
      if High2(c.modrm) == 1 || High2(c.modrm) == 2 {
        hasDisp, disp := true, displacement;
      }
      if !c.legacy.hasSegment {
        segment := DefaultSegment(Low3(c.sib));
      }
    }
  }

  /** The second reading of the displacement, from the prefix count and the opcode length. */
  method RereadDisplacement(buf: seq<byte>, c: Context) returns (disp: int)
    requires High2(c.modrm) != 3
    ensures disp == Reread(buf, c)
  {
    disp := 0;
    var size := 0;
    if High2(c.modrm) == 1 {
      size := 1;
    } else if High2(c.modrm) == 2 {
      size := 4;
    } else {
      if c.addressWidth == 16 && Low3(c.modrm) == 6 {
        size := 2;
      } else if Low3(c.modrm) == 5 {
        size := 4;
      } else if c.hasSIB && Low3(c.sib) == 5 {
        size := 4;
      }
    }
    if size > 0 {
      var off := c.prefixCount;
      if c.opcodeMap == 0 {
        off := off + 1;
      } else if c.opcodeMap == 1 {
        off := off + 2;
      } else if c.opcodeMap == 2 || c.opcodeMap == 3 {
        off := off + 3;
      }
      if c.vex.present || c.evex.present {
        off := c.prefixCount + 1;
      }
      off := off + 1;
      if c.hasSIB {
        off := off + 1;
      }
      if size == 1 && off < |buf| {
        disp := SignExtend8(LittleEndian(buf, off, 1));
      } else if size == 2 && off + 1 < |buf| {
        disp := SignExtend16(LittleEndian(buf, off, 2));
      } else if size == 4 && off + 3 < |buf| {
        disp := SignExtend32(LittleEndian(buf, off, 4));
      }
    }
  }

  /** The r/m operand of the opcodes that pass displacement zero. */
  method BuildRegOrMem(c: Context, size: nat) returns (op: Operand)
    requires c.addressWidth in {16, 32, 64}
    ensures op == RegOrMem(c, size, 0)
  {
    if High2(c.modrm) == 3 {
      op := RegisterOperand(size, ResolveGPR(Extend(Low3(c.modrm), c.rex.b), size, c.rex.present));
    } else {
      op := BuildMemOperand(c, 0, size);
    }
  }

  /** DecodeModRMOperands: fills the first two slots. */
  method DecodeModRMOperands(buf: seq<byte>, c: Context, operands: array<Operand>,
                             regSize: nat, rmSize: nat, regIsDst: bool)
    requires operands.Length == MAX_OPERANDS && c.addressWidth in {16, 32, 64}
    modifies operands
    ensures operands[..] == ModRMPair(c, Reread(buf, c), regSize, rmSize, regIsDst) + old(operands[2..])
  {
    var reg := RegisterOperand(regSize, ResolveGPR(Extend(Mid3(c.modrm), c.rex.r), regSize, c.rex.present));
    var rm;
    if High2(c.modrm) == 3 {
      rm := RegisterOperand(rmSize, ResolveGPR(Extend(Low3(c.modrm), c.rex.b), rmSize, c.rex.present));
    } else {
      var disp := RereadDisplacement(buf, c);
      rm := BuildMemOperand(c, disp, rmSize);
    }
    assert rm == RegOrMem(c, rmSize, Reread(buf, c));
    if regIsDst {
      operands[0], operands[1] := reg, rm;
    } else {
      operands[0], operands[1] := rm, reg;
    }
  }

  // ---------------------------------------------------------------- the opcode switch

  /** The cleared operand array an opcode starts from. */
  ghost predicate Cleared(operands: array<Operand>)
    reads operands
  {
    operands.Length == MAX_OPERANDS && operands[..] == Slots([])
  }

  /** The array holds exactly these operands, and count says how many. */
  ghost predicate Holds(operands: array<Operand>, count: nat, ops: seq<Operand>)
    reads operands
  {
    |ops| <= MAX_OPERANDS && operands.Length == MAX_OPERANDS && operands[..] == Slots(ops) && count == |ops|
  }

  /** Opcodes 00-3D. */
  method BuildArithmetic(buf: seq<byte>, c: Context, imm: int, operands: array<Operand>) returns (count: nat)
    requires Cleared(operands) && c.addressWidth in {16, 32, 64}
    modifies operands
    ensures Holds(operands, count, ArithmeticOperands(c, Reread(buf, c), imm))
  {
    hide RegOrMem, Reread;
    var low := c.opcode % 8;
    count := 0;
    if low <= 3 && c.hasModRM {
      var size := if low % 2 != 0 then c.operandWidth else 8;
      DecodeModRMOperands(buf, c, operands, size, size, low >= 2);
      count := 2;
    } else if low == 4 || low == 5 {
      var size := if low == 4 then 8 else c.operandWidth;
      operands[0] := RegisterOperand(size, ResolveGPR(0, size, c.rex.present));
      operands[1] := ImmediateOperand(size, imm, false, false);
      count := 2;
    }
  }

  /** Opcodes 50-8F. */
  method BuildMiddle(mode: MachineMode, buf: seq<byte>, c: Context, imm: int, operands: array<Operand>)
    returns (count: nat)
    requires Cleared(operands) && c.addressWidth in {16, 32, 64} && 0x50 <= c.opcode <= 0x8F
    modifies operands
    ensures Holds(operands, count, MiddleOperands(mode, c, Reread(buf, c), imm))
  {
    hide RegOrMem, Reread;
    var op, width := c.opcode, c.operandWidth;
    count := 0;
    if op <= 0x5F {
      operands[0] := Reg(Extend(op % 8, c.rex.b), if mode == Long64 then 64 else width, c);
      count := 1;
    } else if 0x70 <= op <= 0x7F {
      operands[0] := Relative(imm, 8);
      count := 1;
    } else if 0x80 <= op <= 0x83 && c.hasModRM {
      var size := if op == 0x80 || op == 0x82 then 8 else width;
      operands[0] := BuildRegOrMem(c, size);
      operands[1] := SignedImm(imm, if op == 0x83 then 8 else size);
      count := 2;
    } else if 0x84 <= op <= 0x8B && c.hasModRM {
      var size := if op % 2 != 0 then width else 8;
      DecodeModRMOperands(buf, c, operands, size, size, op >= 0x8A || op == 0x86 || op == 0x87);
      count := 2;
    } else if (op == 0x8C || op == 0x8D || op == 0x8E) && c.hasModRM {
      DecodeModRMOperands(buf, c, operands, width, width, op != 0x8C);
      count := 2;
    } else if op == 0x8F && c.hasModRM {
      operands[0] := BuildRegOrMem(c, if mode == Long64 then 64 else width);
      count := 1;
    } else if op == 0x68 || op == 0x6A {
      operands[0] := SignedImm(imm, if op == 0x6A then 8 else width);
      count := 1;
    } else if (op == 0x69 || op == 0x6B) && c.hasModRM {
      operands[0] := Reg(Extend(Mid3(c.modrm), c.rex.r), width, c);
      operands[1] := BuildRegOrMem(c, width);
      operands[2] := SignedImm(imm, if op == 0x6B then 8 else width);
      count := 3;
    }
  }

  /** Opcodes 90-CF. */
  method BuildUpper(c: Context, imm: int, operands: array<Operand>) returns (count: nat)
    requires Cleared(operands) && c.addressWidth in {16, 32, 64} && 0x90 <= c.opcode <= 0xCF
    modifies operands
    ensures Holds(operands, count, UpperOperands(c, imm))
  {
    hide RegOrMem;
    var op, width := c.opcode, c.operandWidth;
    count := 2;
    if op <= 0x97 {
      if op == 0x90 && !c.rex.present {
        count := 0;
      } else {
        operands[0] := Reg(0, width, c);
        operands[1] := Reg(Extend(op % 8, c.rex.b), width, c);
      }
    } else if op == 0xA8 || op == 0xA9 {
      var size := if op == 0xA8 then 8 else width;
      operands[0] := Reg(0, size, c);
      operands[1] := Imm(imm, size);
    } else if 0xB0 <= op <= 0xB7 {
      operands[0] := Reg(Extend(op % 8, c.rex.b), 8, c);
      operands[1] := Imm(imm, 8);
    } else if 0xB8 <= op <= 0xBF {
      operands[0] := Reg(Extend(op % 8, c.rex.b), width, c);
      operands[1] := Imm(imm, width);
    } else if (op == 0xC0 || op == 0xC1) && c.hasModRM {
      operands[0] := BuildRegOrMem(c, if op == 0xC0 then 8 else width);
      operands[1] := Imm(imm, 8);
    } else if op == 0xC2 || op == 0xCA {
      operands[0] := Imm(imm, 16);
      count := 1;
    } else if (op == 0xC6 || op == 0xC7) && c.hasModRM {
      var size := if op == 0xC6 then 8 else width;
      operands[0] := BuildRegOrMem(c, size);
      operands[1] := Imm(imm, size);
    } else if op == 0xC8 {
      operands[0] := Imm(imm % 0x1_0000, 16);
      operands[1] := Imm(imm / 0x1_0000 % 0x100, 8);
    } else if op == 0xCD {
      operands[0] := Imm(imm, 8);
      count := 1;
    } else {
      count := 0;
    }
  }

  /** Opcodes D0-FF. */
  method BuildTop(c: Context, imm: int, operands: array<Operand>) returns (count: nat)
    requires Cleared(operands) && c.addressWidth in {16, 32, 64} && 0xD0 <= c.opcode
    modifies operands
    ensures Holds(operands, count, TopOperands(c, imm))
  {
    hide RegOrMem;
    var op := c.opcode;
    var size := if op % 2 == 0 then 8 else c.operandWidth;
    count := 2;
    if op <= 0xD3 && c.hasModRM {
      operands[0] := BuildRegOrMem(c, size);
      operands[1] := if op <= 0xD1 then Imm(1, 8) else RegisterOperand(8, CL);
    } else if (op == 0xF6 || op == 0xF7) && c.hasModRM {
      operands[0] := BuildRegOrMem(c, size);
      if c.opcodeExt <= 1 {
        operands[1] := Imm(imm, size);
      } else {
        count := 1;
      }
    } else if (op == 0xFE || op == 0xFF) && c.hasModRM {
      operands[0] := BuildRegOrMem(c, size);
      count := 1;
    } else if op == 0xE8 || op == 0xE9 || op == 0xEB {
      operands[0] := Relative(imm, if op == 0xEB then 8 else if c.operandWidth == 16 then 16 else 32);
      count := 1;
    } else if 0xE0 <= op <= 0xE3 {
      operands[0] := Relative(imm, 8);
      count := 1;
    } else if 0xE4 <= op <= 0xE7 {
      if op <= 0xE5 {
        operands[0], operands[1] := Reg(0, size, c), Imm(imm, 8);
      } else {
        operands[0], operands[1] := Imm(imm, 8), Reg(0, size, c);
      }
    } else if 0xEC <= op <= 0xEF {
      if op <= 0xED {
        operands[0], operands[1] := Reg(0, size, c), RegisterOperand(16, DX);
      } else {
        operands[0], operands[1] := RegisterOperand(16, DX), Reg(0, size, c);
      }
    } else {
      count := 0;
    }
  }

  /** Opcode map 1. */
  method BuildTwoByte(buf: seq<byte>, c: Context, imm: int, operands: array<Operand>) returns (count: nat)
    requires Cleared(operands) && c.addressWidth in {16, 32, 64}
    modifies operands
    ensures Holds(operands, count, TwoByteOperands(c, Reread(buf, c), imm))
  {
    hide RegOrMem, Reread;
    var op, width := c.opcode, c.operandWidth;
    count := 1;
    if 0x80 <= op <= 0x8F {
      operands[0] := Relative(imm, if width == 16 then 16 else 32);
    } else if 0xC8 <= op <= 0xCF {
      operands[0] := Reg(Extend(op % 8, c.rex.b), width, c);
    } else if c.hasModRM {
      if 0x90 <= op <= 0x9F {
        operands[0] := BuildRegOrMem(c, 8);
      } else if op == 0xC7 && High2(c.modrm) == 3 && c.opcodeExt >= 6 {
        operands[0] := Reg(Extend(Low3(c.modrm), c.rex.b), width, c);
      } else {
        var rmSize := if op == 0xB6 || op == 0xBE then 8 else if op == 0xB7 || op == 0xBF then 16 else width;
        DecodeModRMOperands(buf, c, operands, width, rmSize, true);
        count := 2;
      }
    } else {
      count := 0;
    }
  }

  /** Opcode maps 2 and 3. */
  method BuildThreeByte(buf: seq<byte>, c: Context, imm: int, operands: array<Operand>) returns (count: nat)
    requires Cleared(operands) && c.addressWidth in {16, 32, 64}
    modifies operands
    ensures Holds(operands, count, ThreeByteOperands(c, Reread(buf, c), imm))
  {
    hide RegOrMem, Reread, ImmediateSize;
    count := 0;
    if c.hasModRM {
      DecodeModRMOperands(buf, c, operands, 128, 128, true);
      count := 2;
      if c.opcodeMap == 3 && ImmediateSize(c) > 0 && count < MAX_OPERANDS {
        operands[count] := Imm(imm, 8);
        count := count + 1;
      }
    }
  }

  /** The operand switch over opcode maps and opcodes. */
  method BuildOperands(mode: MachineMode, buf: seq<byte>, c: Context, imm: int, operands: array<Operand>)
    returns (count: nat)
    requires Cleared(operands) && c.addressWidth in {16, 32, 64}
    modifies operands
    ensures Holds(operands, count, OperandList(mode, c, Reread(buf, c), imm))
  {
    hide ArithmeticOperands, MiddleOperands, UpperOperands, TopOperands, TwoByteOperands, ThreeByteOperands, Reread;
    count := 0;
    if c.opcodeMap == 0 {
      if c.opcode <= 0x3D {
        count := BuildArithmetic(buf, c, imm, operands);
      } else if 0x50 <= c.opcode <= 0x8F {
        count := BuildMiddle(mode, buf, c, imm, operands);
      } else if 0x90 <= c.opcode <= 0xCF {
        count := BuildUpper(c, imm, operands);
      } else if 0xD0 <= c.opcode {
        count := BuildTop(c, imm, operands);
      }
    } else if c.opcodeMap == 1 {
      count := BuildTwoByte(buf, c, imm, operands);
    } else if c.opcodeMap == 2 || c.opcodeMap == 3 {
      count := BuildThreeByte(buf, c, imm, operands);
    }
  }
}
