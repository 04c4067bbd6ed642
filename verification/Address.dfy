/** The memory operand denotes the address that the Intel manual (SDM Volume 2A, sections
    2.1.5 and 2.2.1.6) assigns to the raw ModRM, SIB and displacement bytes. */
module Address {
  import opened Types
  import opened Stream
  import opened Operands
  import opened Locality
  import opened Shape
  import opened Full

  /** The sixteen general registers. */
  type RegisterFile = r: seq<nat> | |r| == 16 witness seq(16, _ => 0)

  function TwoTo(width: nat): nat {
    if width == 16 then TWO_16 else if width == 32 then TWO_32 else TWO_64
  }

  // ---------------------------------------------------------------- what the operand denotes

  function RegisterValue(r: Register, regs: RegisterFile, nextIp: nat): int {
    match r
    case Gpr64(i) => regs[i] % TWO_64
    case Gpr32(i) => regs[i] % TWO_32
    case Gpr16(i) => regs[i] % TWO_16
    case Rip => nextIp
    case _ => 0
  }

  function OperandAddress(m: Memory, width: nat, regs: RegisterFile, nextIp: nat): int {
    (RegisterValue(m.base, regs, nextIp) + RegisterValue(m.index, regs, nextIp) * m.scale + m.displacement)
    % TwoTo(width)
  }

  // ---------------------------------------------------------------- what the manual says

  function General(regs: RegisterFile, number: RegisterNumber, width: nat): int {
    regs[number] % TwoTo(width)
  }

  /** The sign-extended displacement of the given size. */
  function DisplacementAt(form: seq<byte>, at: nat, size: nat): int
    requires size in {0, 1, 2, 4} && at + size <= |form|
  {
    var v := LittleEndian(form, at, size);
    if size == 1 then SignExtend8(v) else if size == 2 then SignExtend16(v) else SignExtend32(v)
  }

  /** Table 2-1: 16-bit addressing forms. */
  function Table21(form: seq<byte>, regs: RegisterFile): int
    requires |form| >= 3 && High2(form[0]) != 3
  {
    var bx, bp := General(regs, 3, 16), General(regs, 5, 16);
    var si, di := General(regs, 6, 16), General(regs, 7, 16);
    if High2(form[0]) == 0 && Low3(form[0]) == 6 then DisplacementAt(form, 1, 2)
    else
      [bx + si, bx + di, bp + si, bp + di, si, di, bp, bx][Low3(form[0])]
      + DisplacementAt(form, 1, [0, 1, 2][High2(form[0])])
  }

  /** The scaled index of a SIB byte: number 4 without extension means none. */
  function SibIndex(form: seq<byte>, rexX: bool, width: nat, regs: RegisterFile): int
    requires |form| >= 6
  {
    if Mid3(form[1]) == 4 && !rexX then 0
    else General(regs, Extend(Mid3(form[1]), rexX), width) * [1, 2, 4, 8][High2(form[1])]
  }

  /** Base and displacement of a SIB form: base 5 with mod 0 means a bare disp32. */
  function SibBaseAndDisplacement(form: seq<byte>, rexB: bool, width: nat, regs: RegisterFile): int
    requires |form| >= 6 && High2(form[0]) != 3
  {
    if Low3(form[1]) == 5 && High2(form[0]) == 0 then DisplacementAt(form, 2, 4)
    else General(regs, Extend(Low3(form[1]), rexB), width)
         + DisplacementAt(form, 2, [0, 1, 4][High2(form[0])])
  }

  /** Table 2-3: the forms with a SIB byte. */
  function Table23(form: seq<byte>, rexX: bool, rexB: bool, width: nat, regs: RegisterFile): int
    requires |form| >= 6 && High2(form[0]) != 3
  {
    SibBaseAndDisplacement(form, rexB, width, regs) + SibIndex(form, rexX, width, regs)
  }

  /** Table 2-2 and section 2.2.1.6: 32- and 64-bit addressing forms. In 64-bit mode the form
      mod 0, rm 5 is relative to the next instruction. */
  function Table22(mode: MachineMode, form: seq<byte>, rexX: bool, rexB: bool, width: nat,
                   regs: RegisterFile, nextIp: nat): int
    requires |form| >= 6 && High2(form[0]) != 3
  {
    if Low3(form[0]) == 4 then Table23(form, rexX, rexB, width, regs)
    else if Low3(form[0]) == 5 && High2(form[0]) == 0 then
      DisplacementAt(form, 1, 4) + (if mode == Long64 then nextIp else 0)
    else
      General(regs, Extend(Low3(form[0]), rexB), width) + DisplacementAt(form, 1, [0, 1, 4][High2(form[0])])
  }

  /** The address of the form that starts at the ModRM byte. Bytes after the form are ignored. */
  function ManualAddress(mode: MachineMode, form: seq<byte>, rexX: bool, rexB: bool, width: nat,
                         regs: RegisterFile, nextIp: nat): int
    requires |form| >= 6 && High2(form[0]) != 3
  {
    (if width == 16 then Table21(form, regs)
     else Table22(mode, form, rexX, rexB, width, regs, nextIp)) % TwoTo(width)
  }

  // ---------------------------------------------------------------- the two agree

  const PADDING: seq<byte> := [0, 0, 0, 0, 0, 0]

  /** The bytes from ModRM to the end of the instruction, padded so that every form is readable. */
  function FormBytes(buf: seq<byte>, start: nat, end: nat): seq<byte>
    requires start <= end <= |buf|
  {
    buf[start..end] + PADDING
  }

  lemma {:induction false} LittleEndianOfForm(buf: seq<byte>, start: nat, end: nat, at: nat, n: nat)
    requires start <= end <= |buf| && start + at + n <= end
    ensures LittleEndian(FormBytes(buf, start, end), at, n) == LittleEndian(buf, start + at, n)
    decreases n
  {
    if n > 0 {
      LittleEndianOfForm(buf, start, end, at + 1, n - 1);
    }
  }

  lemma DisplacementOfForm(buf: seq<byte>, start: nat, end: nat, at: nat, size: nat)
    requires start <= end <= |buf| && start + at + size <= end && size in {0, 1, 2, 4}
    ensures ReadDisplacement(buf, start + at, size) == Ok(DisplacementAt(FormBytes(buf, start, end), at, size))
  {
    LittleEndianOfForm(buf, start, end, at, size);
  }

  /** The VEX gathers, whose SIB index is a vector register. */
  predicate IsVsib(c: Context) {
    c.vex.present && c.opcodeMap == 2 && 0x90 <= c.opcode <= 0x93
  }

  /** The encodings that the tables speak of: legacy and REX everywhere, VEX in 64-bit mode. */
  predicate TableEncoding(mode: MachineMode, c: Context) {
    !c.rex2.present && !c.evex.present && (c.vex.present ==> mode == Long64 && !IsVsib(c))
  }

  /** A displacement that lies outside the buffer when it is read a second time. */
  predicate LosesDisplacement(buf: seq<byte>, s: Streamed) {
    s.ctx.addressWidth == 16 && High2(s.ctx.modrm) == 2
    && RereadOffset(s.ctx) + 4 > |buf| && s.displacement % TWO_16 != 0
  }

  /** The EIP-relative form, whose base the operand leaves out. */
  predicate EipForm(mode: MachineMode, c: Context) {
    mode == Long64 && c.addressWidth == 32 && High2(c.modrm) == 0 && Low3(c.modrm) == 5
  }

  predicate LosesEip(mode: MachineMode, c: Context, nextIp: nat) {
    EipForm(mode, c) && nextIp % TWO_32 != 0
  }

  lemma SameModulo(x: int, d: int, width: nat)
    requires width in {16, 32, 64}
    ensures (x + d) % TwoTo(width) == x % TwoTo(width) <==> d % TwoTo(width) == 0
  {
  }

  /** The bytes of a form and the context they were decoded into. */
  ghost predicate ReadsForm(form: seq<byte>, c: Context, disp: int) {
    && |form| >= 6 && form[0] == c.modrm && High2(c.modrm) != 3
    && c.hasModRM && c.hasSIB == NeedsSIB(c)
    && (c.hasSIB ==> form[1] == c.sib)
    && disp == DisplacementAt(form, if c.hasSIB then 2 else 1, DisplacementSize(c))
  }

  lemma FormIndexSib(form: seq<byte>, c: Context, disp: int, regs: RegisterFile, nextIp: nat)
    requires ReadsForm(form, c, disp) && c.hasSIB && c.addressWidth in {32, 64}
    ensures RegisterValue(IndexRegister(c), regs, nextIp) * Scale(c) == SibIndex(form, c.rex.x, c.addressWidth, regs)
  {
  }

  lemma FormBaseSib(form: seq<byte>, c: Context, disp: int, regs: RegisterFile, nextIp: nat)
    requires ReadsForm(form, c, disp) && c.hasSIB && c.addressWidth in {32, 64}
    ensures RegisterValue(BaseRegister(c), regs, nextIp) + MemoryOf(c, disp).displacement
         == SibBaseAndDisplacement(form, c.rex.b, c.addressWidth, regs)
  {
  }

  lemma FormAddressSib(mode: MachineMode, form: seq<byte>, c: Context, disp: int, regs: RegisterFile, nextIp: nat)
    requires ReadsForm(form, c, disp) && c.hasSIB && c.addressWidth in {32, 64}
    ensures OperandAddress(MemoryOf(c, disp), c.addressWidth, regs, nextIp)
         == ManualAddress(mode, form, c.rex.x, c.rex.b, c.addressWidth, regs, nextIp)
  {
    FormIndexSib(form, c, disp, regs, nextIp);
    FormBaseSib(form, c, disp, regs, nextIp);
  }

  lemma FormAddressPlain(mode: MachineMode, form: seq<byte>, c: Context, disp: int, regs: RegisterFile, nextIp: nat)
    requires ReadsForm(form, c, disp) && !c.hasSIB && c.addressWidth in {32, 64}
    requires c.addressWidth == 64 ==> mode == Long64
    ensures OperandAddress(MemoryOf(c, disp), c.addressWidth, regs, nextIp)
         == ManualAddress(mode, form, c.rex.x, c.rex.b, c.addressWidth, regs, nextIp)
         <==> !LosesEip(mode, c, nextIp)
  {
    var m := MemoryOf(c, disp);
    assert m.index == NoRegister;
    SameModulo(disp, nextIp, 32);
  }

  lemma FormAddress16(mode: MachineMode, form: seq<byte>, c: Context, disp: int, regs: RegisterFile, nextIp: nat)
    requires ReadsForm(form, c, disp) && c.addressWidth == 16
    ensures OperandAddress(MemoryOf(c, disp), 16, regs, nextIp)
         == ManualAddress(mode, form, c.rex.x, c.rex.b, 16, regs, nextIp)
  {
    var m := MemoryOf(c, disp);
    if !Baseless(c) {
      assert RegisterValue(m.base, regs, nextIp) ==
        General(regs, [3, 3, 5, 5, 6, 7, 5, 3][Low3(c.modrm)], 16);
      assert RegisterValue(m.index, regs, nextIp) * m.scale ==
        if Low3(c.modrm) < 4 then General(regs, [6, 7, 6, 7][Low3(c.modrm)], 16) else 0;
      assert m.displacement == DisplacementAt(form, 1, [0, 1, 2][High2(form[0])]);
    }
  }

  lemma DisplacementSizes(c: Context)
    ensures DisplacementSize(c) in {0, 1, 2, 4}
  {
  }

  lemma StreamedForm(mode: MachineMode, buf: seq<byte>, p: Context, h: Context, c: Context, s: Streamed)
    requires Stages(mode, buf, p, h, c, s) && c.hasModRM && High2(c.modrm) != 3
    ensures ReadsForm(FormBytes(buf, h.offset, s.ctx.offset), s.ctx, s.displacement)
  {
    hide DisplacementSize, ReadDisplacement, ImmediateSize, LittleEndian;
    DisplacementSizes(c);
    DisplacementOfForm(buf, h.offset, s.ctx.offset, if c.hasSIB then 2 else 1, DisplacementSize(c));
  }

  /** With the streamed displacement and the decoded extension bits the operand denotes the
      address of the tables, but for EIP. */
  lemma StreamedAddress(mode: MachineMode, buf: seq<byte>, p: Context, h: Context, c: Context, s: Streamed,
                        regs: RegisterFile, nextIp: nat)
    requires Stages(mode, buf, p, h, c, s) && c.hasModRM && High2(c.modrm) != 3
    ensures var form := FormBytes(buf, h.offset, s.ctx.offset);
      OperandAddress(MemoryOf(s.ctx, s.displacement), c.addressWidth, regs, nextIp)
        == ManualAddress(mode, form, c.rex.x, c.rex.b, c.addressWidth, regs, nextIp)
      <==> !LosesEip(mode, s.ctx, nextIp)
  {
    hide OperandAddress, ManualAddress, MemoryOf;
    var form := FormBytes(buf, h.offset, s.ctx.offset);
    StreamedForm(mode, buf, p, h, c, s);
    if c.addressWidth == 16 {
      FormAddress16(mode, form, s.ctx, s.displacement, regs, nextIp);
    } else if c.hasSIB {
      FormAddressSib(mode, form, s.ctx, s.displacement, regs, nextIp);
    } else {
      FormAddressPlain(mode, form, s.ctx, s.displacement, regs, nextIp);
    }
  }

  // ---------------------------------------------------------------- the displacement read again

  lemma WindowModulo(buf: seq<byte>, off: nat)
    requires off + 4 <= |buf|
    ensures (SignExtend32(LittleEndian(buf, off, 4)) - SignExtend16(LittleEndian(buf, off, 2))) % TWO_16 == 0
  {
    var b0, b1, b2, b3 := buf[off], buf[off + 1], buf[off + 2], buf[off + 3];
    assert LittleEndian(buf, off + 2, 2) == b2 + 256 * LittleEndian(buf, off + 3, 1);
    assert LittleEndian(buf, off, 2) == b0 + 256 * b1;
    assert LittleEndian(buf, off, 4) == b0 + 256 * b1 + 65536 * LittleEndian(buf, off + 2, 2);
  }

  lemma RereadModulo16(buf: seq<byte>, c: Context, disp: int)
    requires High2(c.modrm) == 2 && c.addressWidth == 16
    requires ReadDisplacement(buf, RereadOffset(c), 2) == Ok(disp)
    ensures (Reread(buf, c) - disp) % TWO_16 == 0 <==> RereadOffset(c) + 4 <= |buf| || disp % TWO_16 == 0
  {
    if RereadOffset(c) + 4 <= |buf| {
      WindowModulo(buf, RereadOffset(c));
    }
  }

  /** Read again, the displacement is the streamed one modulo the address width, unless lost. */
  lemma RereadModulo(mode: MachineMode, buf: seq<byte>, p: Context, h: Context, c: Context, s: Streamed)
    requires Stages(mode, buf, p, h, c, s) && HasMemoryOperand(s.ctx) && ShowsDisplacement(s.ctx)
    requires !s.ctx.rex2.present && !s.ctx.evex.present && (s.ctx.vex.present ==> mode == Long64)
    ensures (Reread(buf, s.ctx) - s.displacement) % TwoTo(s.ctx.addressWidth) == 0
            <==> !LosesDisplacement(buf, s)
  {
    MemoryHasModRM(s.ctx);
    StreamsOrNarrow(mode, buf, p, h, c, s);
    hide Stages, Reread, RereadOffset, RereadsStream, HasMemoryOperand, ShowsDisplacement, ReadDisplacement;
    if RereadsStream(s.ctx) {
      RereadExactAt(mode, buf, p, h, c, s);
    } else {
      RereadModulo16(buf, s.ctx, s.displacement);
    }
  }

  /** The second reading takes the streamed bytes, or it is the wide one of a 16-bit displacement. */
  lemma StreamsOrNarrow(mode: MachineMode, buf: seq<byte>, p: Context, h: Context, c: Context, s: Streamed)
    requires Stages(mode, buf, p, h, c, s) && c.hasModRM && High2(c.modrm) != 3 && ShowsDisplacement(s.ctx)
    requires !s.ctx.rex2.present
    ensures s.ctx.hasModRM == c.hasModRM && s.ctx.addressWidth in {16, 32, 64}
    ensures RereadsStream(s.ctx) ==> !(s.ctx.addressWidth == 16 && High2(s.ctx.modrm) == 2)
    ensures !RereadsStream(s.ctx) ==>
      && s.ctx.addressWidth == 16 && High2(s.ctx.modrm) == 2
      && ReadDisplacement(buf, RereadOffset(s.ctx), 2) == Ok(s.displacement)
  {
    hide ImmediateSize, ReadImmediate, ReadDisplacement, LittleEndian;
  }

  lemma AddressModulo(c: Context, d1: int, d2: int, regs: RegisterFile, nextIp: nat)
    requires c.addressWidth in {16, 32, 64}
    ensures OperandAddress(MemoryOf(c, d1), c.addressWidth, regs, nextIp)
         == OperandAddress(MemoryOf(c, d2), c.addressWidth, regs, nextIp)
         <==> !ShowsDisplacement(c) || (d1 - d2) % TwoTo(c.addressWidth) == 0
  {
    var m1, m2 := MemoryOf(c, d1), MemoryOf(c, d2);
    var rest := RegisterValue(m1.base, regs, nextIp) + RegisterValue(m1.index, regs, nextIp) * m1.scale;
    SameModulo(rest + m2.displacement, m1.displacement - m2.displacement, c.addressWidth);
  }

  // ---------------------------------------------------------------- the theorem

  /** The REX byte in front of the opcode; 40h, which extends nothing, when there is none. */
  function RexByte(mode: MachineMode, buf: seq<byte>, end: nat): byte
    requires end <= |buf|
  {
    if end > 0 && IsRex(mode, buf[end - 1]) then buf[end - 1] else 0x40
  }

  lemma {:induction false} RexIsLast(mode: MachineMode, buf: seq<byte>, c: Context)
    requires c.offset <= |buf| && (c.offset > 0 ==> !IsRex(mode, buf[c.offset - 1]))
    ensures var r := ScanPrefixes(mode, buf, c);
      && c.offset <= r.offset <= |buf|
      && r.rex == if r.offset > 0 && IsRex(mode, buf[r.offset - 1]) then RexOf(buf[r.offset - 1]) else c.rex
    decreases MAX_INSTRUCTION_LENGTH - c.offset
  {
    if c.offset < |buf| && c.offset < MAX_INSTRUCTION_LENGTH {
      var b := buf[c.offset];
      if !IsRex(mode, b) && IsLegacyPrefix(b) {
        RexIsLast(mode, buf, c.(legacy := ApplyPrefix(c.legacy, b),
                                prefixCount := c.prefixCount + 1, offset := c.offset + 1));
      }
    }
  }

  // ---------------------------------------------------------------- the memory operands of a list

  /** Every memory operand of the list is the form with this displacement, and there is one
      exactly if asked for. */
  ghost predicate MemoryIs(ops: seq<Operand>, c: Context, disp: int, present: bool) {
    && ((exists i :: 0 <= i < |ops| && ops[i].MemoryOperand?) <==> present)
    && (forall i :: 0 <= i < |ops| && ops[i].MemoryOperand? ==> ops[i].mem == MemoryOf(c, disp))
  }

  lemma ArithmeticMemory(c: Context, disp: int, imm: int)
    requires c.opcodeMap == 0 && c.opcode <= 0x3D
    ensures MemoryIs(ArithmeticOperands(c, disp, imm), c, if UsesModRMPair(c) then disp else 0, HasMemoryOperand(c))
  {
    hide MemoryOf, ResolveGPR;
    var ops := ArithmeticOperands(c, disp, imm);
    assert HasMemoryOperand(c) ==> |ops| >= 1 && (ops[0].MemoryOperand? || (|ops| >= 2 && ops[1].MemoryOperand?));
  }

  lemma MiddleMemory(mode: MachineMode, c: Context, disp: int, imm: int)
    requires c.opcodeMap == 0 && 0x50 <= c.opcode <= 0x8F
    ensures MemoryIs(MiddleOperands(mode, c, disp, imm), c, if UsesModRMPair(c) then disp else 0, HasMemoryOperand(c))
  {
    hide MemoryOf, ResolveGPR;
    var ops := MiddleOperands(mode, c, disp, imm);
    assert HasMemoryOperand(c) ==> |ops| >= 1 && (ops[0].MemoryOperand? || (|ops| >= 2 && ops[1].MemoryOperand?));
  }

  lemma UpperMemory(c: Context, disp: int, imm: int)
    requires c.opcodeMap == 0 && 0x90 <= c.opcode <= 0xCF
    ensures MemoryIs(UpperOperands(c, imm), c, if UsesModRMPair(c) then disp else 0, HasMemoryOperand(c))
  {
    hide MemoryOf, ResolveGPR;
    var ops := UpperOperands(c, imm);
    assert HasMemoryOperand(c) ==> |ops| >= 1 && ops[0].MemoryOperand?;
  }

  lemma TopMemory(c: Context, disp: int, imm: int)
    requires c.opcodeMap == 0 && 0xD0 <= c.opcode
    ensures MemoryIs(TopOperands(c, imm), c, if UsesModRMPair(c) then disp else 0, HasMemoryOperand(c))
  {
    hide MemoryOf, ResolveGPR;
    var ops := TopOperands(c, imm);
    assert HasMemoryOperand(c) ==> |ops| >= 1 && ops[0].MemoryOperand?;
  }

  lemma OneByteMemory(mode: MachineMode, c: Context, disp: int, imm: int)
    requires c.opcodeMap == 0
    ensures MemoryIs(OperandList(mode, c, disp, imm), c, if UsesModRMPair(c) then disp else 0, HasMemoryOperand(c))
  {
    hide ArithmeticOperands, MiddleOperands, UpperOperands, TopOperands;
    if c.opcode <= 0x3D {
      ArithmeticMemory(c, disp, imm);
    } else if 0x50 <= c.opcode <= 0x8F {
      MiddleMemory(mode, c, disp, imm);
    } else if 0x90 <= c.opcode <= 0xCF {
      UpperMemory(c, disp, imm);
    } else if 0xD0 <= c.opcode {
      TopMemory(c, disp, imm);
    }
  }

  lemma UpperMapMemory(mode: MachineMode, c: Context, disp: int, imm: int)
    requires 1 <= c.opcodeMap <= 3
    ensures MemoryIs(OperandList(mode, c, disp, imm), c, if UsesModRMPair(c) then disp else 0, HasMemoryOperand(c))
  {
    hide MemoryOf, ResolveGPR;
    var ops := OperandList(mode, c, disp, imm);
    assert HasMemoryOperand(c) ==> |ops| >= 1 && (ops[0].MemoryOperand? || (|ops| >= 2 && ops[1].MemoryOperand?));
  }

  /** Which displacement the memory operands of an opcode get, and which opcodes have one. */
  lemma ListMemory(mode: MachineMode, c: Context, disp: int, imm: int)
    requires c.opcodeMap <= 3
    ensures MemoryIs(OperandList(mode, c, disp, imm), c, if UsesModRMPair(c) then disp else 0, HasMemoryOperand(c))
  {
    hide MemoryIs;
    if c.opcodeMap == 0 {
      OneByteMemory(mode, c, disp, imm);
    } else {
      UpperMapMemory(mode, c, disp, imm);
    }
  }

  // ---------------------------------------------------------------- the two routes

  /** When the operand keeps the address. Opcodes that read the displacement again lose EIP or a
      16-bit displacement past the end; opcodes that pass zero lose every displacement, and with
      it the EIP-relative form. */
  predicate KeepsAddress(mode: MachineMode, buf: seq<byte>, s: Streamed, nextIp: nat) {
    if UsesModRMPair(s.ctx) then !LosesEip(mode, s.ctx, nextIp) && !LosesDisplacement(buf, s)
    else if EipForm(mode, s.ctx) then (s.displacement + nextIp) % TWO_32 == 0
    else ShowsDisplacement(s.ctx) ==> s.displacement % TwoTo(s.ctx.addressWidth) == 0
  }

  /** The displacement that operand building uses. */
  function OperandDisplacement(buf: seq<byte>, c: Context): int {
    if UsesModRMPair(c) then Reread(buf, c) else 0
  }

  lemma PairAddress(mode: MachineMode, buf: seq<byte>, p: Context, h: Context, c: Context, s: Streamed,
                    regs: RegisterFile, nextIp: nat)
    requires Stages(mode, buf, p, h, c, s) && HasMemoryOperand(s.ctx) && UsesModRMPair(s.ctx)
    requires !s.ctx.rex2.present && !s.ctx.evex.present && (s.ctx.vex.present ==> mode == Long64)
    ensures var form := FormBytes(buf, h.offset, s.ctx.offset);
      OperandAddress(MemoryOf(s.ctx, Reread(buf, s.ctx)), c.addressWidth, regs, nextIp)
        == ManualAddress(mode, form, c.rex.x, c.rex.b, c.addressWidth, regs, nextIp)
      <==> !LosesEip(mode, s.ctx, nextIp) && !LosesDisplacement(buf, s)
  {
    hide OperandAddress, ManualAddress, MemoryOf, Reread, UsesModRMPair;
    MemoryHasModRM(s.ctx);
    StreamedAddress(mode, buf, p, h, c, s, regs, nextIp);
    AddressModulo(s.ctx, Reread(buf, s.ctx), s.displacement, regs, nextIp);
    if ShowsDisplacement(s.ctx) {
      RereadModulo(mode, buf, p, h, c, s);
      if LosesEip(mode, s.ctx, nextIp) {
        RereadExactAt(mode, buf, p, h, c, s);
      }
    }
  }

  lemma EipAddress(mode: MachineMode, form: seq<byte>, c: Context, disp: int, regs: RegisterFile, nextIp: nat)
    requires ReadsForm(form, c, disp) && EipForm(mode, c)
    ensures OperandAddress(MemoryOf(c, 0), 32, regs, nextIp) == 0
    ensures ManualAddress(mode, form, c.rex.x, c.rex.b, 32, regs, nextIp) == (disp + nextIp) % TWO_32
  {
  }

  lemma NegatedModulo(d: int, width: nat)
    requires width in {16, 32, 64}
    ensures (0 - d) % TwoTo(width) == 0 <==> d % TwoTo(width) == 0
  {
  }

  lemma ZeroAddress(mode: MachineMode, buf: seq<byte>, p: Context, h: Context, c: Context, s: Streamed,
                    regs: RegisterFile, nextIp: nat)
    requires Stages(mode, buf, p, h, c, s) && HasMemoryOperand(s.ctx)
    ensures var form := FormBytes(buf, h.offset, s.ctx.offset);
      OperandAddress(MemoryOf(s.ctx, 0), c.addressWidth, regs, nextIp)
        == ManualAddress(mode, form, c.rex.x, c.rex.b, c.addressWidth, regs, nextIp)
      <==> if EipForm(mode, s.ctx) then (s.displacement + nextIp) % TWO_32 == 0
           else ShowsDisplacement(s.ctx) ==> s.displacement % TwoTo(s.ctx.addressWidth) == 0
  {
    hide OperandAddress, ManualAddress, MemoryOf, UsesModRMPair, PassesZero;
    MemoryHasModRM(s.ctx);
    if EipForm(mode, s.ctx) {
      var form := FormBytes(buf, h.offset, s.ctx.offset);
      StreamedForm(mode, buf, p, h, c, s);
      EipAddress(mode, form, s.ctx, s.displacement, regs, nextIp);
    } else {
      StreamedAddress(mode, buf, p, h, c, s, regs, nextIp);
      AddressModulo(s.ctx, 0, s.displacement, regs, nextIp);
      NegatedModulo(s.displacement, s.ctx.addressWidth);
    }
  }

  lemma RouteAddress(mode: MachineMode, buf: seq<byte>, p: Context, h: Context, c: Context, s: Streamed,
                     regs: RegisterFile, nextIp: nat)
    requires Stages(mode, buf, p, h, c, s) && HasMemoryOperand(s.ctx) && TableEncoding(mode, s.ctx)
    ensures var form := FormBytes(buf, h.offset, s.ctx.offset);
      OperandAddress(MemoryOf(s.ctx, OperandDisplacement(buf, s.ctx)), c.addressWidth, regs, nextIp)
        == ManualAddress(mode, form, c.rex.x, c.rex.b, c.addressWidth, regs, nextIp)
      <==> KeepsAddress(mode, buf, s, nextIp)
  {
    hide OperandAddress, ManualAddress, MemoryOf, Reread, UsesModRMPair, EipForm, LosesDisplacement, ShowsDisplacement;
    if UsesModRMPair(s.ctx) {
      PairAddress(mode, buf, p, h, c, s, regs, nextIp);
    } else {
      ZeroAddress(mode, buf, p, h, c, s, regs, nextIp);
    }
  }

  // ---------------------------------------------------------------- from the raw bytes

  /** The extension bits X and B of the raw bytes: of the VEX payload, inverted, or of REX. */
  function ExtensionX(mode: MachineMode, buf: seq<byte>, prefixes: nat): bool
    requires prefixes < |buf|
  {
    if mode == Long64 && buf[prefixes] == 0xC5 then false
    else if mode == Long64 && buf[prefixes] == 0xC4 && prefixes + 1 < |buf| then buf[prefixes + 1] / 64 % 2 == 0
    else RexByte(mode, buf, prefixes) / 2 % 2 == 1
  }

  function ExtensionB(mode: MachineMode, buf: seq<byte>, prefixes: nat): bool
    requires prefixes < |buf|
  {
    if mode == Long64 && buf[prefixes] == 0xC5 then false
    else if mode == Long64 && buf[prefixes] == 0xC4 && prefixes + 1 < |buf| then buf[prefixes + 1] / 32 % 2 == 0
    else RexByte(mode, buf, prefixes) % 2 == 1
  }

  /** Where ModRM stands: after the VEX prefix or the escapes, and the opcode. */
  function FormStart(mode: MachineMode, buf: seq<byte>, prefixes: nat, opcodeMap: nat): nat
    requires prefixes < |buf|
  {
    prefixes
    + if mode == Long64 && buf[prefixes] == 0xC5 then 3
      else if mode == Long64 && buf[prefixes] == 0xC4 then 4
      else EscapeLength(opcodeMap)
  }

  lemma VexBits(buf: seq<byte>, p: Context, h: Context)
    requires p == RESET.(offset := p.offset, prefixCount := p.offset, legacy := p.legacy, rex := p.rex)
    requires p.offset < |buf| && DecodeHead(Long64, buf, p) == Ok(h)
    ensures h.vex.present == (buf[p.offset] == 0xC5 || buf[p.offset] == 0xC4)
    ensures h.vex.present ==>
      && h.offset == FormStart(Long64, buf, p.offset, h.opcodeMap)
      && h.rex.x == ExtensionX(Long64, buf, p.offset) && h.rex.b == ExtensionB(Long64, buf, p.offset)
  {
  }

  /** ModRM and extension bits, read off the raw bytes. */
  lemma RawBits(mode: MachineMode, buf: seq<byte>, p: Context, h: Context, c: Context, s: Streamed)
    requires Stages(mode, buf, p, h, c, s) && p.offset < |buf| && DecodeHead(mode, buf, p) == Ok(h)
    requires p.rex == if p.offset > 0 && IsRex(mode, buf[p.offset - 1]) then RexOf(buf[p.offset - 1]) else NO_REX
    requires TableEncoding(mode, s.ctx)
    ensures h.offset == FormStart(mode, buf, p.offset, s.ctx.opcodeMap)
    ensures c.rex.x == ExtensionX(mode, buf, p.offset) && c.rex.b == ExtensionB(mode, buf, p.offset)
  {
    hide DecodeHead;
    if mode == Long64 {
      VexBits(buf, p, h);
    }
  }

  /** The address the manual gives to the form of an instruction with this many prefix bytes. */
  function InstructionAddress(mode: MachineMode, buf: seq<byte>, prefixes: nat, c: Context,
                              regs: RegisterFile, nextIp: nat): int
    requires prefixes < |buf|
    requires FormStart(mode, buf, prefixes, c.opcodeMap) < c.offset <= |buf|
    requires High2(buf[FormStart(mode, buf, prefixes, c.opcodeMap)]) != 3
  {
    var form := FormBytes(buf, FormStart(mode, buf, prefixes, c.opcodeMap), c.offset);
    ManualAddress(mode, form, ExtensionX(mode, buf, prefixes), ExtensionB(mode, buf, prefixes),
                  c.addressWidth, regs, nextIp)
  }

  /** There is a memory operand exactly for the opcodes and forms that have one, and it denotes
      the manual's address exactly when its route keeps it. */
  ghost predicate DenotesManualAddress(mode: MachineMode, buf: seq<byte>, prefixes: nat, s: Streamed,
                                       ops: seq<Operand>, regs: RegisterFile, nextIp: nat)
    requires prefixes < |buf|
  {
    var start := FormStart(mode, buf, prefixes, s.ctx.opcodeMap);
    && ((exists i :: 0 <= i < |ops| && ops[i].MemoryOperand?) <==> HasMemoryOperand(s.ctx))
    && (HasMemoryOperand(s.ctx) ==> start < s.ctx.offset <= |buf| && High2(buf[start]) != 3)
    && forall i :: 0 <= i < |ops| && ops[i].MemoryOperand? ==>
         (OperandAddress(ops[i].mem, s.ctx.addressWidth, regs, nextIp)
            == InstructionAddress(mode, buf, prefixes, s.ctx, regs, nextIp)
          <==> KeepsAddress(mode, buf, s, nextIp))
  }

  lemma EffectiveAddressAt(mode: MachineMode, buf: seq<byte>, p: Context, h: Context, c: Context, s: Streamed,
                           regs: RegisterFile, nextIp: nat)
    requires Stages(mode, buf, p, h, c, s) && p.offset < |buf| && TableEncoding(mode, s.ctx)
    requires h.offset == FormStart(mode, buf, p.offset, s.ctx.opcodeMap)
    requires c.rex.x == ExtensionX(mode, buf, p.offset) && c.rex.b == ExtensionB(mode, buf, p.offset)
    ensures DenotesManualAddress(mode, buf, p.offset, s, OperandsOf(mode, buf, s), regs, nextIp)
  {
    hide OperandAddress, ManualAddress, MemoryOf, OperandList, Reread, KeepsAddress, UsesModRMPair, PassesZero,
         TableEncoding, ExtensionX, ExtensionB, FormStart;
    ListMemory(mode, s.ctx, Reread(buf, s.ctx), s.immediate);
    if HasMemoryOperand(s.ctx) {
      MemoryHasModRM(s.ctx);
      RouteAddress(mode, buf, p, h, c, s, regs, nextIp);
    }
  }

  lemma MemoryHasModRM(c: Context)
    requires HasMemoryOperand(c)
    ensures c.hasModRM
  {
  }

  /** Effective-address preservation, for every byte string, register file and instruction
      pointer: every accepted instruction in an encoding that the tables speak of. */
  lemma EffectiveAddress(mode: MachineMode, buf: seq<byte>, regs: RegisterFile, nextIp: nat)
    requires Decode(mode, buf).Ok? && TableEncoding(mode, Decode(mode, buf).value.ctx)
    ensures Prefixed(mode, buf).offset < |buf|
    ensures var s := Decode(mode, buf).value;
      DenotesManualAddress(mode, buf, Prefixed(mode, buf).offset, s, OperandsOf(mode, buf, s), regs, nextIp)
  {
    hide Drive, OperandsOf, DenotesManualAddress, DecodeHead, TableEncoding, ExtensionX, ExtensionB, FormStart;
    Accepted(mode, buf);
    var p, h, c, s := Run(mode, buf);
    RexIsLast(mode, buf, RESET);
    RawBits(mode, buf, p, h, c, s);
    EffectiveAddressAt(mode, buf, p, h, c, s, regs, nextIp);
  }
}
