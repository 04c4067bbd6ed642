/** Inputs at the limits: the bounds are tight, and where a law has an exception some input
    meets it. */
module Limits {
  import opened Types
  import opened Stream
  import opened Operands
  import opened Locality
  import opened Shape
  import opened Full
  import opened Stability
  import opened Prefixes
  import opened Address

  /** An input that starts with no prefix. */
  lemma NoPrefix(mode: MachineMode, buf: seq<byte>)
    requires buf != [] && !IsRex(mode, buf[0]) && !IsLegacyPrefix(buf[0])
    ensures Prefixed(mode, buf) == RESET
  {
    ScanLocks(mode, 0, buf);
    assert Locks(0) + buf == buf;
  }

  /** A one-byte opcode after the prefixes. */
  lemma OneByteHead(mode: MachineMode, buf: seq<byte>, c: Context)
    requires c.offset < |buf| && buf[c.offset] !in {0x0F, 0x62, 0xC4, 0xC5, 0xD5}
    ensures DecodeHead(mode, buf, c) == Ok(c.(opcodeMap := 0, opcode := buf[c.offset], offset := c.offset + 1))
  {
  }

  /** REX2 without any bit set. */
  lemma Rex2Head(buf: seq<byte>, c: Context)
    requires c.offset + 2 < |buf| && buf[c.offset] == 0xD5 && buf[c.offset + 1] == 0
    ensures DecodeHead(Long64, buf, c)
         == Ok(c.(rex2 := Rex2(true, false, false, false), rex := Rex(true, false, false, false, false),
                  opcode := buf[c.offset + 2], offset := c.offset + 3))
  {
    hide DecodeVEX, DecodeEVEX, DecodeOpcode, VectorOpcode;
  }

  /** An input that starts with a one-byte opcode. */
  lemma OneByteDecodes(mode: MachineMode, buf: seq<byte>)
    requires buf != [] && !IsRex(mode, buf[0]) && !IsLegacyPrefix(buf[0]) && buf[0] !in {0x0F, 0x62, 0xC4, 0xC5, 0xD5}
    ensures var s := DecodeBody(mode, buf, RESET.(opcode := buf[0], offset := 1));
      s.Ok? && s.value.ctx.offset <= MAX_INSTRUCTION_LENGTH ==> Decode(mode, buf) == s
  {
    hide Drive, ScanPrefixes, DecodeHead, DecodeBody, IsLegacyPrefix;
    NoPrefix(mode, buf);
    DecodeUnfolds(mode, buf);
    OneByteHead(mode, buf, RESET);
  }

  lemma SmallValues(buf: seq<byte>, off: nat)
    ensures off < |buf| ==> LittleEndian(buf, off, 1) == buf[off]
    ensures off + 1 < |buf| ==> LittleEndian(buf, off, 2) == buf[off] + 256 * (buf[off + 1] as int)
  {
    if off + 1 < |buf| {
      assert LittleEndian(buf, off + 1, 1) == buf[off + 1];
    }
  }

  // ---------------------------------------------------------------- bounds

  lemma BoundHead(buf: seq<byte>, c: Context)
    requires c.offset + 2 < |buf| && buf[c.offset] == 0x62 && buf[c.offset + 2] == 0 && !c.evex.present
    ensures DecodeHead(Legacy32, buf, c) ==
      if c.offset + 3 >= |buf| then Err(TruncatedInput)
      else Ok(c.(opcodeMap := 0, opcode := 0x62, offset := c.offset + 1))
  {
    hide DecodeVEX, DecodeRex2, VectorOpcode, DecodeEvexPayload;
  }

  /** Seventeen bytes are needed outside 64-bit mode: BOUND after thirteen prefixes is fifteen
      bytes long, and is refused until two more bytes follow. */
  lemma SeventeenIsTight()
    ensures Decode(Legacy32, Locks(13) + [0x62, 0x00, 0x00]) == Err(TruncatedInput)
    ensures Decode(Legacy32, Locks(13) + [0x62, 0x00, 0x00, 0x00]).Ok?
  {
    hide ScanPrefixes, Drive, DecodeHead;
    var short, long := Locks(13) + [0x62, 0x00, 0x00], Locks(13) + [0x62, 0x00, 0x00, 0x00];
    ScanLocks(Legacy32, 13, [0x62, 0x00, 0x00]);
    ScanLocks(Legacy32, 13, [0x62, 0x00, 0x00, 0x00]);
    BoundHead(short, Prefixed(Legacy32, short));
    BoundHead(long, Prefixed(Legacy32, long));
    DecodeUnfolds(Legacy32, short);
    DecodeUnfolds(Legacy32, long);
  }

  /** Twenty-seven bytes can still be too few: REX2 after fifteen prefixes, with SIB, a 32-bit
      displacement and a 32-bit immediate. */
  lemma TwentyEightIsTight()
    ensures var rest: seq<byte> := [0xD5, 0x00, 0x81, 0x84, 0, 0, 0, 0, 0, 0, 0, 0];
      |Locks(15) + rest| == 27 && Decode(Long64, Locks(15) + rest) == Err(TruncatedInput)
  {
    hide ScanPrefixes, Drive;
    var rest: seq<byte> := [0xD5, 0x00, 0x81, 0x84, 0, 0, 0, 0, 0, 0, 0, 0];
    ScanLocks(Long64, 15, rest);
    var buf := Locks(15) + rest;
    DecodeUnfolds(Long64, buf);
    Rex2Head(buf, Prefixed(Long64, buf));
    hide DecodeHead;
    assert buf[18] == 0x84;
  }

  /** Outside 64-bit mode the bytes of an instruction need not decide: LES with a
      register-indirect operand is accepted as two bytes out of three, whatever the third, and
      refused when only those two are there. */
  lemma TwoByteLes(next: byte)
    ensures Decode(Legacy32, [0xC4, 0x00, next]).Ok?
    ensures Decode(Legacy32, [0xC4, 0x00, next]).value.ctx.offset == 2
    ensures Decode(Legacy32, [0xC4, 0x00]) == Err(TruncatedInput)
  {
    hide ScanPrefixes, Drive;
    NoPrefix(Legacy32, [0xC4, 0x00, next]);
    NoPrefix(Legacy32, [0xC4, 0x00]);
    DecodeUnfolds(Legacy32, [0xC4, 0x00, next]);
    DecodeUnfolds(Legacy32, [0xC4, 0x00]);
  }

  // ---------------------------------------------------------------- the second reading

  /** In 16-bit addressing the over-read happens: the operand shows displacement 0 although
      1234h was consumed, and four more bytes change it. */
  lemma OverreadAtEnd()
    ensures var buf: seq<byte> := [0x8B, 0x87, 0x34, 0x12];
      && Decode(Real16, buf).Ok?
      && var s := Decode(Real16, buf).value;
      && s.ctx.offset == 4 && s.displacement == 0x1234
      && TableEncoding(Real16, s.ctx) && HasMemoryOperand(s.ctx) && UsesModRMPair(s.ctx)
      && Overreads(buf, s.ctx) && LosesDisplacement(buf, s) && Reread(buf, s.ctx) == 0
  {
    hide Drive, LittleEndian;
    var buf: seq<byte> := [0x8B, 0x87, 0x34, 0x12];
    OneByteDecodes(Real16, buf);
    SmallValues(buf, 2);
  }

  /** After REX2 the second reading starts one byte early, at the opcode. */
  lemma Rex2RereadsOpcode()
    ensures var buf: seq<byte> := [0xD5, 0x00, 0x8B, 0x40, 0x08];
      && Decode(Long64, buf).Ok?
      && var s := Decode(Long64, buf).value;
      && s.displacement == 8 && !RereadsStream(s.ctx) && RereadOffset(s.ctx) == 2 && Reread(buf, s.ctx) == 0x8B - 0x100
  {
    hide Drive;
    var buf: seq<byte> := [0xD5, 0x00, 0x8B, 0x40, 0x08];
    Rex2Decodes(buf);
    SmallValues(buf, 2);
  }

  lemma Rex2Decodes(buf: seq<byte>)
    requires buf == [0xD5, 0x00, 0x8B, 0x40, 0x08]
    ensures Decode(Long64, buf).Ok? && Decode(Long64, buf).value.displacement == 8
    ensures var c := Decode(Long64, buf).value.ctx;
      && c.prefixCount == 0 && c.rex2.present && !c.evex.present && !c.vex.present
      && c.opcodeMap == 0 && c.opcode == 0x8B && c.hasModRM && !c.hasSIB && c.modrm == 0x40 && c.addressWidth == 64
  {
    hide Drive, ScanPrefixes, LittleEndian;
    NoPrefix(Long64, buf);
    DecodeUnfolds(Long64, buf);
    Rex2Head(buf, RESET);
    hide DecodeHead;
    SmallValues(buf, 4);
  }

  /** In 16-bit addressing mod 0 with rm 5 has no displacement, and four bytes are read again. */
  lemma NoDisplacementReread()
    ensures var buf: seq<byte> := [0x8B, 0x05];
      && Decode(Real16, buf).Ok?
      && var s := Decode(Real16, buf).value;
      && DisplacementSize(s.ctx) == 0 && RereadSize(s.ctx) == 4 && !RereadsStream(s.ctx)
  {
    hide Drive;
    OneByteDecodes(Real16, [0x8B, 0x05]);
  }

  // ---------------------------------------------------------------- addresses

  /** Some memory operand denotes another address than the manual gives to the bytes. */
  ghost predicate WrongAddress(mode: MachineMode, buf: seq<byte>, regs: RegisterFile, nextIp: nat) {
    && Decode(mode, buf).Ok?
    && var c, k := Decode(mode, buf).value.ctx, Prefixed(mode, buf).offset;
    && k < |buf|
    && FormStart(mode, buf, k, c.opcodeMap) < c.offset <= |buf|
    && High2(buf[FormStart(mode, buf, k, c.opcodeMap)]) != 3
    && var ops := OperandsOf(mode, buf, Decode(mode, buf).value);
    exists i :: 0 <= i < |ops| && ops[i].MemoryOperand?
      && OperandAddress(ops[i].mem, c.addressWidth, regs, nextIp) != InstructionAddress(mode, buf, k, c, regs, nextIp)
  }

  lemma AddressIsWrong(mode: MachineMode, buf: seq<byte>, regs: RegisterFile, nextIp: nat)
    requires Decode(mode, buf).Ok?
    requires var s := Decode(mode, buf).value;
      TableEncoding(mode, s.ctx) && HasMemoryOperand(s.ctx) && !KeepsAddress(mode, buf, s, nextIp)
    ensures WrongAddress(mode, buf, regs, nextIp)
  {
    hide Drive, OperandsOf, TableEncoding, HasMemoryOperand, KeepsAddress, FormStart, OperandAddress, InstructionAddress;
    EffectiveAddress(mode, buf, regs, nextIp);
  }

  /** ADD dword ptr [rax+8], 1: an opcode that passes displacement zero. */
  lemma DisplacementDropped(regs: RegisterFile, nextIp: nat)
    ensures WrongAddress(Long64, [0x83, 0x40, 0x08, 0x01], regs, nextIp)
  {
    hide Drive, WrongAddress;
    var buf: seq<byte> := [0x83, 0x40, 0x08, 0x01];
    DroppedDecodes(buf);
    AddressIsWrong(Long64, buf, regs, nextIp);
  }

  lemma DroppedDecodes(buf: seq<byte>)
    requires buf == [0x83, 0x40, 0x08, 0x01]
    ensures Decode(Long64, buf).Ok? && Decode(Long64, buf).value.displacement == 8
    ensures var c := Decode(Long64, buf).value.ctx;
      && !c.rex2.present && !c.evex.present && !c.vex.present
      && c.opcodeMap == 0 && c.opcode == 0x83 && c.hasModRM && c.modrm == 0x40 && c.addressWidth == 64
  {
    hide Drive, LittleEndian;
    OneByteDecodes(Long64, buf);
    SmallValues(buf, 2);
    SmallValues(buf, 3);
  }

  lemma EipDecodes(buf: seq<byte>)
    requires buf == [0x67, 0x8B, 0x05, 0, 0, 0, 0]
    ensures Decode(Long64, buf).Ok?
    ensures var c := Decode(Long64, buf).value.ctx;
      && !c.rex2.present && !c.evex.present && !c.vex.present
      && c.opcodeMap == 0 && c.opcode == 0x8B && c.hasModRM && c.modrm == 0x05 && c.addressWidth == 32
  {
    hide ScanPrefixes, Drive;
    DecodeUnfolds(Long64, buf);
    OneAddressSize(Long64, buf);
    OneByteHead(Long64, buf, Prefixed(Long64, buf));
    hide DecodeHead;
  }

  /** MOV eax, [eip+0]: the base is left out, which shows at every pointer but zero. */
  lemma EipDropped(regs: RegisterFile, nextIp: nat)
    requires nextIp % TWO_32 != 0
    ensures WrongAddress(Long64, [0x67, 0x8B, 0x05, 0, 0, 0, 0], regs, nextIp)
  {
    hide ScanPrefixes, Drive, WrongAddress;
    var buf: seq<byte> := [0x67, 0x8B, 0x05, 0, 0, 0, 0];
    EipDecodes(buf);
    AddressIsWrong(Long64, buf, regs, nextIp);
  }

  lemma OneAddressSize(mode: MachineMode, buf: seq<byte>)
    requires |buf| >= 2 && buf[0] == 0x67 && !IsRex(mode, buf[1]) && !IsLegacyPrefix(buf[1])
    ensures Prefixed(mode, buf)
         == RESET.(offset := 1, prefixCount := 1, legacy := NO_LEGACY.(addressSize := true))
  {
    hide RexOf;
    var c := RESET.(offset := 1, prefixCount := 1, legacy := NO_LEGACY.(addressSize := true));
    assert ScanPrefixes(mode, buf, c) == c;
  }

  /** MOV ax, [bx+1234h] at the end of the input. */
  lemma SixteenBitDisplacementDropped(regs: RegisterFile, nextIp: nat)
    ensures WrongAddress(Real16, [0x8B, 0x87, 0x34, 0x12], regs, nextIp)
  {
    hide Drive, WrongAddress, LosesDisplacement, Overreads, Reread;
    OverreadAtEnd();
    AddressIsWrong(Real16, [0x8B, 0x87, 0x34, 0x12], regs, nextIp);
  }
}
