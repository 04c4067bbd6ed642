/** DecodeFull as a function of the byte string: the decoded instruction and its operands. */
module Full {
  import opened Types
  import opened Stream
  import opened Operands
  import opened Locality

  /** The mnemonic, category and ISA-extension tables, which read the mode and the finished
      context and never the buffer, as arbitrary functions. */
  datatype Tables = Tables(
    mnemonic: (MachineMode, Context) -> nat,
    category: nat -> nat,
    isaExtension: Context -> nat)

  datatype Decoded = Decoded(instruction: Instruction, operands: seq<Operand>)

  function AttributesOf(c: Context): Attributes {
    Attributes(c.legacy.lock, c.legacy.rep, false, c.legacy.repne, c.legacy.hasSegment,
               c.legacy.operandSize, c.legacy.addressSize, c.rex.present, c.rex2.present,
               c.vex.present, c.evex.present, c.hasModRM, c.hasSIB, IsRelativeBranch(c))
  }

  function EncodingOf(c: Context): VectorEncoding {
    if c.evex.present then
      VectorEncoding(c.vex.present, true, c.vex.l, c.vex.pp, c.vex.vvvv, c.vex.w,
                     c.evex.z, c.evex.ll, c.evex.b, c.evex.aaa)
    else if c.vex.present then
      VectorEncoding(true, false, c.vex.l, c.vex.pp, c.vex.vvvv, c.vex.w, 0, 0, 0, 0)
    else NO_ENCODING
  }

  /** The first bytes of buf, zero-filled to fifteen. */
  function RawBytes(buf: seq<byte>, length: nat): seq<byte>
    requires length <= |buf| && length <= MAX_INSTRUCTION_LENGTH
  {
    buf[..length] + NO_BYTES[length..]
  }

  function InstructionOf(tables: Tables, mode: MachineMode, c: Context, raw: seq<byte>, count: nat): Instruction {
    var mnemonic := tables.mnemonic(mode, c);
    Instruction(mnemonic, c.offset, count, count, c.operandWidth, c.addressWidth, AttributesOf(c), 0,
                tables.category(mnemonic), tables.isaExtension(c), c.opcodeMap, c.opcode, c.opcodeExt,
                c.modrm, c.sib, c.hasModRM, c.hasSIB, raw, EncodingOf(c),
                if c.legacy.hasSegment then c.legacy.segment else NoRegister)
  }

  /** The operands of an accepted instruction, with the displacement read a second time. */
  function OperandsOf(mode: MachineMode, buf: seq<byte>, s: Streamed): seq<Operand> {
    OperandList(mode, s.ctx, Reread(buf, s.ctx), s.immediate)
  }

  /** The slots of the operand array: the operands, then empty slots. */
  function Slots(ops: seq<Operand>): seq<Operand>
    requires |ops| <= MAX_OPERANDS
  {
    ops + seq(MAX_OPERANDS - |ops|, _ => NoOperand)
  }

  function DecodeFull(tables: Tables, mode: MachineMode, buf: seq<byte>): Result<Decoded>
  {
    if |buf| == 0 then Err(InvalidInput)
    else
      var s :- Decode(mode, buf);
      LengthBound(mode, buf);
      var ops := OperandsOf(mode, buf, s);
      Ok(Decoded(InstructionOf(tables, mode, s.ctx, RawBytes(buf, s.ctx.offset), |ops|), ops))
  }
}
