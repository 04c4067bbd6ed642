/** The opcode maps as tables, one character for each opcode: which bytes follow it. The rows are
    those of appendix A of the Intel SDM, Volume 2, with the entries of this decoder. */
module OpcodeMap {
  import opened Types
  import opened Stream

  // .  nothing           m  ModRM              b  imm8              B  ModRM, imm8
  // z  imm16 or imm32    Z  ModRM, imm16/32    v  imm16/32/64       w  imm16
  // e  imm16 and imm8    o  an address         g  ModRM, imm8 if reg is 0 or 1
  // G  ModRM, imm16/32 if reg is 0 or 1

  function OneByteRow(row: nat): string {
    match row
    case 0 => "mmmmbz..mmmmbz.."
    case 1 => "mmmmbz..mmmmbz.."
    case 2 => "mmmmbz..mmmmbz.."
    case 3 => "mmmmbz..mmmmbz.."
    case 4 => "................"
    case 5 => "................"
    case 6 => "..mm....zZbB...."
    case 7 => "bbbbbbbbbbbbbbbb"
    case 8 => "BZBBmmmmmmmmmmmm"
    case 9 => "................"
    case 10 => "oooo....bz......"
    case 11 => "bbbbbbbbvvvvvvvv"
    case 12 => "BBw.mmBZe.w..b.."
    case 13 => "mmmm....mmmmmmmm"
    case 14 => "bbbbbbbbzz.b...."
    case _ => "......gG......mm"
  }

  function TwoByteRow(row: nat): string {
    match row
    case 0 => "mmmmm.....m.mm.m"
    case 3 => "......m.mmmmmmmm"
    case 7 => "BBBBmmm.mmmmmmmm"
    case 8 => "zzzzzzzzzzzzzzzz"
    case 10 => "...mBmmm..mmBmmm"
    case 11 => "mmmmmmmmmmBmmmmm"
    case 12 => "mmBmBBBm........"
    case _ => "mmmmmmmmmmmmmmmm"
  }

  /** The entry of an opcode. All of map 2 is ModRM, all of map 3 ModRM and imm8. */
  function Entry(opcodeMap: nat, op: byte): char {
    if opcodeMap == 0 then OneByteRow(op / 16)[op % 16]
    else if opcodeMap == 1 then TwoByteRow(op / 16)[op % 16]
    else if opcodeMap == 2 then 'm'
    else 'B'
  }

  predicate TakesModRM(entry: char) {
    entry == 'm' || entry == 'B' || entry == 'Z' || entry == 'g' || entry == 'G'
  }

  /** Immediate bytes of an entry, for the operand width, the address width and the reg field. */
  function ImmediateBytes(entry: char, width: nat, addressWidth: nat, reg: nat): nat {
    if entry == 'b' || entry == 'B' then 1
    else if entry == 'z' || entry == 'Z' then if width == 16 then 2 else 4
    else if entry == 'v' then width / 8
    else if entry == 'w' then 2
    else if entry == 'e' then 3
    else if entry == 'o' then addressWidth / 8
    else if entry == 'g' && reg < 2 then 1
    else if entry == 'G' && reg < 2 then if width == 16 then 2 else 4
    else 0
  }

  ghost predicate EntryFits(c: Context, entry: char) {
    && (OpcodeRequiresModRM(c.opcodeMap, c.opcode) <==> TakesModRM(entry))
    && (c.hasModRM == OpcodeRequiresModRM(c.opcodeMap, c.opcode) && c.operandWidth in {16, 32, 64}
        && c.addressWidth in {16, 32, 64} ==>
          ImmediateSize(c) == ImmediateBytes(entry, c.operandWidth, c.addressWidth, c.opcodeExt))
  }

  lemma ArithmeticEntry(op: byte)
    requires op < 0x40
    ensures Entry(0, op) == if op % 8 <= 3 then 'm' else if op % 8 == 4 then 'b' else if op % 8 == 5 then 'z' else '.'
  {
  }

  lemma Rows00to3F(c: Context)
    requires c.opcodeMap == 0 && c.opcode < 0x40
    ensures EntryFits(c, Entry(0, c.opcode))
  {
    ArithmeticEntry(c.opcode);
    hide Entry;
  }

  lemma Rows40to5F(c: Context)
    requires c.opcodeMap == 0 && 0x40 <= c.opcode < 0x60
    ensures EntryFits(c, Entry(0, c.opcode))
  {
  }

  lemma Row60(c: Context)
    requires c.opcodeMap == 0 && c.opcode / 16 == 6
    ensures EntryFits(c, Entry(0, c.opcode))
  {
  }

  lemma Row70(c: Context)
    requires c.opcodeMap == 0 && c.opcode / 16 == 7
    ensures EntryFits(c, Entry(0, c.opcode))
  {
  }

  lemma Row80(c: Context)
    requires c.opcodeMap == 0 && c.opcode / 16 == 8
    ensures EntryFits(c, Entry(0, c.opcode))
  {
  }

  lemma Row90(c: Context)
    requires c.opcodeMap == 0 && c.opcode / 16 == 9
    ensures EntryFits(c, Entry(0, c.opcode))
  {
  }

  lemma EntryA0(op: byte)
    requires op / 16 == 10
    ensures Entry(0, op) == if op <= 0xA3 then 'o' else if op == 0xA8 then 'b' else if op == 0xA9 then 'z' else '.'
  {
  }

  lemma RowA0(c: Context)
    requires c.opcodeMap == 0 && c.opcode / 16 == 10
    ensures EntryFits(c, Entry(0, c.opcode))
  {
    EntryA0(c.opcode);
    hide Entry;
  }

  lemma RowB0(c: Context)
    requires c.opcodeMap == 0 && c.opcode / 16 == 11
    ensures EntryFits(c, Entry(0, c.opcode))
  {
  }

  lemma RowC0(c: Context)
    requires c.opcodeMap == 0 && c.opcode / 16 == 12
    ensures EntryFits(c, Entry(0, c.opcode))
  {
  }

  lemma RowD0(c: Context)
    requires c.opcodeMap == 0 && c.opcode / 16 == 13
    ensures EntryFits(c, Entry(0, c.opcode))
  {
  }

  lemma RowE0(c: Context)
    requires c.opcodeMap == 0 && c.opcode / 16 == 14
    ensures EntryFits(c, Entry(0, c.opcode))
  {
  }

  lemma RowF0(c: Context)
    requires c.opcodeMap == 0 && c.opcode / 16 == 15
    ensures EntryFits(c, Entry(0, c.opcode))
  {
  }

  lemma TwoByte00(c: Context)
    requires c.opcodeMap == 1 && c.opcode / 16 == 0
    ensures EntryFits(c, Entry(1, c.opcode))
  {
  }

  lemma TwoByte30(c: Context)
    requires c.opcodeMap == 1 && c.opcode / 16 == 3
    ensures EntryFits(c, Entry(1, c.opcode))
  {
  }

  lemma TwoByte70(c: Context)
    requires c.opcodeMap == 1 && c.opcode / 16 == 7
    ensures EntryFits(c, Entry(1, c.opcode))
  {
  }

  lemma TwoByte80(c: Context)
    requires c.opcodeMap == 1 && c.opcode / 16 == 8
    ensures EntryFits(c, Entry(1, c.opcode))
  {
  }

  lemma TwoByteA0(c: Context)
    requires c.opcodeMap == 1 && c.opcode / 16 == 10
    ensures EntryFits(c, Entry(1, c.opcode))
  {
  }

  lemma TwoByteB0(c: Context)
    requires c.opcodeMap == 1 && c.opcode / 16 == 11
    ensures EntryFits(c, Entry(1, c.opcode))
  {
  }

  lemma TwoByteC0(c: Context)
    requires c.opcodeMap == 1 && c.opcode / 16 == 12
    ensures EntryFits(c, Entry(1, c.opcode))
  {
  }

  lemma TwoByteOther(c: Context)
    requires c.opcodeMap == 1 && c.opcode / 16 !in {0, 3, 7, 8, 10, 11, 12}
    ensures EntryFits(c, Entry(1, c.opcode))
  {
  }

  /** The decoder's tests for ModRM and immediates agree with the tables, for every opcode. */
  lemma EntriesFit(c: Context)
    requires c.opcodeMap <= 3
    ensures EntryFits(c, Entry(c.opcodeMap, c.opcode))
  {
    hide EntryFits, Entry;
    if c.opcodeMap == 0 {
      match c.opcode / 16
      case 6 => Row60(c);
      case 7 => Row70(c);
      case 8 => Row80(c);
      case 9 => Row90(c);
      case 10 => RowA0(c);
      case 11 => RowB0(c);
      case 12 => RowC0(c);
      case 13 => RowD0(c);
      case 14 => RowE0(c);
      case 15 => RowF0(c);
      case _ =>
        if c.opcode < 0x40 {
          Rows00to3F(c);
        } else {
          Rows40to5F(c);
        }
    } else if c.opcodeMap == 1 {
      match c.opcode / 16
      case 0 => TwoByte00(c);
      case 3 => TwoByte30(c);
      case 7 => TwoByte70(c);
      case 8 => TwoByte80(c);
      case 10 => TwoByteA0(c);
      case 11 => TwoByteB0(c);
      case 12 => TwoByteC0(c);
      case _ => TwoByteOther(c);
    } else {
      UpperMaps(c);
    }
  }

  lemma UpperMaps(c: Context)
    requires c.opcodeMap in {2, 3}
    ensures EntryFits(c, Entry(c.opcodeMap, c.opcode))
  {
  }
}
