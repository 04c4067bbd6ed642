/** The whole line: prefix words from the prefix bytes, and operands that can be told apart. */
module Lines {
  import opened Types
  import opened Text
  import opened Numbers
  import opened Names
  import opened WellFormed
  import opened Full
  import opened Raw
  import opened Record
  import S = Stream

  // ---------------------------------------------------------------- prefix words

  /** The words that the prefix bytes F0, F3 and F2, or pp of VEX and EVEX, put before a mnemonic. */
  function PrefixWords(mode: MachineMode, buf: seq<byte>): string {
    var run, pp := LegacyRun(buf), PpIn(mode, buf);
    (if 0xF0 in run then "lock " else "")
    + (if 0xF3 in run || pp == 2 then "rep " else "")
    + (if 0xF2 in run || pp == 3 then "repne " else "")
  }

  lemma PrefixWordsExact(tables: Tables, names: nat -> string, mode: MachineMode, buf: seq<byte>)
    requires DecodeFull(tables, mode, buf).Ok?
    ensures var inst := DecodeFull(tables, mode, buf).value.instruction;
      MnemonicText(names, inst) == PrefixWords(mode, buf) + Lower(names(inst.mnemonic))
  {
    hide DecodeFull, Lower, Verdict, FieldsMatch, BytesMatch, EncodingMatches, PpIn, LegacyRun;
    RecordExact(tables, mode, buf);
    var inst := DecodeFull(tables, mode, buf).value.instruction;
    assert AttributesMatch(inst.attributes, mode, buf);
  }

  // ---------------------------------------------------------------- operands of a line

  predicate NoComma(s: string) { forall i :: 0 <= i < |s| ==> s[i] != ',' }

  /** Where the first comma stands. */
  function CommaAt(s: string): (e: nat)
    ensures e <= |s| && (e < |s| ==> s[e] == ',') && NoComma(s[..e])
  {
    if s == "" || s[0] == ',' then 0
    else
      var e := CommaAt(s[1..]);
      assert s[..e + 1] == [s[0]] + s[1..][..e];
      e + 1
  }

  /** The pieces between a comma and a blank. */
  function Split(s: string): seq<string>
    decreases |s|
  {
    var e := CommaAt(s);
    if e == |s| then [s] else [s[..e]] + if e + 2 <= |s| then Split(s[e + 2..]) else [""]
  }

  function Commas(pieces: seq<string>): string {
    if pieces == [] then "" else if |pieces| == 1 then pieces[0] else pieces[0] + ", " + Commas(pieces[1..])
  }

  lemma {:induction false} SplitCommas(pieces: seq<string>)
    requires pieces != [] && forall i :: 0 <= i < |pieces| ==> NoComma(pieces[i])
    ensures Split(Commas(pieces)) == pieces
    decreases |pieces|
  {
    var s, first := Commas(pieces), pieces[0];
    assert NoComma(first);
    if |pieces| == 1 {
      assert CommaAt(s) == |s|;
      assert pieces == [first];
    } else {
      assert s[|first|] == ',' && s[..|first|] == first;
      assert CommaAt(s) == |first|;
      assert s[|first| + 2..] == Commas(pieces[1..]);
      SplitCommas(pieces[1..]);
      assert pieces == [first] + pieces[1..];
    }
  }

  /** The texts of the operands. */
  function Texts(ops: seq<Operand>, address: nat, length: nat): seq<string> {
    seq(|ops|, i requires 0 <= i < |ops| => OperandText(ops[i], address, length))
  }

  predicate NoGap(ops: seq<Operand>) { forall i :: 0 <= i < |ops| ==> ops[i] != NoOperand }

  lemma {:induction false} RestOfLine(ops: seq<Operand>, i: nat, address: nat, length: nat)
    requires NoGap(ops) && 1 <= i < |ops|
    ensures OperandsText(ops, i, address, length) == ", " + Commas(Texts(ops, address, length)[i..])
    decreases |ops| - i
  {
    hide OperandText;
    var ts := Texts(ops, address, length);
    assert ts[i..][0] == ts[i] && ts[i..][1..] == ts[i + 1..];
    if i + 1 < |ops| {
      RestOfLine(ops, i + 1, address, length);
    } else {
      assert OperandsText(ops, i + 1, address, length) == "";
    }
  }

  /** A line without empty slots is a blank and the operand texts between commas. */
  lemma LineOfOperands(ops: seq<Operand>, address: nat, length: nat)
    requires NoGap(ops) && ops != []
    ensures OperandsText(ops, 0, address, length) == " " + Commas(Texts(ops, address, length))
  {
    hide OperandText;
    var ts := Texts(ops, address, length);
    if |ops| == 1 {
      assert OperandsText(ops, 1, address, length) == "";
    } else {
      RestOfLine(ops, 1, address, length);
    }
  }

  // ---------------------------------------------------------------- no comma inside an operand

  lemma NameHasNoComma(r: Register)
    ensures NoComma(RegisterText(r))
  {
    var s := RegisterName(r);
    assert NoComma(s);
    assert forall i :: 0 <= i < |s| ==> ToLower(s[i]) != ',';
  }

  lemma HexHasNoComma(v: nat)
    ensures NoComma(Hex0x(v))
  {
    HexRoundTrip(v);
    hide Hex;
  }

  lemma SmallHasNoComma(v: nat)
    ensures NoComma(SmallOrHex(v))
  {
    HexHasNoComma(v);
  }

  lemma DisplacementHasNoComma(m: Memory)
    ensures NoComma(DisplacementText(m))
  {
    hide Hex0x;
    HexHasNoComma(m.displacement % TWO_64);
    HexHasNoComma(Magnitude(m));
    HexHasNoComma(0);
  }

  lemma MemoryHasNoComma(size: nat, m: Memory)
    requires m.scale in {0, 1, 2, 4, 8}
    ensures NoComma(MemoryText(size, m))
  {
    hide RegisterText, DisplacementText, DigitChar;
    SizeHasNoComma(size);
    hide SizePrefix;
    NameHasNoComma(m.segment);
    NameHasNoComma(m.base);
    IndexHasNoComma(m);
    hide IndexText;
    DisplacementHasNoComma(m);
    var head := SizePrefix(size) + SegmentText(m) + "[";
    Concat(SizePrefix(size), SegmentText(m) + "[");
    assert head == SizePrefix(size) + (SegmentText(m) + "[");
    hide SegmentText;
    Concat(head, RegisterText(m.base));
    Concat(head + RegisterText(m.base), IndexText(m));
    Concat(head + RegisterText(m.base) + IndexText(m), DisplacementText(m));
    Concat(head + RegisterText(m.base) + IndexText(m) + DisplacementText(m), "]");
  }

  lemma Concat(s: string, t: string)
    requires NoComma(s) && NoComma(t)
    ensures NoComma(s + t)
  {
  }

  lemma SizeHasNoComma(size: nat)
    ensures NoComma(SizePrefix(size))
  {
  }

  lemma IndexHasNoComma(m: Memory)
    requires m.scale in {0, 1, 2, 4, 8}
    ensures NoComma(IndexText(m))
  {
    NameHasNoComma(m.index);
    hide RegisterText;
  }

  lemma OperandHasNoComma(c: S.Context, op: Operand, address: nat, length: nat)
    requires WellFormedOperand(c, op)
    ensures NoComma(OperandText(op, address, length))
  {
    hide RegisterText, MemoryText, Hex0x, SmallOrHex;
    match op
    case RegisterOperand(_, reg) => NameHasNoComma(reg);
    case MemoryOperand(size, mem) => MemoryHasNoComma(size, mem);
    case ImmediateOperand(_, value, isSigned, isRelative) =>
      HexHasNoComma(BranchTarget(address, length, value));
      SmallHasNoComma(if isSigned && value < 0 then -value else value % TWO_64);
  }

  /** The operand texts of an accepted instruction can be told apart: what follows the mnemonic is
      nothing, or a blank and a text that splits at its commas into the texts of the operands. */
  lemma LineSplits(mode: MachineMode, buf: seq<byte>, address: nat, length: nat)
    requires S.Decode(mode, buf).Ok?
    ensures var ops := OperandsOf(mode, buf, S.Decode(mode, buf).value);
      var line := OperandsText(ops, 0, address, length);
      if ops == [] then line == "" else line != "" && line[0] == ' ' && Split(line[1..]) == Texts(ops, address, length)
  {
    hide S.Drive, OperandsOf, OperandText, Split, Commas;
    OperandsWellFormed(mode, buf);
    var s := S.Decode(mode, buf).value;
    var ops := OperandsOf(mode, buf, s);
    if ops != [] {
      forall i | 0 <= i < |ops|
        ensures ops[i] != NoOperand && NoComma(OperandText(ops[i], address, length))
      {
        assert WellFormedOperand(s.ctx, ops[i]);
        OperandHasNoComma(s.ctx, ops[i], address, length);
      }
      LineOfOperands(ops, address, length);
      SplitCommas(Texts(ops, address, length));
      var line := OperandsText(ops, 0, address, length);
      assert line[1..] == Commas(Texts(ops, address, length));
    }
  }
}
