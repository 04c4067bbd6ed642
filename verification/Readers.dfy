/** Readers for the printed operands, and the laws that reading returns what was printed. */
module Readers {
  import opened Types
  import opened Text
  import opened Numbers
  import opened Names
  import opened Operands
  import opened WellFormed
  import opened Full
  import S = Stream

  // ---------------------------------------------------------------- register names

  const STEMS: seq<string> := ["ax", "cx", "dx", "bx", "sp", "bp", "si", "di"]

  function Decimal(n: nat): string
    requires n < 16
  {
    if n < 10 then [('0' as int + n) as char] else ['1', ('0' as int + n - 10) as char]
  }

  /** The name of register number n of a width, by the rule of section 3.4.1.1 of volume 1 of the
      manual: the eight old registers with e or r before them, the eight new ones with d, w or b
      after them; as bytes l after the letter or the name, and h for numbers 4 to 7 without REX. */
  function RuleName(n: RegisterNumber, size: nat, rex: bool): string {
    if n >= 8 then
      "r" + Decimal(n) + (if size == 64 then "" else if size == 32 then "d" else if size == 16 then "w" else "b")
    else if size == 64 then "r" + STEMS[n]
    else if size == 32 then "e" + STEMS[n]
    else if size == 16 then STEMS[n]
    else if n < 4 then [STEMS[n][0]] + "l"
    else if rex then STEMS[n] + "l"
    else [STEMS[n - 4][0]] + "h"
  }

  lemma OldNames(n: RegisterNumber, size: nat, rex: bool)
    requires n < 8 && size in {8, 16, 32, 64}
    ensures RegisterName(ResolveGPR(n, size, rex)) == RuleName(n, size, rex)
  {
  }

  lemma NewNames(n: RegisterNumber, size: nat, rex: bool)
    requires n >= 8 && size in {8, 16, 32, 64}
    ensures RegisterName(ResolveGPR(n, size, rex)) == RuleName(n, size, rex)
  {
  }

  lemma RuleNameIsLower(n: RegisterNumber, size: nat, rex: bool)
    ensures Lower(RuleName(n, size, rex)) == RuleName(n, size, rex)
  {
    var s := RuleName(n, size, rex);
    forall i | 0 <= i < |s|
      ensures ToLower(s[i]) == s[i]
    {
    }
  }

  /** The register that a number, a width and REX select prints as its name by the rule. */
  lemma RegisterNaming(n: RegisterNumber, size: nat, rex: bool)
    requires size in {8, 16, 32, 64}
    ensures RegisterText(ResolveGPR(n, size, rex)) == RuleName(n, size, rex)
  {
    if n < 8 {
      OldNames(n, size, rex);
    } else {
      NewNames(n, size, rex);
    }
    RuleNameIsLower(n, size, rex);
    hide RuleName, RegisterName;
  }

  // ---------------------------------------------------------------- immediates

  /** One decimal digit, or 0x and hexadecimal digits. */
  function ReadUnsigned(s: string): int {
    if |s| == 1 then DigitValue(s[0]) else if |s| > 2 && s[..2] == "0x" then ParseHex(s[2..]) else 0
  }

  function ReadImmediate(s: string): int {
    if s != "" && s[0] == '-' then -ReadUnsigned(s[1..]) else ReadUnsigned(s)
  }

  lemma SmallReads(v: nat)
    ensures ReadUnsigned(SmallOrHex(v)) == v
    ensures SmallOrHex(v) != "" && SmallOrHex(v)[0] != '-'
  {
    HexRoundTrip(v);
    if v > 9 {
      assert Hex0x(v)[2..] == Hex(v) && Hex0x(v)[..2] == "0x";
    }
  }

  /** The text of an immediate reads back as the value, or as its 64-bit pattern if the operand is
      unsigned. */
  lemma ImmediateReads(value: int, isSigned: bool)
    requires Int64(value)
    ensures ReadImmediate(ImmediateText(value, isSigned)) == if isSigned then value else value % TWO_64
  {
    hide SmallOrHex, ReadUnsigned;
    if isSigned && value < 0 {
      SmallReads(-value);
      assert ("-" + SmallOrHex(-value))[1..] == SmallOrHex(-value);
    } else {
      SmallReads(value % TWO_64);
    }
  }

  /** So it is for every immediate operand of an accepted instruction that is no branch. */
  lemma DecodedImmediateReads(mode: MachineMode, buf: seq<byte>, address: nat, length: nat)
    requires S.Decode(mode, buf).Ok?
    ensures var ops := OperandsOf(mode, buf, S.Decode(mode, buf).value);
      forall i :: 0 <= i < |ops| && ops[i].ImmediateOperand? && !ops[i].isRelative ==>
        ReadImmediate(OperandText(ops[i], address, length))
        == if ops[i].isSigned then ops[i].value else ops[i].value % TWO_64
  {
    hide S.Drive, OperandsOf, ReadImmediate, ImmediateText;
    OperandsWellFormed(mode, buf);
    var s := S.Decode(mode, buf).value;
    var ops := OperandsOf(mode, buf, s);
    forall i | 0 <= i < |ops| && ops[i].ImmediateOperand? && !ops[i].isRelative
      ensures ReadImmediate(OperandText(ops[i], address, length))
           == if ops[i].isSigned then ops[i].value else ops[i].value % TWO_64
    {
      assert WellFormedOperand(s.ctx, ops[i]);
      ImmediateReads(ops[i].value, ops[i].isSigned);
    }
  }

  // ---------------------------------------------------------------- tokens

  /** Where the first separator stands. */
  function WordEnd(s: string): (e: nat)
    ensures e <= |s| && (e < |s| ==> IsSeparator(s[e])) && NoSeparator(s[..e])
  {
    if s == "" || IsSeparator(s[0]) then 0
    else
      var e := WordEnd(s[1..]);
      assert s[..e + 1] == [s[0]] + s[1..][..e];
      e + 1
  }

  function Tokens(s: string): seq<Token>
    decreases |s|
  {
    var e := WordEnd(s);
    if e == |s| then [] else [Token(s[..e], s[e])] + Tokens(s[e + 1..])
  }

  lemma {:induction false} WordEndExact(word: string, c: char, rest: string)
    requires NoSeparator(word) && IsSeparator(c)
    ensures WordEnd(word + [c] + rest) == |word|
  {
    var s := word + [c] + rest;
    assert s[|word|] == c && s[..|word|] == word;
  }

  /** Splitting a text at its separators gives its tokens back. */
  lemma {:induction false} TokensOfFlat(ts: seq<Token>)
    requires Clean(ts)
    ensures Tokens(Flat(ts)) == ts
  {
    if ts != [] {
      var t, rest := ts[0], Flat(ts[1..]);
      WordEndExact(t.word, t.separator, rest);
      var s := t.word + [t.separator] + rest;
      assert s[..|t.word|] == t.word && s[|t.word| + 1..] == rest;
      TokensOfFlat(ts[1..]);
    }
  }

  // ---------------------------------------------------------------- memory operands

  function ReadSize(word: string): nat {
    if word == "byte ptr " then 8
    else if word == "word ptr " then 16
    else if word == "dword ptr " then 32
    else if word == "fword ptr " then 48
    else if word == "qword ptr " then 64
    else if word == "tbyte ptr " then 80
    else if word == "xmmword ptr " then 128
    else if word == "ymmword ptr " then 256
    else if word == "zmmword ptr " then 512
    else 0
  }

  function ReadSegment(word: string): Segment {
    if word == "es" then ES
    else if word == "cs" then CS
    else if word == "ss" then SS
    else if word == "ds" then DS
    else if word == "fs" then FS
    else GS
  }

  /** The addressing register of a name. */
  function ReadRegister(word: string): Register {
    var (width, number) := WidthAndNumber(word);
    if !(0 <= number < 16) then NoRegister
    else if width == 64 then Gpr64(number)
    else if width == 32 then Gpr32(number)
    else if width == 16 then Gpr16(number)
    else Rip
  }

  function ReadHex0x(word: string): nat { if |word| > 2 then ParseHex(word[2..]) else 0 }

  /** The displacement after the register or scale in a token: none, or signed. */
  function ReadOffset(ts: seq<Token>): int
    requires ts != []
  {
    if |ts| == 1 then 0
    else if ts[0].separator == '-' then 0 - ReadHex0x(ts[1].word)
    else ReadHex0x(ts[1].word)
  }

  /** A 64-bit pattern as a signed number. */
  function Signed(v: nat): int { if v >= TWO_64 / 2 then v - TWO_64 else v }

  /** Base, index, scale and displacement between the brackets. A first word that starts with a
      digit is an absolute address; an asterisk follows an index. */
  function ReadBody(ts: seq<Token>): (Register, Register, nat, int) {
    if ts == [] || ts[0].word == "" then (NoRegister, NoRegister, 0, 0)
    else if IsDigit(ts[0].word[0]) then (NoRegister, NoRegister, 0, Signed(ReadHex0x(ts[0].word)))
    else
      var start := if ts[0].separator == '*' then 0 else 1;
      var base := if start == 0 then NoRegister else ReadRegister(ts[0].word);
      if start + 1 < |ts| && ts[start].separator == '*' && ts[start + 1].word != "" then
        (base, ReadRegister(ts[start].word), DigitValue(ts[start + 1].word[0]), ReadOffset(ts[start + 1..]))
      else (base, NoRegister, 0, ReadOffset(ts))
  }

  /** The size and the operand of a memory text. */
  function ReadMemory(s: string): (nat, Memory) {
    var ts := Tokens(s);
    if |ts| < 3 || |ts[0].word| < 2 then (0, Memory(NoRegister, NoRegister, NoRegister, 0, false, 0))
    else
      var head := ts[0].word;
      var n := |head| - 2;
      var (base, index, scale, disp) := ReadBody(ts[2..]);
      (ReadSize(head[..n]),
       Memory(SegmentRegister(ReadSegment(head[n..])), base, index, scale,
              disp != 0 || (base == NoRegister && index == NoRegister), disp))
  }

  lemma SizeReads(size: nat)
    requires size in {8, 16, 32, 48, 64, 80, 128, 256, 512}
    ensures ReadSize(SizePrefix(size)) == size
  {
    assert SizePrefix(size)[0] in ['b', 'w', 'd', 'f', 'q', 't', 'x', 'y', 'z'];
  }

  lemma SegmentReads(s: Segment)
    ensures ReadSegment(SegmentName(s)) == s
  {
    assert SegmentName(s)[0] in ['e', 'c', 's', 'd', 'f', 'g'];
  }

  lemma RegisterReads(r: Register)
    requires IsAddressing(r)
    ensures ReadRegister(RegisterText(r)) == r
    ensures RegisterText(r) != "" && !IsDigit(RegisterText(r)[0])
  {
    hide WidthAndNumber, RegisterText, RegisterName;
    AddressingName(r);
  }

  lemma HexReads(v: nat)
    ensures ReadHex0x(Hex0x(v)) == v && Hex0x(v) != "" && IsDigit(Hex0x(v)[0])
  {
    HexRoundTrip(v);
    assert Hex0x(v)[2..] == Hex(v);
  }

  lemma OffsetReads(word: string, m: Memory)
    requires Printable(m)
    ensures OffsetTokens(word, m) != [] && OffsetTokens(word, m)[0].word == word && OffsetTokens(word, m)[0].separator != '*'
    ensures ReadOffset(OffsetTokens(word, m)) == m.displacement
  {
    hide Hex0x;
    HexReads(Magnitude(m));
    hide ReadHex0x;
  }

  lemma ScaleReads(m: Memory)
    requires m.scale in {1, 2, 4, 8}
    ensures ScaleWord(m) != "" && DigitValue(ScaleWord(m)[0]) == m.scale
  {
  }

  lemma BareReads(m: Memory)
    requires Printable(m) && m.base == NoRegister && m.index == NoRegister
    ensures ReadBody(BodyTokens(m)) == (m.base, m.index, m.scale, m.displacement)
  {
    hide Hex0x;
    var v := if m.hasDisplacement then m.displacement % TWO_64 else 0;
    HexReads(v);
    hide ReadHex0x;
    assert BodyTokens(m)[0].word == Hex0x(v);
  }

  lemma IndexedReads(m: Memory)
    requires Printable(m) && m.index != NoRegister
    ensures ReadBody(BodyTokens(m)) == (m.base, m.index, m.scale, m.displacement)
  {
    hide RegisterText, OffsetTokens, ReadOffset, ReadRegister, ScaleWord;
    RegisterReads(m.index);
    ScaleReads(m);
    OffsetReads(ScaleWord(m), m);
    if m.base != NoRegister {
      RegisterReads(m.base);
    }
    var ts, k := BodyTokens(m), if m.base == NoRegister then 0 else 1;
    assert ts[k] == Token(RegisterText(m.index), '*');
    assert ts[k + 1..] == OffsetTokens(ScaleWord(m), m) && ts[k + 1] == ts[k + 1..][0];
  }

  lemma BodyReads(m: Memory)
    requires Printable(m)
    ensures ReadBody(BodyTokens(m)) == (m.base, m.index, m.scale, m.displacement)
  {
    hide RegisterText, OffsetTokens, ReadOffset, ReadRegister, Hex0x;
    if m.index != NoRegister {
      IndexedReads(m);
    } else if m.base == NoRegister {
      BareReads(m);
    } else {
      RegisterReads(m.base);
      OffsetReads(RegisterText(m.base), m);
      OffsetEnds(RegisterText(m.base), m);
    }
  }

  /** No token of a displacement is followed by an asterisk. */
  lemma OffsetEnds(word: string, m: Memory)
    ensures forall i :: 0 <= i < |OffsetTokens(word, m)| ==> OffsetTokens(word, m)[i].separator != '*'
  {
  }

  /** The text of a memory operand reads back: size, segment, base, index, scale and displacement. */
  lemma MemoryReads(size: nat, m: Memory)
    requires Printable(m) && size in SIZES
    ensures var (z, q) := ReadMemory(MemoryText(size, m)); z == size && q == m.(hasDisplacement := q.hasDisplacement)
  {
    hide MemoryText, RegisterText, SizePrefix, SegmentName, BodyTokens, ReadBody, ReadSize, ReadSegment, Tokens;
    FlatMemory(size, m);
    MemoryClean(size, m);
    TokensOfFlat(MemoryTokens(size, m));
    SegmentNames(m.segment.segment);
    SizeReads(size);
    SegmentReads(m.segment.segment);
    BodyReads(m);
    BodyIsThere(m);
    var ts := MemoryTokens(size, m);
    var head := ts[0].word;
    assert head == SizePrefix(size) + SegmentName(m.segment.segment);
    assert head[..|head| - 2] == SizePrefix(size) && head[|head| - 2..] == SegmentName(m.segment.segment);
    assert ts[2..] == BodyTokens(m);
  }

  lemma BodyIsThere(m: Memory)
    ensures |BodyTokens(m)| >= 1
  {
  }

  /** So it is for every memory operand of an accepted instruction. */
  lemma DecodedMemoryReads(mode: MachineMode, buf: seq<byte>)
    requires S.Decode(mode, buf).Ok?
    ensures var ops := OperandsOf(mode, buf, S.Decode(mode, buf).value);
      forall i :: 0 <= i < |ops| && ops[i].MemoryOperand? ==>
        var (z, q) := ReadMemory(MemoryText(ops[i].size, ops[i].mem));
        z == ops[i].size && q == ops[i].mem.(hasDisplacement := q.hasDisplacement)
  {
    hide S.Drive, OperandsOf, ReadMemory, MemoryText, Printable;
    var ops := OperandsOf(mode, buf, S.Decode(mode, buf).value);
    forall i | 0 <= i < |ops| && ops[i].MemoryOperand?
      ensures var (z, q) := ReadMemory(MemoryText(ops[i].size, ops[i].mem));
        z == ops[i].size && q == ops[i].mem.(hasDisplacement := q.hasDisplacement)
    {
      DecodedMemoryPrintable(mode, buf, i);
      MemoryReads(ops[i].size, ops[i].mem);
    }
  }

  // ---------------------------------------------------------------- far pointers

  function ReadFar(s: string): (nat, nat) {
    var e := WordEnd(s);
    (ReadHex0x(s[..e]), if e < |s| then ReadHex0x(s[e + 1..]) else 0)
  }

  lemma FarReads(size: nat, selector: nat, target: nat, address: nat, length: nat)
    ensures ReadFar(OperandText(FarPointer(size, selector, target), address, length)) == (selector, target)
  {
    hide Hex0x, ReadHex0x;
    HexClean(selector);
    HexReads(selector);
    HexReads(target);
    WordEndExact(Hex0x(selector), ':', Hex0x(target));
    var s := Hex0x(selector) + [':'] + Hex0x(target);
    assert s[..|Hex0x(selector)|] == Hex0x(selector) && s[|Hex0x(selector)| + 1..] == Hex0x(target);
  }
}
