/** The text of a memory operand determines the operand. */
module Names {
  import opened Types
  import opened Text
  import opened Numbers
  import opened WellFormed
  import opened Stream
  import opened Full
  import opened Shape

  // ---------------------------------------------------------------- register names

  predicate IsLetter(c: char) { 'a' <= c <= 'z' }

  predicate IsDigit(c: char) { '0' <= c <= '9' }

  /** Lower-case letters and digits, starting with a letter. */
  predicate Plain(s: string) {
    |s| > 0 && IsLetter(s[0]) && forall i :: 0 <= i < |s| ==> IsLetter(s[i]) || IsDigit(s[i])
  }

  /** The registers an address can be made of. */
  predicate IsAddressing(r: Register) { r.Gpr64? || r.Gpr32? || r.Gpr16? || r.Rip? }

  function Stem(c1: char, c2: char): int {
    if c1 == 'a' then 0 else if c1 == 'c' then 1
    else if c1 == 'd' then if c2 == 'x' then 2 else 7
    else if c1 == 'b' then if c2 == 'x' then 3 else 5
    else if c2 == 'p' then 4 else 6
  }

  function DecimalDigit(c: char): nat { if IsDigit(c) then (c as int) - ('0' as int) else 0 }

  /** Width and number of the register that a name belongs to. */
  function WidthAndNumber(s: string): (int, int) {
    if |s| == 2 then
      if s[0] == 'r' then (64, DecimalDigit(s[1])) else (16, Stem(s[0], s[1]))
    else if |s| == 3 then
      if s[0] == 'e' then (32, Stem(s[1], s[2]))
      else if s[1] == 'i' then (0, 0)
      else if !IsDigit(s[1]) then (64, Stem(s[1], s[2]))
      else if IsDigit(s[2]) then (64, 10 * DecimalDigit(s[1]) + DecimalDigit(s[2]))
      else (if s[2] == 'd' then 32 else 16, DecimalDigit(s[1]))
    else if |s| == 4 then
      (if s[3] == 'd' then 32 else 16, 10 * DecimalDigit(s[1]) + DecimalDigit(s[2]))
    else (0, 0)
  }

  lemma Name64(i: RegisterNumber)
    ensures Plain(NAMES_64[i]) && WidthAndNumber(NAMES_64[i]) == (64, i as int)
  {
  }

  lemma Name32(i: RegisterNumber)
    ensures Plain(NAMES_32[i]) && WidthAndNumber(NAMES_32[i]) == (32, i as int)
  {
  }

  lemma Name16(i: RegisterNumber)
    ensures Plain(NAMES_16[i]) && WidthAndNumber(NAMES_16[i]) == (16, i as int)
  {
  }

  lemma LowerPlain(s: string)
    requires Plain(s)
    ensures Lower(s) == s
  {
  }

  lemma AddressingName(r: Register)
    requires IsAddressing(r)
    ensures Plain(RegisterName(r)) && RegisterText(r) == RegisterName(r)
    ensures WidthAndNumber(RegisterName(r)) ==
      match r
      case Gpr64(i) => (64, i as int)
      case Gpr32(i) => (32, i as int)
      case Gpr16(i) => (16, i as int)
      case _ => (0, 0)
  {
    hide Lower, Plain, WidthAndNumber;
    match r
    case Gpr64(i) => Name64(i); LowerPlain(RegisterName(r));
    case Gpr32(i) => Name32(i); LowerPlain(RegisterName(r));
    case Gpr16(i) => Name16(i); LowerPlain(RegisterName(r));
    case Rip => RipName(); LowerPlain(RegisterName(r));
  }

  lemma RipName()
    ensures Plain("rip") && WidthAndNumber("rip") == (0, 0)
  {
  }

  /** The name of an addressing register determines it. */
  lemma AddressingNameInjective(r: Register, q: Register)
    requires IsAddressing(r) && IsAddressing(q) && RegisterText(r) == RegisterText(q)
    ensures r == q
  {
    hide Plain, WidthAndNumber, RegisterName, RegisterText;
    AddressingName(r);
    AddressingName(q);
  }

  // ---------------------------------------------------------------- tokens

  predicate IsSeparator(c: char) {
    c == ':' || c == '[' || c == ']' || c == '+' || c == '-' || c == '*'
  }

  predicate NoSeparator(s: string) {
    forall i :: 0 <= i < |s| ==> !IsSeparator(s[i])
  }

  /** A word and the separator after it. */
  datatype Token = Token(word: string, separator: char)

  predicate CleanToken(t: Token) { NoSeparator(t.word) && IsSeparator(t.separator) }

  predicate Clean(ts: seq<Token>) {
    forall i :: 0 <= i < |ts| ==> CleanToken(ts[i])
  }

  function Flat(ts: seq<Token>): string {
    if ts == [] then "" else ts[0].word + [ts[0].separator] + Flat(ts[1..])
  }

  lemma FirstToken(t: Token, u: Token, r: string, q: string)
    requires CleanToken(t) && CleanToken(u)
    requires t.word + [t.separator] + r == u.word + [u.separator] + q
    ensures t == u && r == q
  {
    var s := t.word + [t.separator] + r;
    var n, m := |t.word|, |u.word|;
    assert s[n] == t.separator && s[m] == u.separator;
    if n < m {
      assert false;
    }
    if m < n {
      assert false;
    }
    assert t.word == s[..n] && u.word == s[..m];
    assert r == s[n + 1..] && q == s[m + 1..];
  }

  /** A text has at most one tokenisation. */
  lemma {:induction false} UniqueTokens(ts: seq<Token>, us: seq<Token>)
    requires Clean(ts) && Clean(us) && Flat(ts) == Flat(us)
    ensures ts == us
    decreases |ts|
  {
    if ts != [] && us != [] {
      FirstToken(ts[0], us[0], Flat(ts[1..]), Flat(us[1..]));
      UniqueTokens(ts[1..], us[1..]);
      assert ts == [ts[0]] + ts[1..] && us == [us[0]] + us[1..];
    }
  }

  // ---------------------------------------------------------------- the tokens of a memory operand

  /** Whether the displacement is printed next to a register. */
  predicate ShowsOffset(m: Memory) { m.hasDisplacement && m.displacement != 0 }

  /** The displacement after a register, without its sign. */
  function Magnitude(m: Memory): nat { if m.displacement >= 0 then m.displacement else -m.displacement }

  function OffsetTokens(word: string, m: Memory): seq<Token> {
    if ShowsOffset(m) then
      [Token(word, if m.displacement >= 0 then '+' else '-'), Token(Hex0x(Magnitude(m)), ']')]
    else [Token(word, ']')]
  }

  function ScaleWord(m: Memory): string { [DigitChar(if m.scale == 0 then 1 else m.scale)] }

  function BodyTokens(m: Memory): seq<Token> {
    if m.base == NoRegister && m.index == NoRegister then
      [Token(Hex0x(if m.hasDisplacement then m.displacement % TWO_64 else 0), ']')]
    else if m.index == NoRegister then OffsetTokens(RegisterText(m.base), m)
    else
      (if m.base == NoRegister then [] else [Token(RegisterText(m.base), '+')])
      + [Token(RegisterText(m.index), '*')]
      + OffsetTokens(ScaleWord(m), m)
  }

  function MemoryTokens(size: nat, m: Memory): seq<Token> {
    [Token(SizePrefix(size) + RegisterText(m.segment), ':'), Token("", '[')] + BodyTokens(m)
  }

  lemma {:induction false} FlatConcat(ts: seq<Token>, us: seq<Token>)
    ensures Flat(ts + us) == Flat(ts) + Flat(us)
  {
    if ts == [] {
      assert ts + us == us;
    } else {
      assert (ts + us)[1..] == ts[1..] + us;
      FlatConcat(ts[1..], us);
    }
  }

  lemma FlatOne(t: Token)
    ensures Flat([t]) == t.word + [t.separator]
  {
    assert [t][1..] == [];
  }

  lemma FlatTwo(t: Token, u: Token)
    ensures Flat([t, u]) == t.word + [t.separator] + (u.word + [u.separator])
  {
    assert [t, u][1..] == [u];
    FlatOne(u);
  }

  /** The displacement as it follows a register. */
  lemma FlatOffset(word: string, m: Memory)
    requires m.base != NoRegister || m.index != NoRegister
    ensures Flat(OffsetTokens(word, m)) == word + (DisplacementText(m) + "]")
  {
    if ShowsOffset(m) {
      var t, u := Token(word, if m.displacement >= 0 then '+' else '-'), Token(Hex0x(Magnitude(m)), ']');
      FlatTwo(t, u);
      hide Hex0x;
    } else {
      FlatOne(Token(word, ']'));
      assert DisplacementText(m) == "";
      assert "" + "]" == "]";
    }
  }

  lemma FlatIndexed(m: Memory)
    requires m.index != NoRegister
    ensures Flat(BodyTokens(m)) == RegisterText(m.base) + IndexText(m) + (DisplacementText(m) + "]")
  {
    hide RegisterText, DisplacementText, OffsetTokens, DigitChar;
    var star, offset := [Token(RegisterText(m.index), '*')], OffsetTokens(ScaleWord(m), m);
    FlatOffset(ScaleWord(m), m);
    FlatOne(star[0]);
    FlatConcat(star, offset);
    if m.base == NoRegister {
      EmptyName();
      assert [] + star + offset == star + offset;
    } else {
      var plus := [Token(RegisterText(m.base), '+')];
      FlatOne(plus[0]);
      FlatConcat(plus, star + offset);
      assert plus + star + offset == plus + (star + offset);
    }
  }

  lemma EmptyName()
    ensures RegisterText(NoRegister) == ""
  {
  }

  lemma FlatBody(m: Memory)
    ensures Flat(BodyTokens(m)) == RegisterText(m.base) + IndexText(m) + (DisplacementText(m) + "]")
  {
    hide RegisterText, Hex0x, OffsetTokens;
    EmptyName();
    if m.index != NoRegister {
      FlatIndexed(m);
    } else if m.base == NoRegister {
      FlatOne(BodyTokens(m)[0]);
    } else {
      FlatOffset(RegisterText(m.base), m);
    }
  }

  lemma FlatMemory(size: nat, m: Memory)
    requires m.segment != NoRegister
    ensures Flat(MemoryTokens(size, m)) == MemoryText(size, m)
  {
    hide RegisterText, SizePrefix, BodyTokens, IndexText, DisplacementText;
    var t, u := Token(SizePrefix(size) + RegisterText(m.segment), ':'), Token("", '[');
    FlatTwo(t, u);
    FlatConcat([t, u], BodyTokens(m));
    FlatBody(m);
  }

  // ---------------------------------------------------------------- cleanliness

  lemma HexClean(v: nat)
    ensures NoSeparator(Hex0x(v)) && Hex0x(v)[0] == '0'
  {
    HexRoundTrip(v);
    hide Hex;
  }

  lemma PlainClean(s: string)
    requires Plain(s)
    ensures NoSeparator(s)
  {
  }

  /** The memory operands the decoder builds: a real segment, addressing registers, a scale
      exactly with an index. */
  predicate Printable(m: Memory) {
    && m.segment.SegmentRegister?
    && (m.base == NoRegister || IsAddressing(m.base))
    && (m.index == NoRegister || IsAddressing(m.index))
    && (m.index == NoRegister <==> m.scale == 0)
    && m.scale in {0, 1, 2, 4, 8}
    && Int32(m.displacement)
    && (!m.hasDisplacement ==> m.displacement == 0)
  }

  lemma WellFormedIsPrintable(width: nat, m: Memory)
    requires WellFormedMemory(width, m) && width in {16, 32, 64}
    ensures Printable(m)
  {
  }

  lemma OffsetClean(word: string, m: Memory)
    requires NoSeparator(word)
    ensures Clean(OffsetTokens(word, m))
  {
    hide Hex0x, NoSeparator;
    HexClean(Magnitude(m));
  }

  lemma RegisterClean(r: Register)
    requires IsAddressing(r)
    ensures NoSeparator(RegisterText(r))
  {
    AddressingName(r);
    PlainClean(RegisterName(r));
  }

  lemma ScaleClean(m: Memory)
    requires m.scale in {0, 1, 2, 4, 8}
    ensures NoSeparator(ScaleWord(m))
  {
  }

  lemma BodyClean(m: Memory)
    requires Printable(m)
    ensures Clean(BodyTokens(m))
  {
    hide RegisterText, Hex0x, NoSeparator, OffsetTokens, ScaleWord;
    if m.index != NoRegister {
      RegisterClean(m.index);
      ScaleClean(m);
      OffsetClean(ScaleWord(m), m);
    }
    if m.base != NoRegister {
      RegisterClean(m.base);
      OffsetClean(RegisterText(m.base), m);
    }
    HexClean(if m.hasDisplacement then m.displacement % TWO_64 else 0);
  }

  const SIZES: set<nat> := {8, 16, 32, 64, 128}

  lemma SegmentNames(s: Segment)
    ensures RegisterText(SegmentRegister(s)) == SegmentName(s) && |SegmentName(s)| == 2
    ensures NoSeparator(SegmentName(s))
  {
  }

  lemma SizeNames(size: nat)
    requires size in SIZES
    ensures NoSeparator(SizePrefix(size)) && |SizePrefix(size)| >= 9
  {
  }

  lemma SizeInjective(size1: nat, size2: nat)
    requires size1 in SIZES && size2 in SIZES && SizePrefix(size1) == SizePrefix(size2)
    ensures size1 == size2
  {
    assert SizePrefix(size1)[0] == SizePrefix(size2)[0];
  }

  lemma SegmentInjective(s1: Segment, s2: Segment)
    requires SegmentName(s1) == SegmentName(s2)
    ensures s1 == s2
  {
    assert SegmentName(s1)[0] == SegmentName(s2)[0];
  }

  // ---------------------------------------------------------------- injectivity

  lemma Hex0xInjective(v: nat, w: nat)
    requires Hex0x(v) == Hex0x(w)
    ensures v == w
  {
    assert Hex(v) == Hex0x(v)[2..] && Hex(w) == Hex0x(w)[2..];
    HexInjective(v, w);
  }

  /** Equal displacement tokens come from equal displacements. */
  lemma OffsetInjective(w1: string, m: Memory, w2: string, q: Memory)
    requires Printable(m) && Printable(q) && OffsetTokens(w1, m) == OffsetTokens(w2, q)
    ensures w1 == w2 && m.displacement == q.displacement
  {
    hide Hex0x;
    var ts, us := OffsetTokens(w1, m), OffsetTokens(w2, q);
    assert ts[0] == us[0];
    if |ts| == 2 {
      assert ts[1] == us[1];
      Hex0xInjective(Magnitude(m), Magnitude(q));
    }
  }

  lemma NameIsNoNumber(r: Register, v: nat)
    requires IsAddressing(r)
    ensures RegisterText(r) != Hex0x(v)
  {
    hide RegisterText, RegisterName, Hex0x;
    AddressingName(r);
    HexClean(v);
  }

  /** The separators tell which parts are present. */
  lemma SameParts(m: Memory, q: Memory)
    requires Printable(m) && Printable(q) && BodyTokens(m) == BodyTokens(q)
    ensures (m.base == NoRegister) == (q.base == NoRegister) && (m.index == NoRegister) == (q.index == NoRegister)
  {
    hide RegisterText, Hex0x, DigitChar;
    var ts, us := BodyTokens(m), BodyTokens(q);
    assert ts[0] == us[0];
    if |ts| > 1 {
      assert ts[1] == us[1];
    }
    if m.base != NoRegister {
      NameIsNoNumber(m.base, if q.hasDisplacement then q.displacement % TWO_64 else 0);
    }
    if q.base != NoRegister {
      NameIsNoNumber(q.base, if m.hasDisplacement then m.displacement % TWO_64 else 0);
    }
  }

  lemma IndexedInjective(m: Memory, q: Memory)
    requires Printable(m) && Printable(q) && BodyTokens(m) == BodyTokens(q)
    requires m.index != NoRegister && q.index != NoRegister && (m.base == NoRegister) == (q.base == NoRegister)
    ensures m.base == q.base && m.index == q.index && m.scale == q.scale && m.displacement == q.displacement
  {
    hide RegisterText, Hex0x, OffsetTokens;
    var ts, us := BodyTokens(m), BodyTokens(q);
    var k := if m.base == NoRegister then 0 else 1;
    assert ts[k] == us[k];
    AddressingNameInjective(m.index, q.index);
    if k == 1 {
      assert ts[0] == us[0];
      AddressingNameInjective(m.base, q.base);
    }
    assert ts[k + 1..] == OffsetTokens(ScaleWord(m), m) && us[k + 1..] == OffsetTokens(ScaleWord(q), q);
    OffsetInjective(ScaleWord(m), m, ScaleWord(q), q);
    assert ScaleWord(m)[0] == ScaleWord(q)[0];
  }

  lemma BodyInjective(m: Memory, q: Memory)
    requires Printable(m) && Printable(q) && BodyTokens(m) == BodyTokens(q)
    ensures m.base == q.base && m.index == q.index && m.scale == q.scale && m.displacement == q.displacement
  {
    hide RegisterText, Hex0x, OffsetTokens;
    SameParts(m, q);
    if m.index != NoRegister {
      IndexedInjective(m, q);
    } else if m.base != NoRegister {
      OffsetInjective(RegisterText(m.base), m, RegisterText(q.base), q);
      AddressingNameInjective(m.base, q.base);
    } else {
      assert BodyTokens(m)[0] == BodyTokens(q)[0];
      Hex0xInjective(if m.hasDisplacement then m.displacement % TWO_64 else 0,
                     if q.hasDisplacement then q.displacement % TWO_64 else 0);
    }
  }

  lemma MemoryClean(size: nat, m: Memory)
    requires Printable(m) && size in SIZES
    ensures Clean(MemoryTokens(size, m))
  {
    hide RegisterText, SizePrefix, BodyTokens, SegmentName;
    BodyClean(m);
    SizeNames(size);
    SegmentNames(m.segment.segment);
  }

  lemma HeadInjective(size1: nat, s1: Segment, size2: nat, s2: Segment)
    requires size1 in SIZES && size2 in SIZES
    requires SizePrefix(size1) + SegmentName(s1) == SizePrefix(size2) + SegmentName(s2)
    ensures size1 == size2 && s1 == s2
  {
    hide SizePrefix, SegmentName;
    SegmentNames(s1);
    SegmentNames(s2);
    var h1, h2 := SizePrefix(size1) + SegmentName(s1), SizePrefix(size2) + SegmentName(s2);
    assert SizePrefix(size1) == h1[..|h1| - 2] && SizePrefix(size2) == h2[..|h2| - 2];
    assert SegmentName(s1) == h1[|h1| - 2..] && SegmentName(s2) == h2[|h2| - 2..];
    SizeInjective(size1, size2);
    SegmentInjective(s1, s2);
  }

  /** Memory-operand printing is injective on the operands the decoder builds: the text
      determines size, segment, base, index, scale and displacement value. */
  lemma MemoryTextInjective(size1: nat, m: Memory, size2: nat, q: Memory)
    requires Printable(m) && Printable(q) && size1 in SIZES && size2 in SIZES
    requires MemoryText(size1, m) == MemoryText(size2, q)
    ensures size1 == size2 && m.(hasDisplacement := q.hasDisplacement) == q
  {
    hide RegisterText, SizePrefix, BodyTokens, SegmentName, MemoryText;
    FlatMemory(size1, m);
    FlatMemory(size2, q);
    MemoryClean(size1, m);
    MemoryClean(size2, q);
    var ts, us := MemoryTokens(size1, m), MemoryTokens(size2, q);
    UniqueTokens(ts, us);
    assert ts[0] == us[0] && ts[2..] == BodyTokens(m) && us[2..] == BodyTokens(q);
    SegmentNames(m.segment.segment);
    SegmentNames(q.segment.segment);
    HeadInjective(size1, m.segment.segment, size2, q.segment.segment);
    BodyInjective(m, q);
  }

  /** Two memory operands with the same text. */
  predicate PrintAlike(op1: Operand, op2: Operand) {
    op1.MemoryOperand? && op2.MemoryOperand? && MemoryText(op1.size, op1.mem) == MemoryText(op2.size, op2.mem)
  }

  /** So it is for the memory operands of any two accepted instructions. */
  lemma DecodedMemoryInjective(mode1: MachineMode, buf1: seq<byte>, mode2: MachineMode, buf2: seq<byte>)
    requires Decode(mode1, buf1).Ok? && Decode(mode2, buf2).Ok?
    ensures var ops1 := OperandsOf(mode1, buf1, Decode(mode1, buf1).value);
      var ops2 := OperandsOf(mode2, buf2, Decode(mode2, buf2).value);
      forall i, j :: 0 <= i < |ops1| && 0 <= j < |ops2| && PrintAlike(ops1[i], ops2[j]) ==>
        && ops1[i].size == ops2[j].size
        && ops1[i].mem.(hasDisplacement := ops2[j].mem.hasDisplacement) == ops2[j].mem
  {
    hide Drive, OperandsOf, MemoryText, Printable;
    var ops1 := OperandsOf(mode1, buf1, Decode(mode1, buf1).value);
    var ops2 := OperandsOf(mode2, buf2, Decode(mode2, buf2).value);
    forall i, j | 0 <= i < |ops1| && 0 <= j < |ops2| && PrintAlike(ops1[i], ops2[j])
      ensures ops1[i].size == ops2[j].size
      ensures ops1[i].mem.(hasDisplacement := ops2[j].mem.hasDisplacement) == ops2[j].mem
    {
      DecodedMemoryPrintable(mode1, buf1, i);
      DecodedMemoryPrintable(mode2, buf2, j);
      MemoryTextInjective(ops1[i].size, ops1[i].mem, ops2[j].size, ops2[j].mem);
    }
  }

  lemma DecodedMemoryPrintable(mode: MachineMode, buf: seq<byte>, i: nat)
    requires Decode(mode, buf).Ok?
    ensures var ops := OperandsOf(mode, buf, Decode(mode, buf).value);
      i < |ops| && ops[i].MemoryOperand? ==> ops[i].size in SIZES && Printable(ops[i].mem)
  {
    hide Drive, OperandsOf, Printable, WellFormedMemory;
    var p, h, c, s := Run(mode, buf);
    OperandsWellFormed(mode, buf);
    var ops := OperandsOf(mode, buf, s);
    if i < |ops| && ops[i].MemoryOperand? {
      assert WellFormedOperand(s.ctx, ops[i]);
      WellFormedIsPrintable(s.ctx.addressWidth, ops[i].mem);
    }
  }
}
