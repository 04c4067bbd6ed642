/** The bounded formatter: every append writes into the caller's character buffer at a position,
    with a count of what remains, and keeps the last place for the terminator. Each method is
    proved to append its text as far as it fits. */
module Formatter {
  import opened Types
  import opened Text
  import opened Numbers

  /** How much of a text of this length goes into the room that remains. */
  function Room(remaining: nat, length: nat): nat {
    if remaining <= 1 then 0 else if length < remaining - 1 then length else remaining - 1
  }

  /** Only the first pos characters of text went in, at start; nothing else changed. */
  ghost predicate Wrote(before: seq<char>, after: seq<char>, start: nat, remaining: nat, pos: nat, text: string) {
    && |after| == |before|
    && start + remaining <= |before|
    && pos == Room(remaining, |text|)
    && after == before[..start] + text[..pos] + before[start + pos..]
  }

  lemma WroteNothing(buf: seq<char>, start: nat, remaining: nat)
    requires start + remaining <= |buf|
    ensures Wrote(buf, buf, start, remaining, 0, "")
  {
  }

  /** Bounded appends compose like concatenation. */
  lemma WroteBoth(s0: seq<char>, s1: seq<char>, s2: seq<char>, start: nat, remaining: nat,
                  p: nat, t: string, w: nat, u: string)
    requires Wrote(s0, s1, start, remaining, p, t)
    requires p <= remaining && Wrote(s1, s2, start + p, remaining - p, w, u)
    ensures Wrote(s0, s2, start, remaining, p + w, t + u)
  {
    assert s1[..start + p] == s0[..start] + t[..p];
    assert s1[start + p + w..] == s0[start + p + w..];
    assert (t + u)[..p + w] == t[..p] + u[..w];
  }

  /** No `remaining - pos` underflows. */
  lemma WroteFits(s0: seq<char>, s1: seq<char>, start: nat, remaining: nat, pos: nat, text: string)
    requires Wrote(s0, s1, start, remaining, pos, text)
    ensures pos <= remaining && (remaining > 0 ==> pos < remaining)
  {
  }

  /** A full buffer stays as it is whatever else is to be appended. */
  lemma WroteFull(s0: seq<char>, s1: seq<char>, start: nat, remaining: nat, p: nat, t: string, u: string)
    requires Wrote(s0, s1, start, remaining, p, t) && remaining <= p + 1
    ensures Wrote(s0, s1, start, remaining, p, t + u)
  {
    assert (t + u)[..p] == t[..p];
  }

  // ---------------------------------------------------------------- primitives

  /** The buffer after the first i characters of a text were copied to start. */
  function Copied(before: seq<char>, start: nat, text: string, i: nat): seq<char>
    requires i <= |text| && start + i <= |before|
  {
    before[..start] + text[..i] + before[start + i..]
  }

  lemma CopyStep(before: seq<char>, start: nat, text: string, i: nat)
    requires i < |text| && start + i < |before|
    ensures Copied(before, start, text, i)[start + i := text[i]] == Copied(before, start, text, i + 1)
  {
    assert text[..i + 1] == text[..i] + [text[i]];
  }

  lemma CopyStart(before: seq<char>, start: nat, text: string)
    requires start <= |before|
    ensures Copied(before, start, text, 0) == before
  {
  }

  method SafeAppend(buf: array<char>, start: nat, remaining: nat, src: string) returns (written: nat)
    requires start + remaining <= buf.Length
    modifies buf
    ensures Wrote(old(buf[..]), buf[..], start, remaining, written, src)
  {
    written := 0;
    if remaining <= 1 { return; }
    ghost var before := buf[..];
    CopyStart(before, start, src);
    while written < |src| && written < remaining - 1
      invariant written <= |src| && written <= remaining - 1
      invariant buf[..] == Copied(before, start, src, written)
    {
      CopyStep(before, start, src, written);
      buf[start + written] := src[written];
      written := written + 1;
    }
  }

  method SafeAppendChar(buf: array<char>, start: nat, remaining: nat, c: char) returns (written: nat)
    requires start + remaining <= buf.Length
    modifies buf
    ensures Wrote(old(buf[..]), buf[..], start, remaining, written, [c])
  {
    if remaining <= 1 { return 0; }
    buf[start] := c;
    return 1;
  }

  method AppendLowercase(buf: array<char>, start: nat, remaining: nat, name: string) returns (written: nat)
    requires start + remaining <= buf.Length
    modifies buf
    ensures Wrote(old(buf[..]), buf[..], start, remaining, written, Lower(name))
  {
    if remaining <= 1 || |name| == 0 { return 0; }
    written := if |name| < remaining - 1 then |name| else remaining - 1;
    ghost var before := buf[..];
    CopyStart(before, start, Lower(name));
    for i := 0 to written
      invariant buf[..] == Copied(before, start, Lower(name), i)
    {
      CopyStep(before, start, Lower(name), i);
      buf[start + i] := ToLower(name[i]);
    }
  }

  /** The digits of a value, least significant first, as the digit loop stores them. */
  function Backwards(v: nat): string {
    if v < 16 then [HEX_DIGITS[v]] else [HEX_DIGITS[v % 16]] + Backwards(v / 16)
  }

  function Reverse(s: string): string {
    if s == "" then "" else Reverse(s[1..]) + [s[0]]
  }

  lemma {:induction false} ReverseBackwards(v: nat)
    ensures Reverse(Backwards(v)) == Hex(v) && |Backwards(v)| == |Hex(v)|
  {
    if v < 16 {
      assert Backwards(v)[1..] == "";
    } else {
      ReverseBackwards(v / 16);
      assert Backwards(v)[1..] == Backwards(v / 16);
    }
  }

  /** The digits that are still to come when v is left. */
  function DigitsLeft(v: nat): string { if v == 0 then "" else Backwards(v) }

  lemma DigitsLeftStep(done: string, v: nat)
    requires v > 0
    ensures done + DigitsLeft(v) == done + [HEX_DIGITS[v % 16]] + DigitsLeft(v / 16)
  {
    assert DigitsLeft(v) == [HEX_DIGITS[v % 16]] + DigitsLeft(v / 16);
  }

  lemma DigitsFit(value: nat)
    requires 0 < value < TWO_64
    ensures DigitsLeft(value) == Backwards(value) && |DigitsLeft(value)| <= 16
    ensures DigitsLeft(0) == ""
  {
    SixteenDigits(value);
    ReverseBackwards(value);
  }

  /** The digit loop: at most sixteen digits, least significant first. */
  method DigitLoop(value: nat, digits: array<char>) returns (ndig: nat)
    requires 0 < value < TWO_64 && digits.Length == 16
    modifies digits
    ensures ndig <= 16 && digits[..ndig] == Backwards(value)
  {
    DigitsFit(value);
    hide DigitsLeft, Backwards, Hex;
    ndig := 0;
    var v := value;
    while v != 0
      invariant ndig <= 16 && digits[..ndig] + DigitsLeft(v) == DigitsLeft(value)
      decreases v
    {
      ghost var done := digits[..ndig];
      var d := HEX_DIGITS[v % 16];
      DigitsLeftStep(done, v);
      assert |done + [d] + DigitsLeft(v / 16)| <= 16;
      digits[ndig] := d;
      assert digits[..ndig + 1] == done + [d];
      ndig := ndig + 1;
      v := v / 16;
    }
    assert digits[..ndig] + "" == digits[..ndig];
  }

  lemma {:induction false} ReverseStep(s: string, i: nat)
    requires i < |s|
    ensures Reverse(s[i..]) == Reverse(s[i + 1..]) + [s[i]]
  {
    assert s[i..][0] == s[i] && s[i..][1..] == s[i + 1..];
  }

  /** Copies the digits in reverse after what temp already holds. */
  method CopyReversed(digits: array<char>, ndig: nat, temp: array<char>, at: nat) returns (len: nat)
    requires ndig <= digits.Length && at + ndig <= temp.Length && digits != temp
    modifies temp
    ensures len == at + ndig && temp[..at] == old(temp[..at])
    ensures temp[at..len] == Reverse(digits[..ndig])
  {
    len := at;
    var i := ndig;
    ghost var s := digits[..ndig];
    while i > 0
      invariant 0 <= i <= ndig && len == at + ndig - i && digits[..ndig] == s
      invariant temp[..at] == old(temp[..at]) && temp[at..len] == Reverse(s[i..])
    {
      ReverseStep(s, i - 1);
      temp[len] := digits[i - 1];
      len := len + 1;
      i := i - 1;
    }
    assert s[0..] == s;
  }

  /** "0x" if asked for, then the digits, through scratch arrays of 20 and 16 characters. */
  method SafeAppendHex(buf: array<char>, start: nat, remaining: nat, value: nat, prefix0x: bool)
    returns (written: nat)
    requires start + remaining <= buf.Length && value < TWO_64
    modifies buf
    ensures Wrote(old(buf[..]), buf[..], start, remaining, written, (if prefix0x then "0x" else "") + Hex(value))
  {
    if remaining <= 1 { return 0; }
    var temp := new char[20](_ => ' ');
    var len := 0;
    if prefix0x {
      temp[0], temp[1] := '0', 'x';
      len := 2;
    }
    ghost var head := temp[..len];
    if value == 0 {
      temp[len] := '0';
      len := len + 1;
    } else {
      var digits := new char[16](_ => ' ');
      var ndig := DigitLoop(value, digits);
      ReverseBackwards(value);
      len := CopyReversed(digits, ndig, temp, len);
    }
    assert temp[..len] == head + Hex(value);
    assert head == if prefix0x then "0x" else "";
    temp[len] := '\0';
    written := SafeAppend(buf, start, remaining, temp[..len]);
  }

  // ---------------------------------------------------------------- operands

  method FormatRegister(reg: Register, buf: array<char>, start: nat, remaining: nat) returns (written: nat)
    requires start + remaining <= buf.Length
    modifies buf
    ensures Wrote(old(buf[..]), buf[..], start, remaining, written, RegisterText(reg))
  {
    if reg == NoRegister { return 0; }
    written := AppendLowercase(buf, start, remaining, RegisterName(reg));
  }

  method FormatSizePrefix(size: nat, buf: array<char>, start: nat, remaining: nat) returns (written: nat)
    requires start + remaining <= buf.Length
    modifies buf
    ensures Wrote(old(buf[..]), buf[..], start, remaining, written, SizePrefix(size))
  {
    written := SafeAppend(buf, start, remaining, SizePrefix(size));
  }

  /** A 64-bit displacement that is not negated when it is the least one. */
  predicate NegatableMemory(m: Memory) {
    && -0x8000_0000_0000_0000 <= m.displacement < 0x8000_0000_0000_0000
    && (m.hasDisplacement && (m.base != NoRegister || m.index != NoRegister) ==>
          m.displacement != -0x8000_0000_0000_0000)
  }

  /** The values whose negation the formatter computes are not the least 64-bit integer. */
  predicate Negatable(op: Operand) {
    match op
    case MemoryOperand(_, m) => NegatableMemory(m)
    case ImmediateOperand(_, value, isSigned, isRelative) =>
      -0x8000_0000_0000_0000 <= value < 0x8000_0000_0000_0000
      && (isSigned && !isRelative ==> value != -0x8000_0000_0000_0000)
    case FarPointer(_, selector, target) => selector < TWO_16 && target < TWO_32
    case _ => true
  }

  /** The segment register and its colon, if there is an override. */
  method FormatOverride(m: Memory, buf: array<char>, start: nat, remaining: nat) returns (pos: nat)
    requires start + remaining <= buf.Length
    modifies buf
    ensures Wrote(old(buf[..]), buf[..], start, remaining, pos, SegmentText(m))
  {
    hide Wrote, RegisterText;
    ghost var s0 := buf[..];
    WroteNothing(s0, start, remaining);
    pos := 0;
    if m.segment != NoRegister {
      ghost var t := RegisterText(m.segment);
      pos := FormatRegister(m.segment, buf, start, remaining);
      WroteFits(s0, buf[..], start, remaining, pos, t);
      ghost var s1 := buf[..];
      var w := SafeAppendChar(buf, start + pos, remaining - pos, ':');
      WroteBoth(s0, s1, buf[..], start, remaining, pos, t, w, ":");
      pos := pos + w;
    }
  }

  /** Segment override and opening bracket. */
  method FormatSegment(m: Memory, buf: array<char>, start: nat, remaining: nat) returns (pos: nat)
    requires start + remaining <= buf.Length
    modifies buf
    ensures Wrote(old(buf[..]), buf[..], start, remaining, pos, SegmentText(m) + "[")
  {
    hide Wrote, SegmentText;
    ghost var s0, t := buf[..], SegmentText(m);
    pos := FormatOverride(m, buf, start, remaining);
    WroteFits(s0, buf[..], start, remaining, pos, t);
    ghost var s1 := buf[..];
    var w := SafeAppendChar(buf, start + pos, remaining - pos, '[');
    WroteBoth(s0, s1, buf[..], start, remaining, pos, t, w, "[");
    pos := pos + w;
  }

  /** The asterisk and the scale digit. */
  method FormatScale(m: Memory, buf: array<char>, start: nat, remaining: nat) returns (pos: nat)
    requires start + remaining <= buf.Length
    modifies buf
    ensures Wrote(old(buf[..]), buf[..], start, remaining, pos,
                  "*" + [DigitChar(if m.scale == 0 then 1 else m.scale)])
  {
    hide Wrote;
    ghost var s0 := buf[..];
    pos := SafeAppendChar(buf, start, remaining, '*');
    WroteFits(s0, buf[..], start, remaining, pos, "*");
    ghost var s1 := buf[..];
    var scale := if m.scale == 0 then 1 else m.scale;
    var w := SafeAppendChar(buf, start + pos, remaining - pos, DigitChar(scale));
    WroteBoth(s0, s1, buf[..], start, remaining, pos, "*", w, [DigitChar(scale)]);
    pos := pos + w;
  }

  /** The plus sign after a base, and the index register. */
  method FormatIndexRegister(m: Memory, buf: array<char>, start: nat, remaining: nat) returns (pos: nat)
    requires start + remaining <= buf.Length
    modifies buf
    ensures Wrote(old(buf[..]), buf[..], start, remaining, pos,
                  (if m.base != NoRegister then "+" else "") + RegisterText(m.index))
  {
    hide Wrote, RegisterText;
    ghost var s0 := buf[..];
    ghost var t := if m.base != NoRegister then "+" else "";
    WroteNothing(s0, start, remaining);
    pos := 0;
    if m.base != NoRegister {
      pos := SafeAppendChar(buf, start, remaining, '+');
    }
    WroteFits(s0, buf[..], start, remaining, pos, t);
    ghost var s1 := buf[..];
    var w := FormatRegister(m.index, buf, start + pos, remaining - pos);
    WroteBoth(s0, s1, buf[..], start, remaining, pos, t, w, RegisterText(m.index));
    pos := pos + w;
  }

  lemma IndexParts(m: Memory)
    requires m.index != NoRegister
    ensures (if m.base != NoRegister then "+" else "") + RegisterText(m.index)
            + ("*" + [DigitChar(if m.scale == 0 then 1 else m.scale)]) == IndexText(m)
  {
    hide RegisterText, DigitChar;
  }

  /** Index register and scale. */
  method FormatIndex(m: Memory, buf: array<char>, start: nat, remaining: nat) returns (pos: nat)
    requires start + remaining <= buf.Length
    modifies buf
    ensures Wrote(old(buf[..]), buf[..], start, remaining, pos, IndexText(m))
  {
    hide Wrote, RegisterText, DigitChar;
    ghost var s0 := buf[..];
    WroteNothing(s0, start, remaining);
    pos := 0;
    if m.index == NoRegister { return; }
    IndexParts(m);
    hide IndexText;
    ghost var t := (if m.base != NoRegister then "+" else "") + RegisterText(m.index);
    ghost var u := "*" + [DigitChar(if m.scale == 0 then 1 else m.scale)];
    pos := FormatIndexRegister(m, buf, start, remaining);
    WroteFits(s0, buf[..], start, remaining, pos, t);
    ghost var s1 := buf[..];
    var w := FormatScale(m, buf, start + pos, remaining - pos);
    WroteBoth(s0, s1, buf[..], start, remaining, pos, t, w, u);
    pos := pos + w;
  }

  /** A character, then a hexadecimal number. */
  method FormatSignAndHex(sign: char, value: nat, buf: array<char>, start: nat, remaining: nat) returns (pos: nat)
    requires start + remaining <= buf.Length && value < TWO_64
    modifies buf
    ensures Wrote(old(buf[..]), buf[..], start, remaining, pos, [sign] + Hex0x(value))
  {
    ghost var s0 := buf[..];
    pos := SafeAppendChar(buf, start, remaining, sign);
    ghost var s1 := buf[..];
    var w := SafeAppendHex(buf, start + pos, remaining - pos, value, true);
    WroteBoth(s0, s1, buf[..], start, remaining, pos, [sign], w, Hex0x(value));
    pos := pos + w;
  }

  method FormatDisplacement(m: Memory, hasComponent: bool, buf: array<char>, start: nat, remaining: nat)
    returns (pos: nat)
    requires start + remaining <= buf.Length
    requires hasComponent == (m.base != NoRegister || m.index != NoRegister)
    requires NegatableMemory(m)
    modifies buf
    ensures Wrote(old(buf[..]), buf[..], start, remaining, pos, DisplacementText(m))
  {
    WroteNothing(buf[..], start, remaining);
    pos := 0;
    var d := m.displacement;
    if m.hasDisplacement && (d != 0 || !hasComponent) {
      if hasComponent {
        if d >= 0 {
          pos := FormatSignAndHex('+', d, buf, start, remaining);
        } else {
          pos := FormatSignAndHex('-', -d, buf, start, remaining);
        }
      } else {
        pos := SafeAppendHex(buf, start, remaining, d % TWO_64, true);
      }
    } else if !hasComponent {
      pos := SafeAppendHex(buf, start, remaining, 0, true);
    }
  }

  /** Size, segment, bracket and base register. */
  function MemoryHead(size: nat, m: Memory): string {
    SizePrefix(size) + (SegmentText(m) + "[") + RegisterText(m.base)
  }

  /** Index, displacement and closing bracket. */
  function MemoryTail(m: Memory): string { IndexText(m) + DisplacementText(m) + "]" }

  lemma MemoryParts(size: nat, m: Memory)
    ensures MemoryHead(size, m) + MemoryTail(m) == MemoryText(size, m)
  {
    hide SizePrefix, SegmentText, IndexText, DisplacementText, RegisterText;
  }

  method FormatMemoryHead(m: Memory, size: nat, buf: array<char>, start: nat, remaining: nat) returns (pos: nat)
    requires start + remaining <= buf.Length
    modifies buf
    ensures Wrote(old(buf[..]), buf[..], start, remaining, pos, MemoryHead(size, m))
  {
    hide Wrote, SizePrefix, SegmentText, RegisterText;
    ghost var s0 := buf[..];
    pos := FormatSizePrefix(size, buf, start, remaining);
    ghost var t, u := SizePrefix(size), SegmentText(m) + "[";
    WroteFits(s0, buf[..], start, remaining, pos, t);
    ghost var s1 := buf[..];
    var w := FormatSegment(m, buf, start + pos, remaining - pos);
    WroteBoth(s0, s1, buf[..], start, remaining, pos, t, w, u);
    pos := pos + w;
    WroteFits(s0, buf[..], start, remaining, pos, t + u);
    ghost var s2 := buf[..];
    w := FormatRegister(m.base, buf, start + pos, remaining - pos);
    WroteBoth(s0, s2, buf[..], start, remaining, pos, t + u, w, RegisterText(m.base));
    pos := pos + w;
  }

  method FormatMemoryTail(m: Memory, buf: array<char>, start: nat, remaining: nat) returns (pos: nat)
    requires start + remaining <= buf.Length
    requires NegatableMemory(m)
    modifies buf
    ensures Wrote(old(buf[..]), buf[..], start, remaining, pos, MemoryTail(m))
  {
    hide Wrote, IndexText, DisplacementText;
    ghost var s0 := buf[..];
    pos := FormatIndex(m, buf, start, remaining);
    ghost var t, u := IndexText(m), DisplacementText(m);
    WroteFits(s0, buf[..], start, remaining, pos, t);
    ghost var s1 := buf[..];
    var hasComponent := m.base != NoRegister || m.index != NoRegister;
    var w := FormatDisplacement(m, hasComponent, buf, start + pos, remaining - pos);
    WroteBoth(s0, s1, buf[..], start, remaining, pos, t, w, u);
    pos := pos + w;
    WroteFits(s0, buf[..], start, remaining, pos, t + u);
    ghost var s2 := buf[..];
    w := SafeAppendChar(buf, start + pos, remaining - pos, ']');
    WroteBoth(s0, s2, buf[..], start, remaining, pos, t + u, w, "]");
    pos := pos + w;
  }

  method FormatMemory(m: Memory, size: nat, buf: array<char>, start: nat, remaining: nat) returns (pos: nat)
    requires start + remaining <= buf.Length
    requires NegatableMemory(m)
    modifies buf
    ensures Wrote(old(buf[..]), buf[..], start, remaining, pos, MemoryText(size, m))
  {
    hide Wrote, MemoryHead, MemoryTail, MemoryText;
    ghost var s0 := buf[..];
    MemoryParts(size, m);
    pos := FormatMemoryHead(m, size, buf, start, remaining);
    WroteFits(s0, buf[..], start, remaining, pos, MemoryHead(size, m));
    ghost var s1 := buf[..];
    var w := FormatMemoryTail(m, buf, start + pos, remaining - pos);
    WroteBoth(s0, s1, buf[..], start, remaining, pos, MemoryHead(size, m), w, MemoryTail(m));
    pos := pos + w;
  }

  method FormatSmallOrHex(value: nat, buf: array<char>, start: nat, remaining: nat) returns (pos: nat)
    requires start + remaining <= buf.Length && value < TWO_64
    modifies buf
    ensures Wrote(old(buf[..]), buf[..], start, remaining, pos, SmallOrHex(value))
  {
    if value <= 9 {
      pos := SafeAppendChar(buf, start, remaining, DigitChar(value));
    } else {
      pos := SafeAppendHex(buf, start, remaining, value, true);
    }
  }

  method FormatImmediate(value: int, isSigned: bool, isRelative: bool, address: nat, length: nat,
                         buf: array<char>, start: nat, remaining: nat) returns (pos: nat)
    requires start + remaining <= buf.Length
    requires -0x8000_0000_0000_0000 <= value < 0x8000_0000_0000_0000
    requires isSigned && !isRelative ==> value != -0x8000_0000_0000_0000
    modifies buf
    ensures Wrote(old(buf[..]), buf[..], start, remaining, pos,
                  if isRelative then Hex0x(BranchTarget(address, length, value)) else ImmediateText(value, isSigned))
  {
    hide Wrote, SmallOrHex;
    if isRelative {
      pos := SafeAppendHex(buf, start, remaining, BranchTarget(address, length, value), true);
    } else if isSigned && value < 0 {
      ghost var s0 := buf[..];
      pos := SafeAppendChar(buf, start, remaining, '-');
      WroteFits(s0, buf[..], start, remaining, pos, "-");
      ghost var s1 := buf[..];
      var w := FormatSmallOrHex(-value, buf, start + pos, remaining - pos);
      WroteBoth(s0, s1, buf[..], start, remaining, pos, "-", w, SmallOrHex(-value));
      pos := pos + w;
    } else {
      pos := FormatSmallOrHex(value % TWO_64, buf, start, remaining);
    }
  }

  /** Selector, colon and offset. */
  method FormatFarPointer(selector: nat, target: nat, buf: array<char>, start: nat, remaining: nat) returns (pos: nat)
    requires start + remaining <= buf.Length && selector < TWO_16 && target < TWO_32
    modifies buf
    ensures Wrote(old(buf[..]), buf[..], start, remaining, pos, Hex0x(selector) + ":" + Hex0x(target))
  {
    hide Wrote, Hex;
    ghost var s0, t := buf[..], Hex0x(selector);
    pos := SafeAppendHex(buf, start, remaining, selector, true);
    hide Hex0x;
    WroteFits(s0, buf[..], start, remaining, pos, t);
    ghost var s1 := buf[..];
    var w := FormatSignAndHex(':', target, buf, start + pos, remaining - pos);
    WroteBoth(s0, s1, buf[..], start, remaining, pos, t, w, ":" + Hex0x(target));
    assert t + (":" + Hex0x(target)) == t + ":" + Hex0x(target);
    pos := pos + w;
  }

  method FormatOperand(op: Operand, address: nat, length: nat, buf: array<char>, start: nat, remaining: nat)
    returns (pos: nat)
    requires start + remaining <= buf.Length && Negatable(op)
    modifies buf
    ensures Wrote(old(buf[..]), buf[..], start, remaining, pos, OperandText(op, address, length))
  {
    hide Wrote, MemoryText, RegisterText, ImmediateText, BranchTarget, Hex0x;
    WroteNothing(buf[..], start, remaining);
    match op
    case RegisterOperand(_, reg) => pos := FormatRegister(reg, buf, start, remaining);
    case MemoryOperand(size, mem) => pos := FormatMemory(mem, size, buf, start, remaining);
    case ImmediateOperand(_, value, isSigned, isRelative) =>
      pos := FormatImmediate(value, isSigned, isRelative, address, length, buf, start, remaining);
    case FarPointer(_, selector, target) => pos := FormatFarPointer(selector, target, buf, start, remaining);
    case NoOperand => pos := 0;
  }

  // ---------------------------------------------------------------- the instruction

  /** Appends a prefix word if its attribute is set. */
  method FormatWord(present: bool, word: string, ghost s0: seq<char>, ghost t: string,
                    buf: array<char>, remaining: nat, at: nat) returns (pos: nat)
    requires remaining <= buf.Length && Wrote(s0, buf[..], 0, remaining, at, t)
    modifies buf
    ensures Wrote(s0, buf[..], 0, remaining, pos, t + if present then word else "")
  {
    hide Wrote;
    pos := at;
    WroteFits(s0, buf[..], 0, remaining, at, t);
    if present {
      ghost var s1 := buf[..];
      var w := SafeAppend(buf, at, remaining - at, word);
      WroteBoth(s0, s1, buf[..], 0, remaining, at, t, w, word);
      pos := pos + w;
    } else {
      assert t + "" == t;
    }
  }

  method FormatMnemonic(names: nat -> string, inst: Instruction, buf: array<char>, remaining: nat) returns (pos: nat)
    requires remaining <= buf.Length
    modifies buf
    ensures Wrote(old(buf[..]), buf[..], 0, remaining, pos, MnemonicText(names, inst))
  {
    hide Wrote, Lower;
    ghost var s0 := buf[..];
    WroteNothing(s0, 0, remaining);
    var a := inst.attributes;
    pos := FormatWord(a.lock, "lock ", s0, "", buf, remaining, 0);
    ghost var t1 := "" + if a.lock then "lock " else "";
    pos := FormatWord(a.repe || a.rep, if a.repe then "repe " else "rep ", s0, t1, buf, remaining, pos);
    ghost var t2 := t1 + if a.repe || a.rep then (if a.repe then "repe " else "rep ") else "";
    pos := FormatWord(a.repne, "repne ", s0, t2, buf, remaining, pos);
    ghost var t3 := t2 + if a.repne then "repne " else "";
    WroteFits(s0, buf[..], 0, remaining, pos, t3);
    ghost var s1 := buf[..];
    var w := AppendLowercase(buf, pos, remaining - pos, names(inst.mnemonic));
    WroteBoth(s0, s1, buf[..], 0, remaining, pos, t3, w, Lower(names(inst.mnemonic)));
    pos := pos + w;
    assert t1 == if a.lock then "lock " else "";
    assert t3 + Lower(names(inst.mnemonic)) == MnemonicText(names, inst);
  }

  /** Separator and text of one operand, appended to what the buffer already holds. */
  method FormatNext(op: Operand, i: nat, address: nat, length: nat, ghost s0: seq<char>, ghost t: string,
                    buf: array<char>, remaining: nat, at: nat) returns (pos: nat)
    requires remaining <= buf.Length && Negatable(op) && Wrote(s0, buf[..], 0, remaining, at, t)
    modifies buf
    ensures Wrote(s0, buf[..], 0, remaining, pos, t + (if i == 0 then " " else ", ") + OperandText(op, address, length))
  {
    hide Wrote, OperandText;
    var separator := if i == 0 then " " else ", ";
    WroteFits(s0, buf[..], 0, remaining, at, t);
    ghost var s1 := buf[..];
    var w := SafeAppend(buf, at, remaining - at, separator);
    WroteBoth(s0, s1, buf[..], 0, remaining, at, t, w, separator);
    pos := at + w;
    WroteFits(s0, buf[..], 0, remaining, pos, t + separator);
    ghost var s2 := buf[..];
    w := FormatOperand(op, address, length, buf, pos, remaining - pos);
    WroteBoth(s0, s2, buf[..], 0, remaining, pos, t + separator, w, OperandText(op, address, length));
    pos := pos + w;
  }

  /** The buffer holds as much of the text as fits, a terminator, and otherwise what it held. */
  ghost predicate HoldsText(before: seq<char>, after: seq<char>, text: string) {
    && |before| >= 1
    && var k := if |text| <= |before| - 1 then |text| else |before| - 1;
    |after| == |before| && after == text[..k] + ['\0'] + before[k + 1..]
  }

  lemma TerminatedText(before: seq<char>, cleared: seq<char>, written: seq<char>, after: seq<char>, pos: nat, text: string)
    requires |before| >= 1 && cleared == before[0 := '\0']
    requires Wrote(cleared, written, 0, |before|, pos, text) && after == written[pos := '\0']
    ensures HoldsText(before, after, text)
  {
  }

  /** The operand loop: stops at an empty slot or when the buffer is full. */
  method FormatOperands(operands: seq<Operand>, address: nat, length: nat, ghost s0: seq<char>, ghost t0: string,
                        buf: array<char>, at: nat) returns (pos: nat)
    requires forall i :: 0 <= i < |operands| ==> Negatable(operands[i])
    requires Wrote(s0, buf[..], 0, buf.Length, at, t0)
    modifies buf
    ensures Wrote(s0, buf[..], 0, buf.Length, pos, t0 + OperandsText(operands, 0, address, length))
  {
    hide Wrote, OperandText, Negatable;
    pos := at;
    var i := 0;
    ghost var t := t0;
    ghost var full := t0 + OperandsText(operands, 0, address, length);
    WroteFits(s0, buf[..], 0, buf.Length, pos, t);
    while i < |operands| && buf.Length - pos > 1
      invariant 0 <= i <= |operands| && pos <= buf.Length
      invariant Wrote(s0, buf[..], 0, buf.Length, pos, t)
      invariant t + OperandsText(operands, i, address, length) == full
    {
      if operands[i] == NoOperand { break; }
      ghost var next := t + (if i == 0 then " " else ", ") + OperandText(operands[i], address, length);
      pos := FormatNext(operands[i], i, address, length, s0, t, buf, buf.Length, pos);
      WroteFits(s0, buf[..], 0, buf.Length, pos, next);
      assert next + OperandsText(operands, i + 1, address, length)
          == t + OperandsText(operands, i, address, length);
      t := next;
      i := i + 1;
    }
    if i < |operands| && operands[i] != NoOperand {
      WroteFull(s0, buf[..], 0, buf.Length, pos, t, OperandsText(operands, i, address, length));
    } else {
      assert t + "" == t;
    }
  }

  datatype FormatterStyle = Intel | ATT

  class Formatter {
    const names: nat -> string
    var style: FormatterStyle
    var initialized: bool

    constructor (names: nat -> string)
      ensures this.names == names && style == Intel && !initialized
    {
      this.names := names;
      style, initialized := Intel, false;
    }

    method Init(s: FormatterStyle) returns (st: Status)
      modifies this
      ensures st == Success && style == s && initialized
    {
      style, initialized := s, true;
      st := Success;
    }

    /** Formats an instruction. For every buffer of at least one character, the buffer holds
        exactly as much of the unbounded text as fits, terminated, and the status is Success:
        the truncation status is unreachable. */
    method FormatInstruction(inst: Instruction, operands: array?<Operand>, operandCount: nat,
                             buffer: array?<char>, runtimeAddress: nat) returns (st: Status)
      requires operands != null ==> operandCount <= operands.Length || MAX_OPERANDS <= operands.Length
      requires operands != null ==>
        forall i :: 0 <= i < operandCount && i < MAX_OPERANDS ==> Negatable(operands[i])
      modifies buffer
      ensures !initialized ==> st == InternalError
      ensures initialized && (buffer == null || buffer.Length == 0 || (operandCount > 0 && operands == null)) ==>
        st == InvalidInput
      ensures st != Success && buffer != null ==> buffer[..] == old(buffer[..])
      ensures initialized && buffer != null && buffer.Length > 0 && (operandCount == 0 || operands != null) ==>
        var count := if operandCount > MAX_OPERANDS then MAX_OPERANDS else operandCount;
        var ops := if operands == null then [] else operands[..count];
        st == Success && HoldsText(old(buffer[..]), buffer[..], InstructionText(names, inst, ops,
                                   if runtimeAddress != 0 then runtimeAddress else inst.address))
    {
      hide Wrote, Negatable, HoldsText, MnemonicText, OperandsText;
      if !initialized { return InternalError; }
      if buffer == null || buffer.Length == 0 { return InvalidInput; }
      if operandCount > 0 && operands == null { return InvalidInput; }
      var count := if operandCount > MAX_OPERANDS then MAX_OPERANDS else operandCount;
      var ops := if operands == null then [] else operands[..count];
      ghost var before := buffer[..];
      buffer[0] := '\0';
      ghost var cleared := buffer[..];
      assert cleared == before[0 := '\0'];
      var address := if runtimeAddress != 0 then runtimeAddress else inst.address;
      var pos := FormatMnemonic(names, inst, buffer, buffer.Length);
      pos := FormatOperands(ops, address, inst.length, cleared, MnemonicText(names, inst), buffer, pos);
      ghost var text := InstructionText(names, inst, ops, address);
      ghost var written := buffer[..];
      WroteFits(cleared, written, 0, buffer.Length, pos, text);
      if pos >= buffer.Length {
        assert false; // the truncation branch never runs
      }
      buffer[pos] := '\0';
      assert buffer[..] == written[pos := '\0'];
      TerminatedText(before, cleared, written, buffer[..], pos, text);
      return Success;
    }
  }
}
