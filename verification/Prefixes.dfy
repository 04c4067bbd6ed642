/** What a run of legacy prefixes means, and why their order does not matter. */
module Prefixes {
  import opened Types
  import opened Stream
  import opened Operands
  import opened Locality
  import opened Shape
  import opened Full
  import opened Stability

  /** The eleven legacy prefixes of section 2.1.1 of the manual, and the segments of six of them. */
  const LEGACY_PREFIXES: seq<byte> := [0xF0, 0xF2, 0xF3, 0x26, 0x2E, 0x36, 0x3E, 0x64, 0x65, 0x66, 0x67]

  const SEGMENT_OF: map<byte, Segment> :=
    map[0x26 := ES, 0x2E := CS, 0x36 := SS, 0x3E := DS, 0x64 := FS, 0x65 := GS]

  lemma LegacyTable(b: byte)
    ensures IsLegacyPrefix(b) <==> b in LEGACY_PREFIXES
    ensures IsSegmentPrefix(b) <==> b in SEGMENT_OF
    ensures IsSegmentPrefix(b) ==> PrefixSegment(b) == SegmentRegister(SEGMENT_OF[b])
  {
    if b in LEGACY_PREFIXES {
      var i :| 0 <= i < |LEGACY_PREFIXES| && LEGACY_PREFIXES[i] == b;
    }
    assert LEGACY_PREFIXES[0] == 0xF0 && LEGACY_PREFIXES[1] == 0xF2 && LEGACY_PREFIXES[2] == 0xF3;
    assert LEGACY_PREFIXES[3] == 0x26 && LEGACY_PREFIXES[4] == 0x2E && LEGACY_PREFIXES[5] == 0x36;
    assert LEGACY_PREFIXES[6] == 0x3E && LEGACY_PREFIXES[7] == 0x64 && LEGACY_PREFIXES[8] == 0x65;
    assert LEGACY_PREFIXES[9] == 0x66 && LEGACY_PREFIXES[10] == 0x67;
  }

  predicate AllLegacy(run: seq<byte>) {
    forall i :: 0 <= i < |run| ==> IsLegacyPrefix(run[i])
  }

  /** The effect of a run of prefixes, one after the other. */
  function Fold(l: Legacy, run: seq<byte>): Legacy
    requires AllLegacy(run)
    decreases |run|
  {
    if run == [] then l else Fold(ApplyPrefix(l, run[0]), run[1..])
  }

  /** The segment of the last segment override, or none. */
  function LastSegment(run: seq<byte>): Register {
    if run == [] then NoRegister
    else if LastSegment(run[1..]) != NoRegister then LastSegment(run[1..])
    else if run[0] in SEGMENT_OF then SegmentRegister(SEGMENT_OF[run[0]])
    else NoRegister
  }

  /** The same effect without an order: which prefixes occur, and the last segment override. */
  function Meaning(l: Legacy, run: seq<byte>): Legacy {
    Legacy(l.lock || 0xF0 in run, l.rep || 0xF3 in run, l.repne || 0xF2 in run,
           l.hasSegment || LastSegment(run) != NoRegister,
           if LastSegment(run) != NoRegister then LastSegment(run) else l.segment,
           l.operandSize || 0x66 in run, l.addressSize || 0x67 in run)
  }

  lemma LastSegmentCons(first: byte, rest: seq<byte>)
    ensures LastSegment([first] + rest) ==
      if LastSegment(rest) != NoRegister then LastSegment(rest)
      else if IsSegmentPrefix(first) then PrefixSegment(first)
      else NoRegister
  {
    hide IsSegmentPrefix, PrefixSegment, IsLegacyPrefix;
    LegacyTable(first);
    assert ([first] + rest)[1..] == rest;
  }

  lemma InCons(first: byte, rest: seq<byte>)
    ensures forall b: byte :: b in [first] + rest <==> b == first || b in rest
  {
  }

  /** The effect of the first prefix goes before the meaning of the rest. */
  lemma MeaningCons(l: Legacy, first: byte, rest: seq<byte>)
    requires IsLegacyPrefix(first)
    ensures Meaning(ApplyPrefix(l, first), rest) == Meaning(l, [first] + rest)
  {
    LastSegmentCons(first, rest);
    InCons(first, rest);
    assert IsSegmentPrefix(first) ==> PrefixSegment(first) != NoRegister;
    hide LastSegment, PrefixSegment;
  }

  lemma {:induction false} FoldMeaning(l: Legacy, run: seq<byte>)
    requires AllLegacy(run)
    ensures Fold(l, run) == Meaning(l, run)
    decreases |run|
  {
    hide Meaning, ApplyPrefix, IsLegacyPrefix;
    if run == [] {
      NoMeaning(l);
    } else {
      var first, rest := run[0], run[1..];
      assert run == [first] + rest;
      FoldMeaning(ApplyPrefix(l, first), rest);
      MeaningCons(l, first, rest);
    }
  }

  lemma NoMeaning(l: Legacy)
    ensures Meaning(l, []) == l
  {
  }

  function Skip(c: Context, run: seq<byte>): Context
    requires AllLegacy(run)
  {
    c.(legacy := Fold(c.legacy, run), prefixCount := c.prefixCount + |run|, offset := c.offset + |run|)
  }

  /** The scan takes a run of legacy prefixes in one go. */
  lemma {:induction false} ScanRun(mode: MachineMode, buf: seq<byte>, c: Context, run: seq<byte>)
    requires AllLegacy(run) && c.offset + |run| <= |buf| && c.offset + |run| <= MAX_INSTRUCTION_LENGTH
    requires buf[c.offset..c.offset + |run|] == run
    ensures ScanPrefixes(mode, buf, c) == ScanPrefixes(mode, buf, Skip(c, run))
    decreases |run|
  {
    if run != [] {
      var c' := c.(legacy := ApplyPrefix(c.legacy, run[0]), prefixCount := c.prefixCount + 1, offset := c.offset + 1);
      assert buf[c.offset] == run[0];
      assert buf[c'.offset..c'.offset + |run[1..]|] == run[1..];
      ScanRun(mode, buf, c', run[1..]);
      assert Skip(c', run[1..]) == Skip(c, run);
    }
  }

  /** Where the run of legacy prefixes at k ends. */
  function LegacyEnd(buf: seq<byte>, k: nat): nat
    decreases MAX_INSTRUCTION_LENGTH - k
  {
    if k < |buf| && k < MAX_INSTRUCTION_LENGTH && buf[k] in LEGACY_PREFIXES then LegacyEnd(buf, k + 1) else k
  }

  lemma {:induction false} LegacyEndExact(buf: seq<byte>, k: nat)
    requires k <= |buf| && k <= MAX_INSTRUCTION_LENGTH
    ensures var e := LegacyEnd(buf, k);
      && k <= e <= |buf| && e <= MAX_INSTRUCTION_LENGTH && AllLegacy(buf[k..e])
      && (e == |buf| || e == MAX_INSTRUCTION_LENGTH || !IsLegacyPrefix(buf[e]))
    decreases MAX_INSTRUCTION_LENGTH - k
  {
    hide IsLegacyPrefix;
    if k < |buf| {
      LegacyTable(buf[k]);
    }
    if k < |buf| && k < MAX_INSTRUCTION_LENGTH && buf[k] in LEGACY_PREFIXES {
      LegacyEndExact(buf, k + 1);
      assert buf[k..LegacyEnd(buf, k)] == [buf[k]] + buf[k + 1..LegacyEnd(buf, k + 1)];
    }
  }

  /** A REX byte from its bits. */
  function RexValue(r: Rex): int {
    0x40 + (if r.w then 8 else 0) + (if r.r then 4 else 0) + (if r.x then 2 else 0) + (if r.b then 1 else 0)
  }

  lemma RexRoundTrip(b: byte)
    requires b / 16 == 4
    ensures RexOf(b).present && RexValue(RexOf(b)) == b
  {
    assert b % 16 == 8 * (b / 8 % 2) + 4 * (b / 4 % 2) + 2 * (b / 2 % 2) + b % 2;
  }

  /** The REX byte determines the bits. */
  lemma RexUnique(r: Rex, q: Rex)
    requires RexValue(r) == RexValue(q) && r.present == q.present
    ensures r == q
  {
  }

  /** Whether a REX byte stands at k, after the legacy prefixes. */
  predicate RexAt(mode: MachineMode, buf: seq<byte>, k: nat) {
    mode == Long64 && k < |buf| && k < MAX_INSTRUCTION_LENGTH && buf[k] / 16 == 4
  }

  /** What the prefix phase computes, for every byte string: the longest run of at most fifteen
      legacy prefixes, its meaning as a set with a last segment override, and in 64-bit mode the
      bits whose encoding is the REX byte after it. */
  lemma ScanMeaning(mode: MachineMode, buf: seq<byte>) returns (k: nat)
    ensures k == LegacyEnd(buf, 0)
    ensures k <= |buf| && k <= MAX_INSTRUCTION_LENGTH && AllLegacy(buf[..k])
    ensures k == |buf| || k == MAX_INSTRUCTION_LENGTH || buf[k] !in LEGACY_PREFIXES
    ensures var p, end := Prefixed(mode, buf), if RexAt(mode, buf, k) then k + 1 else k;
      && p == RESET.(offset := end, prefixCount := end, legacy := Meaning(NO_LEGACY, buf[..k]), rex := p.rex)
      && (if RexAt(mode, buf, k) then p.rex.present && RexValue(p.rex) == buf[k] else p.rex == NO_REX)
  {
    hide Meaning, ApplyPrefix, IsLegacyPrefix, RexOf, RexValue, Fold;
    k := LegacyEnd(buf, 0);
    LegacyEndExact(buf, 0);
    assert buf[0..k] == buf[..k];
    ScanRun(mode, buf, RESET, buf[..k]);
    FoldMeaning(NO_LEGACY, buf[..k]);
    if k < |buf| {
      LegacyTable(buf[k]);
      if RexAt(mode, buf, k) {
        RexRoundTrip(buf[k]);
      }
    }
  }

  /** The address width that section 2.1.1 of the manual gives to a mode and the prefix 67h. */
  function PrefixAddressWidth(mode: MachineMode, prefixes: seq<byte>): nat {
    match mode
    case Long64 => if 0x67 in prefixes then 32 else 64
    case Real16 => if 0x67 in prefixes then 32 else 16
    case _ => if 0x67 in prefixes then 16 else 32
  }

  lemma AddressSizeMeaning(run: seq<byte>)
    ensures Meaning(NO_LEGACY, run).addressSize == (0x67 in run)
  {
  }

  lemma KeptAddressWidth(mode: MachineMode, buf: seq<byte>)
    requires Decode(mode, buf).Ok?
    ensures Decode(mode, buf).value.ctx.addressWidth == AddressWidth(mode, Prefixed(mode, buf))
    ensures Prefixed(mode, buf).offset <= |buf|
  {
    hide Drive, DecodeHead, ScanPrefixes, DisplacementSize, ImmediateSize;
    Accepted(mode, buf);
    var p, h, c, s := Run(mode, buf);
  }

  /** The prefix 67h is among the legacy prefixes, or it is not there at all. */
  lemma AddressSizeScanned(mode: MachineMode, buf: seq<byte>)
    ensures Prefixed(mode, buf).offset <= |buf|
    ensures Prefixed(mode, buf).legacy.addressSize == (0x67 in buf[..Prefixed(mode, buf).offset])
  {
    hide ScanPrefixes, Meaning, RexValue;
    var k := ScanMeaning(mode, buf);
    AddressSizeMeaning(buf[..k]);
    if RexAt(mode, buf, k) {
      assert buf[..k + 1] == buf[..k] + [buf[k]];
    }
  }

  /** The address width of an accepted instruction depends on the mode and on 67h alone. */
  lemma AddressWidthMeaning(mode: MachineMode, buf: seq<byte>)
    requires Decode(mode, buf).Ok?
    ensures Prefixed(mode, buf).offset <= |buf|
    ensures Decode(mode, buf).value.ctx.addressWidth == PrefixAddressWidth(mode, buf[..Prefixed(mode, buf).offset])
  {
    hide Drive, ScanPrefixes;
    KeptAddressWidth(mode, buf);
    AddressSizeScanned(mode, buf);
  }

  /** Two runs of legacy prefixes with the same length, the same flags and the same final
      segment override. Every reordering that keeps the final override is such a pair. */
  ghost predicate Interchangeable(p: seq<byte>, q: seq<byte>) {
    && AllLegacy(p) && AllLegacy(q)
    && |p| == |q|
    && LastSegment(p) == LastSegment(q)
    && forall b: byte :: b !in SEGMENT_OF ==> (b in p <==> b in q)
  }

  lemma ReorderingIsInterchangeable(p: seq<byte>, q: seq<byte>)
    requires AllLegacy(p) && multiset(p) == multiset(q) && LastSegment(p) == LastSegment(q)
    ensures Interchangeable(p, q)
  {
    assert |multiset(p)| == |p| && |multiset(q)| == |q|;
    forall b: byte
      ensures b in p <==> b in q
    {
      assert b in p <==> b in multiset(p);
      assert b in q <==> b in multiset(q);
    }
    forall i | 0 <= i < |q|
      ensures IsLegacyPrefix(q[i])
    {
      assert q[i] in multiset(q);
    }
  }

  lemma RunIsShort(mode: MachineMode, run: seq<byte>, rest: seq<byte>)
    requires AllLegacy(run) && Decode(mode, run + rest).Ok?
    ensures |run| < MAX_INSTRUCTION_LENGTH
  {
    hide Drive;
    if |run| >= MAX_INSTRUCTION_LENGTH {
      var head := run[..MAX_INSTRUCTION_LENGTH];
      assert (run + rest)[0..MAX_INSTRUCTION_LENGTH] == head;
      ScanRun(mode, run + rest, RESET, head);
      Accepted(mode, run + rest);
      assert false;
    }
  }

  lemma FoldSame(l: Legacy, p: seq<byte>, q: seq<byte>)
    requires Interchangeable(p, q)
    ensures Fold(l, p) == Fold(l, q)
  {
    FoldMeaning(l, p);
    FoldMeaning(l, q);
    assert 0xF0 !in SEGMENT_OF && 0xF3 !in SEGMENT_OF && 0xF2 !in SEGMENT_OF
           && 0x66 !in SEGMENT_OF && 0x67 !in SEGMENT_OF;
  }

  lemma ScanInterchangeable(mode: MachineMode, p: seq<byte>, q: seq<byte>, rest: seq<byte>)
    requires Interchangeable(p, q) && |p| < MAX_INSTRUCTION_LENGTH
    requires |p| <= Prefixed(mode, p + rest).offset < |p + rest|
    ensures Prefixed(mode, q + rest) == Prefixed(mode, p + rest)
  {
    var a, b := p + rest, q + rest;
    assert a[0..|p|] == p && b[0..|q|] == q;
    ScanRun(mode, a, RESET, p);
    ScanRun(mode, b, RESET, q);
    FoldSame(NO_LEGACY, p, q);
    assert Skip(RESET, p) == Skip(RESET, q);
    PrefixesSame(mode, a, b, Skip(RESET, p));
  }

  lemma PrefixesReach(mode: MachineMode, run: seq<byte>, rest: seq<byte>)
    requires AllLegacy(run) && |run| < MAX_INSTRUCTION_LENGTH
    ensures |run| <= Prefixed(mode, run + rest).offset
  {
    var buf := run + rest;
    assert buf[0..|run|] == run;
    ScanRun(mode, buf, RESET, run);
    PrefixesAdvance(mode, buf, Skip(RESET, run));
  }

  /** Interchangeable runs of legacy prefixes in front of the same bytes decode alike. */
  lemma StreamInterchangeable(mode: MachineMode, p: seq<byte>, q: seq<byte>, rest: seq<byte>)
    requires Interchangeable(p, q) && Decode(mode, p + rest).Ok?
    ensures Decode(mode, q + rest) == Decode(mode, p + rest)
  {
    hide Drive, DecodeHead, DecodeBody, ScanPrefixes;
    var a, b := p + rest, q + rest;
    RunIsShort(mode, p, rest);
    PrefixesReach(mode, p, rest);
    Accepted(mode, a);
    ScanInterchangeable(mode, p, q, rest);
    var c := Prefixed(mode, a);
    HeadSame(mode, a, b, c);
    BodySame(mode, a, b, DecodeHead(mode, a, c).value);
    DecodeUnfolds(mode, a);
    DecodeUnfolds(mode, b);
  }

  lemma RereadInterchangeable(p: seq<byte>, q: seq<byte>, rest: seq<byte>, c: Context)
    requires |p| == |q| <= RereadOffset(c)
    ensures Reread(q + rest, c) == Reread(p + rest, c)
  {
    if RereadOffset(c) + RereadSize(c) <= |p + rest| {
      LittleEndianSame(p + rest, q + rest, RereadOffset(c), RereadSize(c));
    }
  }

  lemma OperandsInterchangeable(mode: MachineMode, p: seq<byte>, q: seq<byte>, rest: seq<byte>)
    requires Interchangeable(p, q) && Decode(mode, p + rest).Ok?
    ensures var s := Decode(mode, p + rest).value;
      OperandsOf(mode, q + rest, s) == OperandsOf(mode, p + rest, s)
  {
    hide Drive, OperandList, Reread;
    var a, b := p + rest, q + rest;
    RunIsShort(mode, p, rest);
    PrefixesReach(mode, p, rest);
    var pc, h, c, s := Run(mode, a);
    if ShowsReread(s.ctx) {
      WindowInside(mode, a, pc, h, c, s);
      RereadInterchangeable(p, q, rest, s.ctx);
    }
    ListShows(mode, s.ctx, Reread(a, s.ctx), Reread(b, s.ctx), s.immediate);
  }

  /** Legacy-prefix permutation invariance: reordering the legacy prefixes of an accepted
      instruction, with the same final segment override, changes nothing but the raw bytes. */
  lemma PermutationInvariance(tables: Tables, mode: MachineMode, p: seq<byte>, q: seq<byte>, rest: seq<byte>)
    requires Interchangeable(p, q) && DecodeFull(tables, mode, p + rest).Ok?
    ensures DecodeFull(tables, mode, q + rest).Ok?
    ensures var a, b := DecodeFull(tables, mode, p + rest).value, DecodeFull(tables, mode, q + rest).value;
      b.operands == a.operands && b.instruction == a.instruction.(rawBytes := b.instruction.rawBytes)
  {
    hide Drive, OperandsOf;
    StreamInterchangeable(mode, p, q, rest);
    OperandsInterchangeable(mode, p, q, rest);
  }

  // ---------------------------------------------------------------- runs of one prefix

  function Locks(n: nat): seq<byte> { seq(n, _ => 0xF0) }

  lemma LocksMeaning(n: nat)
    ensures AllLegacy(Locks(n)) && Fold(NO_LEGACY, Locks(n)) == NO_LEGACY.(lock := n > 0)
  {
    FoldMeaning(NO_LEGACY, Locks(n));
    LocksName(n);
    assert n > 0 ==> Locks(n)[0] == 0xF0;
  }

  /** A byte that is no prefix ends the scan. */
  lemma ScanStops(mode: MachineMode, buf: seq<byte>, c: Context)
    requires c.offset < |buf| ==> !IsRex(mode, buf[c.offset]) && !IsLegacyPrefix(buf[c.offset])
    ensures ScanPrefixes(mode, buf, c) == c
  {
    hide IsLegacyPrefix;
  }

  /** A run of LOCK prefixes is scanned up to the byte that is no prefix. */
  lemma ScanLocks(mode: MachineMode, n: nat, rest: seq<byte>)
    requires n <= MAX_INSTRUCTION_LENGTH && rest != [] && !IsRex(mode, rest[0]) && !IsLegacyPrefix(rest[0])
    ensures Prefixed(mode, Locks(n) + rest) == RESET.(offset := n, prefixCount := n, legacy := NO_LEGACY.(lock := n > 0))
  {
    hide ScanPrefixes, IsLegacyPrefix, Fold;
    var run := Locks(n);
    var buf := run + rest;
    assert buf[0..n] == run && buf[n] == rest[0];
    LocksMeaning(n);
    ScanRun(mode, buf, RESET, run);
    ScanStops(mode, buf, Skip(RESET, run));
  }

  lemma {:induction false} LocksName(n: nat)
    ensures LastSegment(Locks(n)) == NoRegister
  {
    if n > 0 {
      assert Locks(n)[1..] == Locks(n - 1);
      LocksName(n - 1);
    }
  }
}
