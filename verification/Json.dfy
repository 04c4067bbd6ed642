/** JSON string arrays of the campaign planner, and a reader after sections 2, 5 and 7 of
    RFC 8259 that gives the original strings back. */
module Json {

  datatype Option<+T> = None | Some(value: T)

  const QUOTE: char := '"'
  const BACKSLASH: char := '\\'
  const BACKSPACE: char := '\U{0008}'
  const FORM_FEED: char := '\U{000C}'

  // ---------------------------------------------------------------- printing

  /** The escape of one character: the letter after the backslash, or none. */
  function EscapeLetter(c: char): Option<char> {
    if c == BACKSLASH then Some(BACKSLASH)
    else if c == QUOTE then Some(QUOTE)
    else if c == BACKSPACE then Some('b')
    else if c == FORM_FEED then Some('f')
    else if c == '\n' then Some('n')
    else if c == '\r' then Some('r')
    else if c == '\t' then Some('t')
    else None
  }

  function EscapeChar(c: char): string {
    if EscapeLetter(c).Some? then [BACKSLASH, EscapeLetter(c).value] else [c]
  }

  function Escaped(value: string): string {
    if value == "" then "" else EscapeChar(value[0]) + Escaped(value[1..])
  }

  /** One element line. */
  function ElementText(value: string, indent: string, isLast: bool): string {
    indent + "  " + [QUOTE] + (Escaped(value) + [QUOTE] + ((if isLast then "" else ",") + "\n"))
  }

  function ElementsText(values: seq<string>, indent: string): string {
    if values == [] then "" else ElementText(values[0], indent, |values| == 1) + ElementsText(values[1..], indent)
  }

  function ArrayText(values: seq<string>, indent: string): string {
    if values == [] then "[]" else "[" + ("\n" + (ElementsText(values, indent) + (indent + "]")))
  }

  function MemberText(name: string, values: seq<string>, indent: string): string {
    indent + [QUOTE] + (name + [QUOTE] + (": " + ArrayText(values, indent)))
  }

  lemma {:induction false} EscapedSnoc(s: string, c: char)
    ensures Escaped(s + [c]) == Escaped(s) + EscapeChar(c)
  {
    hide EscapeChar;
    if s == "" {
      assert "" + [c] == [c] && [c][1..] == "";
    } else {
      assert (s + [c])[1..] == s[1..] + [c];
      EscapedSnoc(s[1..], c);
    }
  }

  method EscapeJson(value: string) returns (escaped: string)
    ensures escaped == Escaped(value)
  {
    hide Escaped;
    escaped := "";
    NothingEscaped();
    for i := 0 to |value|
      invariant escaped == Escaped(value[..i])
    {
      var ch := value[i];
      assert value[..i + 1] == value[..i] + [ch];
      EscapedSnoc(value[..i], ch);
      var piece := [ch];
      if ch == BACKSLASH { piece := [BACKSLASH, BACKSLASH]; }
      else if ch == QUOTE { piece := [BACKSLASH, QUOTE]; }
      else if ch == BACKSPACE { piece := [BACKSLASH, 'b']; }
      else if ch == FORM_FEED { piece := [BACKSLASH, 'f']; }
      else if ch == '\n' { piece := [BACKSLASH, 'n']; }
      else if ch == '\r' { piece := [BACKSLASH, 'r']; }
      else if ch == '\t' { piece := [BACKSLASH, 't']; }
      escaped := escaped + piece;
    }
    assert value[..|value|] == value;
  }

  lemma NothingEscaped()
    ensures Escaped("") == ""
  {
  }

  lemma Associative(a: string, b: string, c: string)
    ensures (a + b) + c == a + (b + c)
  {
  }

  /** One element line, appended to the stream. */
  method RenderElement(stream: string, value: string, indent: string, isLast: bool) returns (out: string)
    ensures out == stream + ElementText(value, indent, isLast)
  {
    hide Escaped;
    var escaped := EscapeJson(value);
    var line := escaped + [QUOTE];
    var tail := "\n";
    if !isLast {
      tail := "," + tail;
    } else {
      assert "" + "\n" == "\n";
    }
    out := stream + ((indent + "  " + [QUOTE]) + (line + tail));
  }

  /** The element lines, appended to the stream. */
  method RenderElements(stream: string, values: seq<string>, indent: string) returns (out: string)
    ensures out == stream + ElementsText(values, indent)
  {
    hide ElementText;
    out := stream;
    for index := 0 to |values|
      invariant out + ElementsText(values[index..], indent) == stream + ElementsText(values, indent)
    {
      assert values[index..][0] == values[index] && values[index..][1..] == values[index + 1..];
      ghost var line := ElementText(values[index], indent, index + 1 == |values|);
      Associative(out, line, ElementsText(values[index + 1..], indent));
      out := RenderElement(out, values[index], indent, index + 1 == |values|);
    }
    assert out + "" == out;
  }

  method RenderStringArray(stream: string, name: string, values: seq<string>, indent: string) returns (out: string)
    ensures out == stream + MemberText(name, values, indent)
  {
    hide ElementsText;
    out := stream + ((indent + [QUOTE]) + ((name + [QUOTE]) + (": " + "[")));
    if values == [] {
      assert out + "]" == stream + ((indent + [QUOTE]) + ((name + [QUOTE]) + (": " + "[]")));
      out := out + "]";
    } else {
      ghost var lead := out;
      out := out + "\n";
      out := RenderElements(out, values, indent);
      out := out + (indent + "]");
      ghost var elements := ElementsText(values, indent);
      RenderShape(stream, indent + [QUOTE], name + [QUOTE], elements, indent + "]");
    }
  }

  lemma RenderShape(stream: string, head: string, name: string, elements: string, tail: string)
    ensures ((stream + (head + (name + (": " + "[")))) + "\n") + elements + tail
         == stream + (head + (name + (": " + ("[" + ("\n" + (elements + tail))))))
  {
  }

  // ---------------------------------------------------------------- reading

  predicate IsSpace(c: char) { c == ' ' || c == '\t' || c == '\n' || c == '\r' }

  predicate IsControl(c: char) { c < ' ' }

  function SkipSpace(s: string): (r: string)
    ensures |r| <= |s|
  {
    if s != "" && IsSpace(s[0]) then SkipSpace(s[1..]) else s
  }

  /** The character a simple escape stands for. */
  function Unescape(letter: char): Option<char> {
    if letter == QUOTE || letter == BACKSLASH || letter == '/' then Some(letter)
    else if letter == 'b' then Some(BACKSPACE)
    else if letter == 'f' then Some(FORM_FEED)
    else if letter == 'n' then Some('\n')
    else if letter == 'r' then Some('\r')
    else if letter == 't' then Some('\t')
    else None
  }

  /** One string character, raw or escaped, and how many characters it takes. A raw control
      character, quotation mark or dangling backslash is none. */
  function ReadChar(s: string): (r: Option<(char, nat)>)
    ensures r.Some? ==> 1 <= r.value.1 <= |s|
  {
    if s == "" || s[0] == QUOTE || IsControl(s[0]) then None
    else if s[0] != BACKSLASH then Some((s[0], 1))
    else if |s| >= 2 && Unescape(s[1]).Some? then Some((Unescape(s[1]).value, 2))
    else None
  }

  /** The characters up to the closing quotation mark, and the rest of the text. */
  function ReadString(s: string): (r: Option<(string, string)>)
    ensures r.Some? ==> |r.value.1| < |s|
    decreases |s|
  {
    if s != "" && s[0] == QUOTE then Some(("", s[1..]))
    else
      match ReadChar(s)
      case None => None
      case Some((c, n)) =>
        match ReadString(s[n..])
        case None => None
        case Some((value, rest)) => Some(([c] + value, rest))
  }

  /** Elements of a non-empty array, up to its closing bracket. */
  function ReadElements(s: string): Option<(seq<string>, string)>
    decreases |s|
  {
    var t := SkipSpace(s);
    if t == "" || t[0] != QUOTE then None
    else
      match ReadString(t[1..])
      case None => None
      case Some((value, rest)) =>
        var u := SkipSpace(rest);
        if u == "" then None
        else if u[0] == ']' then Some(([value], u[1..]))
        else if u[0] != ',' then None
        else
          match ReadElements(u[1..])
          case None => None
          case Some((values, rest')) => Some(([value] + values, rest'))
  }

  function ReadArray(s: string): Option<(seq<string>, string)> {
    if s == "" || s[0] != '[' then None
    else
      var t := SkipSpace(s[1..]);
      if t != "" && t[0] == ']' then Some(([], t[1..])) else ReadElements(s[1..])
  }

  /** A name, a colon and an array of strings, with nothing after it. */
  function ReadMember(s: string): Option<(string, seq<string>)> {
    var t := SkipSpace(s);
    if t == "" || t[0] != QUOTE then None
    else
      match ReadString(t[1..])
      case None => None
      case Some((name, rest)) =>
        var u := SkipSpace(rest);
        if u == "" || u[0] != ':' then None
        else NamedArray(name, ReadArray(SkipSpace(u[1..])))
  }

  /** A name with the array read after it, if nothing but blanks follows. */
  function NamedArray(name: string, r: Option<(seq<string>, string)>): Option<(string, seq<string>)> {
    if r.Some? && SkipSpace(r.value.1) == "" then Some((name, r.value.0)) else None
  }

  // ---------------------------------------------------------------- round trip

  /** Printed raw and yet not allowed in a string: a control character without an escape. */
  predicate IsUnprintable(c: char) { IsControl(c) && EscapeLetter(c).None? }

  predicate Representable(value: string) {
    forall i :: 0 <= i < |value| ==> !IsUnprintable(value[i])
  }

  predicate AllRepresentable(values: seq<string>) {
    forall i :: 0 <= i < |values| ==> Representable(values[i])
  }

  predicate AllSpace(s: string) {
    forall i :: 0 <= i < |s| ==> IsSpace(s[i])
  }

  lemma {:induction false} SkipSpaces(ws: string, rest: string)
    requires AllSpace(ws)
    ensures SkipSpace(ws + rest) == SkipSpace(rest)
  {
    if ws == "" {
      assert ws + rest == rest;
    } else {
      assert (ws + rest)[1..] == ws[1..] + rest;
      SkipSpaces(ws[1..], rest);
    }
  }

  lemma ReadEscapedChar(c: char, rest: string)
    ensures var r := ReadChar(EscapeChar(c) + rest);
      if IsUnprintable(c) then r == None else r == Some((c, |EscapeChar(c)|))
  {
    var s := EscapeChar(c) + rest;
    assert s[0] == EscapeChar(c)[0];
    if EscapeLetter(c).Some? {
      assert s[1] == EscapeLetter(c).value;
    }
  }

  /** Reading an escaped string gives it back, exactly when it is representable. */
  lemma {:induction false} ReadEscaped(value: string, rest: string)
    ensures ReadString(Escaped(value) + ([QUOTE] + rest))
         == if Representable(value) then Some((value, rest)) else None
    decreases |value|
  {
    var s := Escaped(value) + ([QUOTE] + rest);
    if value == "" {
      assert s == [QUOTE] + rest && s[1..] == rest;
    } else {
      var c, tail := value[0], value[1..];
      var more := Escaped(tail) + ([QUOTE] + rest);
      Associative(EscapeChar(c), Escaped(tail), [QUOTE] + rest);
      ReadEscapedChar(c, more);
      ReadEscaped(tail, rest);
      assert s[0] != QUOTE;
      assert s[|EscapeChar(c)|..] == more;
      assert value == [c] + tail;
      RepresentableCons(c, tail);
    }
  }

  lemma RepresentableCons(c: char, tail: string)
    ensures Representable([c] + tail) == (!IsUnprintable(c) && Representable(tail))
  {
    var s := [c] + tail;
    if Representable(s) {
      assert !IsUnprintable(s[0]);
      forall i | 0 <= i < |tail|
        ensures !IsUnprintable(tail[i])
      {
        assert tail[i] == s[i + 1];
      }
    }
  }

  lemma ReadElementsSkip(ws: string, rest: string)
    requires AllSpace(ws)
    ensures ReadElements(ws + rest) == ReadElements(rest)
  {
    SkipSpaces(ws, rest);
  }

  /** What follows an element: its separator, and then the other elements or the bracket. */
  function AfterElement(values: seq<string>, indent: string, tail: string): string
    requires values != []
  {
    (if |values| == 1 then "" else ",") + ("\n" + (ElementsText(values[1..], indent) + (indent + ("]" + tail))))
  }

  lemma ElementsSplit(values: seq<string>, indent: string, tail: string)
    requires values != []
    ensures ElementsText(values, indent) + (indent + ("]" + tail))
         == (indent + "  ") + ([QUOTE] + (Escaped(values[0]) + ([QUOTE] + AfterElement(values, indent, tail))))
  {
    hide Escaped;
    var rest := ElementsText(values[1..], indent);
    var sep := if |values| == 1 then "" else ",";
    ElementsShape(indent, Escaped(values[0]), sep, rest, indent + ("]" + tail));
  }

  lemma ElementsShape(indent: string, escaped: string, sep: string, rest: string, close: string)
    ensures ((indent + "  " + [QUOTE]) + (escaped + [QUOTE] + (sep + "\n"))) + rest + close
         == (indent + "  ") + ([QUOTE] + (escaped + ([QUOTE] + (sep + ("\n" + (rest + close))))))
  {
  }

  lemma AfterLast(values: seq<string>, indent: string, tail: string)
    requires |values| == 1 && AllSpace(indent)
    ensures SkipSpace(AfterElement(values, indent, tail)) == "]" + tail
  {
    assert values[1..] == [];
    assert AfterElement(values, indent, tail) == ("\n" + indent) + ("]" + tail);
    SkipSpaces("\n" + indent, "]" + tail);
  }

  lemma {:induction false} ReadElementsText(values: seq<string>, indent: string, tail: string)
    requires values != [] && AllSpace(indent)
    ensures ReadElements(ElementsText(values, indent) + (indent + ("]" + tail)))
         == if AllRepresentable(values) then Some((values, tail)) else None
    decreases |values|
  {
    hide Escaped, ElementsText, Representable;
    var after := AfterElement(values, indent, tail);
    var body := [QUOTE] + (Escaped(values[0]) + ([QUOTE] + after));
    ElementsSplit(values, indent, tail);
    ReadElementsSkip(indent + "  ", body);
    ReadEscaped(values[0], after);
    assert SkipSpace(body) == body && body[1..] == Escaped(values[0]) + ([QUOTE] + after);
    if |values| == 1 {
      AfterLast(values, indent, tail);
      assert ("]" + tail)[1..] == tail && values == [values[0]];
    } else {
      var rest := ElementsText(values[1..], indent) + (indent + ("]" + tail));
      assert after == "," + ("\n" + rest) && after[1..] == "\n" + rest;
      ReadElementsSkip("\n", rest);
      ReadElementsText(values[1..], indent, tail);
      assert values == [values[0]] + values[1..];
      AllRepresentableCons(values);
    }
  }

  lemma AllRepresentableCons(values: seq<string>)
    requires values != []
    ensures AllRepresentable(values) == (Representable(values[0]) && AllRepresentable(values[1..]))
  {
    hide Representable;
    if Representable(values[0]) && AllRepresentable(values[1..]) {
      forall i | 0 <= i < |values|
        ensures Representable(values[i])
      {
        if i > 0 {
          assert values[i] == values[1..][i - 1];
        }
      }
    }
  }

  lemma ReadArrayText(values: seq<string>, indent: string)
    requires AllSpace(indent)
    ensures ReadArray(ArrayText(values, indent)) == if AllRepresentable(values) then Some((values, "")) else None
  {
    hide ElementsText, Representable;
    if values == [] {
      assert "[]"[1..] == "]" && "]"[1..] == "";
    } else {
      var rest := ElementsText(values, indent) + (indent + "]");
      var s := ArrayText(values, indent);
      assert s[1..] == "\n" + rest;
      assert "]" + "" == "]";
      ReadElementsText(values, indent, "");
      ReadElementsSkip("\n", rest);
      NoBracketFirst(values, indent);
    }
  }

  /** The first thing after the opening bracket of a non-empty array is a quotation mark. */
  lemma NoBracketFirst(values: seq<string>, indent: string)
    requires AllSpace(indent) && values != []
    ensures var t := SkipSpace("\n" + (ElementsText(values, indent) + (indent + "]"))); t != "" && t[0] == QUOTE
  {
    hide ElementsText, Escaped;
    assert "]" + "" == "]";
    ElementsSplit(values, indent, "");
    var body := [QUOTE] + (Escaped(values[0]) + ([QUOTE] + AfterElement(values, indent, "")));
    Associative("\n", indent + "  ", body);
    SkipSpaces("\n" + (indent + "  "), body);
    assert SkipSpace(body) == body;
  }

  predicate PlainChar(c: char) { EscapeLetter(c).None? && !IsControl(c) }

  /** A name that needs no escape. */
  predicate PlainName(name: string) {
    forall i :: 0 <= i < |name| ==> PlainChar(name[i])
  }

  lemma {:induction false} PlainIsEscaped(name: string)
    requires PlainName(name)
    ensures Escaped(name) == name && Representable(name)
  {
    if name != "" {
      PlainIsEscaped(name[1..]);
      assert name == [name[0]] + name[1..];
    }
  }

  // The name is printed without escapes. Reading it back fails or gives another name unless it
  // needs none.

  /** s is a name, its closing quotation mark and more. */
  predicate NamedText(s: string, name: string) {
    |s| > |name| && s[..|name|] == name && s[|name|] == QUOTE
  }

  predicate AllBackslashes(s: string) {
    forall i :: 0 <= i < |s| ==> s[i] == BACKSLASH
  }

  /** The first character of a value, and the rest. */
  lemma FirstRead(s: string, value: string)
    requires value != "" && ReadString(s).Some? && ReadString(s).value.0 == value
    ensures ReadChar(s).Some?
    ensures var (c, n) := ReadChar(s).value;
      c == value[0] && ReadString(s[n..]).Some? && ReadString(s[n..]).value.0 == value[1..]
  {
    hide ReadChar;
    var (c, n) := ReadChar(s).value;
    var more := ReadString(s[n..]).value.0;
    assert ([c] + more)[1..] == more;
  }

  /** A value that starts with a backslash was read from two of them. */
  lemma ReadBackslash(s: string, value: string)
    requires value != "" && value[0] == BACKSLASH
    requires ReadString(s).Some? && ReadString(s).value.0 == value
    ensures |s| >= 2 && s[0] == BACKSLASH && s[1] == BACKSLASH
    ensures ReadString(s[2..]).Some? && ReadString(s[2..]).value.0 == value[1..]
  {
    hide ReadString;
    FirstRead(s, value);
  }

  /** A reader that has taken one escape is behind the name it should return: it needs two
      backslashes for each one, and the name ends before it can catch up. */
  lemma {:induction false} Lagging(s: string, name: string, m: nat, j: nat)
    requires NamedText(s, name) && m < j <= |name| && AllBackslashes(name[m..j])
    ensures ReadString(s[j..]).Some? ==> ReadString(s[j..]).value.0 != name[m..]
    decreases |name| - m
  {
    hide ReadString;
    assert name[m..j][0] == BACKSLASH;
    if ReadString(s[j..]).Some? && ReadString(s[j..]).value.0 == name[m..] {
      ReadBackslash(s[j..], name[m..]);
      assert s[j..][0] == s[j] && s[j..][1] == s[j + 1] && s[j..][2..] == s[j + 2..];
      assert s[j] == name[j] && s[j + 1] == name[j + 1];
      LaggingStep(name, m, j);
      Lagging(s, name, m + 1, j + 2);
      assert false;
    }
  }

  lemma LaggingStep(name: string, m: nat, j: nat)
    requires m < j && j + 2 <= |name| && AllBackslashes(name[m..j]) && name[j] == name[j + 1] == BACKSLASH
    ensures AllBackslashes(name[m + 1..j + 2]) && name[m..][1..] == name[m + 1..]
  {
    var next := name[m + 1..j + 2];
    forall i | 0 <= i < |next|
      ensures next[i] == BACKSLASH
    {
      assert next[i] == name[m + 1 + i];
      if m + 1 + i < j {
        assert name[m..j][i + 1] == BACKSLASH;
      }
    }
  }

  /** The first character of a name that needs an escape stops the round trip. */
  lemma StopsAt(s: string, name: string, i: nat)
    requires NamedText(s, name) && i < |name| && !PlainChar(name[i])
    ensures ReadString(s[i..]).Some? ==> ReadString(s[i..]).value.0 != name[i..]
  {
    var t := s[i..];
    assert t[0] == s[i] == name[i];
    if name[i] == BACKSLASH && ReadString(t).Some? && ReadString(t).value.0 == name[i..] {
      ReadBackslash(t, name[i..]);
      hide ReadString;
      assert t[1] == s[i + 1] && t[2..] == s[i + 2..] && s[i + 1] == name[i + 1];
      assert name[i..][1..] == name[i + 1..];
      Lagging(s, name, i + 1, i + 2);
      assert false;
    }
  }

  lemma {:induction false} RawNameLost(s: string, name: string, i: nat)
    requires NamedText(s, name) && i <= |name| && !PlainName(name[i..])
    ensures ReadString(s[i..]).Some? ==> ReadString(s[i..]).value.0 != name[i..]
    decreases |name| - i
  {
    if !PlainChar(name[i]) {
      StopsAt(s, name, i);
    } else {
      assert name[i..] == [name[i]] + name[i + 1..];
      PlainCons(name[i], name[i + 1..]);
      RawNameLost(s, name, i + 1);
      assert s[i] == name[i] && s[i..][0] == s[i] && s[i..][1..] == s[i + 1..];
    }
  }

  lemma PlainCons(c: char, tail: string)
    ensures PlainName([c] + tail) == (PlainChar(c) && PlainName(tail))
  {
    var s := [c] + tail;
    assert s[0] == c && s[1..] == tail;
    if PlainName(s) {
      forall i | 0 <= i < |tail|
        ensures PlainChar(tail[i])
      {
        assert tail[i] == s[i + 1];
      }
    }
  }

  /** Round trip: the rendered member reads back as the same name and the same list exactly when
      the name needs no escape and the only control characters in the values are the five that
      have one. With such a name and any other values the text is no JSON at all. */
  lemma RenderRoundTrip(name: string, values: seq<string>, indent: string)
    requires AllSpace(indent)
    ensures ReadMember(MemberText(name, values, indent)) == Some((name, values))
            <==> PlainName(name) && AllRepresentable(values)
    ensures PlainName(name) && !AllRepresentable(values) ==> ReadMember(MemberText(name, values, indent)) == None
  {
    hide ArrayText, Escaped, Representable, AllRepresentable, ReadArray, ReadMember, SkipSpace, PlainName;
    var rest := ": " + ArrayText(values, indent);
    MemberShape(indent, name, rest);
    if PlainName(name) {
      PlainIsEscaped(name);
      ReadEscaped(name, rest);
      ReadRest(values, indent);
      ReadMemberParts(indent, name, rest);
    } else {
      var s := name + ([QUOTE] + rest);
      assert s[0..] == s && name[0..] == name;
      RawNameLost(s, name, 0);
      NameIsRead(indent, s);
    }
  }

  /** The name that a member gives is the string after its first quotation mark. */
  lemma NameIsRead(indent: string, s: string)
    requires AllSpace(indent)
    ensures ReadMember(indent + ([QUOTE] + s)).Some? ==>
      ReadString(s).Some? && ReadMember(indent + ([QUOTE] + s)).value.0 == ReadString(s).value.0
  {
    hide ReadArray, ReadString;
    var body := [QUOTE] + s;
    SkipSpaces(indent, body);
    assert SkipSpace(body) == body && body[1..] == s;
  }

  /** A value with U+0001, and a name with a quotation mark, do not come back. */
  lemma ControlCharacterLost(indent: string)
    requires AllSpace(indent)
    ensures ReadMember(MemberText("key", ["\U{0001}"], indent)) == None
    ensures ReadMember(MemberText("\"", [], indent)) != Some(("\"", []))
  {
    hide ReadMember, MemberText;
    assert IsUnprintable(["\U{0001}"][0][0]);
    assert !PlainChar("\""[0]);
    RenderRoundTrip("key", ["\U{0001}"], indent);
    RenderRoundTrip("\"", [], indent);
  }

  lemma MemberShape(indent: string, name: string, rest: string)
    ensures indent + [QUOTE] + (name + [QUOTE] + rest) == indent + ([QUOTE] + (name + ([QUOTE] + rest)))
  {
  }

  /** Blanks, a quoted name and a colon: what is read depends on the array alone. */
  lemma ReadMemberParts(indent: string, name: string, rest: string)
    requires AllSpace(indent)
    requires ReadString(name + ([QUOTE] + rest)) == Some((name, rest))
    requires SkipSpace(rest) == rest != "" && rest[0] == ':'
    ensures ReadMember(indent + ([QUOTE] + (name + ([QUOTE] + rest))))
      == NamedArray(name, ReadArray(SkipSpace(rest[1..])))
  {
    hide ReadArray, ReadString;
    var body := [QUOTE] + (name + ([QUOTE] + rest));
    SkipSpaces(indent, body);
    assert SkipSpace(body) == body && body[1..] == name + ([QUOTE] + rest);
  }

  /** The colon, the space and the array. */
  lemma ReadRest(values: seq<string>, indent: string)
    requires AllSpace(indent)
    ensures var rest := ": " + ArrayText(values, indent);
      && SkipSpace(rest) == rest
      && ReadArray(SkipSpace(rest[1..])) == if AllRepresentable(values) then Some((values, "")) else None
  {
    hide ArrayText, Representable, AllRepresentable, ReadArray;
    var rest := ": " + ArrayText(values, indent);
    assert rest[1..] == " " + ArrayText(values, indent);
    SkipSpaces(" ", ArrayText(values, indent));
    ArrayStartsWithBracket(values, indent);
    ReadArrayText(values, indent);
  }

  lemma ArrayStartsWithBracket(values: seq<string>, indent: string)
    ensures SkipSpace(ArrayText(values, indent)) == ArrayText(values, indent)
  {
  }

  // ---------------------------------------------------------------- layout

  predicate NoNewline(s: string) { forall i :: 0 <= i < |s| ==> s[i] != '\n' }

  /** Where the first line ends. */
  function LineEnd(s: string): (e: nat)
    ensures e <= |s| && (e < |s| ==> s[e] == '\n') && NoNewline(s[..e])
  {
    if s == "" || s[0] == '\n' then 0
    else
      var e := LineEnd(s[1..]);
      assert s[..e + 1] == [s[0]] + s[1..][..e];
      e + 1
  }

  function LinesOf(s: string): seq<string>
    decreases |s|
  {
    var e := LineEnd(s);
    if e == |s| then [s] else [s[..e]] + LinesOf(s[e + 1..])
  }

  lemma FirstLine(line: string, rest: string)
    requires NoNewline(line)
    ensures LinesOf(line + ("\n" + rest)) == [line] + LinesOf(rest)
    ensures LinesOf(line) == [line]
  {
    var s := line + ("\n" + rest);
    assert s[|line|] == '\n' && s[..|line|] == line && s[|line| + 1..] == rest;
    assert LineEnd(s) == |line|;
    assert LineEnd(line) == |line|;
  }

  lemma {:induction false} EscapedIsOneLine(value: string)
    ensures NoNewline(Escaped(value))
  {
    if value != "" {
      EscapedIsOneLine(value[1..]);
    }
  }

  function ElementLine(value: string, indent: string, isLast: bool): string {
    indent + "  \"" + Escaped(value) + "\"" + if isLast then "" else ","
  }

  /** One element to a line, two blanks further in than the member, and a comma after all but the
      last. */
  function ElementLines(values: seq<string>, indent: string): seq<string> {
    seq(|values|, i requires 0 <= i < |values| => ElementLine(values[i], indent, i + 1 == |values|))
  }

  lemma ElementLineShape(value: string, indent: string, isLast: bool, rest: string)
    requires NoNewline(indent)
    ensures ElementText(value, indent, isLast) + rest == ElementLine(value, indent, isLast) + ("\n" + rest)
    ensures NoNewline(ElementLine(value, indent, isLast))
  {
    hide Escaped;
    EscapedIsOneLine(value);
    ElementPieces(indent, Escaped(value), if isLast then "" else ",", rest);
  }

  lemma ElementPieces(indent: string, escaped: string, sep: string, rest: string)
    ensures indent + "  " + [QUOTE] + (escaped + [QUOTE] + (sep + "\n")) + rest
         == indent + "  \"" + escaped + "\"" + sep + ("\n" + rest)
  {
    assert "  \"" == "  " + [QUOTE] && "\"" == [QUOTE];
  }

  lemma {:induction false} LinesOfElements(values: seq<string>, indent: string, close: string)
    requires NoNewline(indent) && NoNewline(close)
    ensures LinesOf(ElementsText(values, indent) + close) == ElementLines(values, indent) + [close]
    decreases |values|
  {
    hide ElementText, ElementLine, LinesOf;
    if values == [] {
      assert ElementsText(values, indent) + close == close;
      FirstLine(close, "");
    } else {
      var isLast, rest := |values| == 1, ElementsText(values[1..], indent) + close;
      var line := ElementLine(values[0], indent, isLast);
      Associative(ElementText(values[0], indent, isLast), ElementsText(values[1..], indent), close);
      ElementLineShape(values[0], indent, isLast, rest);
      FirstLine(line, rest);
      LinesOfElements(values[1..], indent, close);
      assert ElementLines(values, indent) == [line] + ElementLines(values[1..], indent);
    }
  }

  /** The layout of a member: its first line, its elements one to a line, and its closing line. */
  lemma MemberLines(name: string, values: seq<string>, indent: string)
    requires NoNewline(indent) && NoNewline(name)
    ensures LinesOf(MemberText(name, values, indent)) ==
      if values == [] then [indent + "\"" + name + "\": []"]
      else [indent + "\"" + name + "\": ["] + ElementLines(values, indent) + [indent + "]"]
  {
    hide LinesOf, ElementsText, ElementLines;
    if values == [] {
      MemberPieces(indent, name, "[]");
      EmptyShape(indent, name);
      FirstLine(indent + "\"" + name + "\": []", "");
    } else {
      var rest := ElementsText(values, indent) + (indent + "]");
      MemberPieces(indent, name, "[" + ("\n" + rest));
      var first := indent + "\"" + name + "\": [";
      FirstLineShape(indent, name, rest);
      FirstLine(first, rest);
      LinesOfElements(values, indent, indent + "]");
    }
  }

  lemma MemberPieces(indent: string, name: string, array_: string)
    ensures indent + [QUOTE] + (name + [QUOTE] + (": " + array_)) == indent + "\"" + name + "\": " + array_
  {
    assert "\": " == [QUOTE] + ": " && "\"" == [QUOTE];
  }

  lemma EmptyShape(indent: string, name: string)
    ensures indent + "\"" + name + "\": " + "[]" == indent + "\"" + name + "\": []"
  {
    assert "\": []" == "\": " + "[]";
  }

  lemma FirstLineShape(indent: string, name: string, rest: string)
    ensures indent + "\"" + name + "\": " + ("[" + ("\n" + rest)) == indent + "\"" + name + "\": [" + ("\n" + rest)
  {
    assert "\": [" == "\": " + "[";
  }
}
