/** Key normalisation of the campaign planner: lower-cased alphanumeric runs joined by dashes. */
module Keys {
  import Text

  predicate IsAlnum(c: char) { '0' <= c <= '9' || 'A' <= c <= 'Z' || 'a' <= c <= 'z' }

  predicate EndsInWord(s: string) { s != "" && IsAlnum(s[|s| - 1]) }

  /** The maximal alphanumeric runs, lower-cased. */
  function Words(s: string): (ws: seq<string>)
    ensures EndsInWord(s) ==> ws != []
  {
    if s == "" then []
    else
      var before, c := s[..|s| - 1], s[|s| - 1];
      var ws := Words(before);
      if !IsAlnum(c) then ws
      else if EndsInWord(before) then ws[..|ws| - 1] + [ws[|ws| - 1] + [Text.ToLower(c)]]
      else ws + [[Text.ToLower(c)]]
  }

  function Join(ws: seq<string>): string {
    if ws == [] then "" else if |ws| == 1 then ws[0] else Join(ws[..|ws| - 1]) + "-" + ws[|ws| - 1]
  }

  const DEFAULT_KEY: string := "logical-corpus"

  function KeyOf(value: string): string {
    if Words(value) == [] then DEFAULT_KEY else Join(Words(value))
  }

  // ---------------------------------------------------------------- words

  predicate IsWord(w: string) {
    w != "" && forall i :: 0 <= i < |w| ==> IsAlnum(w[i]) && Text.ToLower(w[i]) == w[i]
  }

  predicate AllWords(ws: seq<string>) {
    forall i :: 0 <= i < |ws| ==> IsWord(ws[i])
  }

  lemma {:induction false} WordsAreWords(s: string)
    ensures AllWords(Words(s))
  {
    if s != "" {
      WordsAreWords(s[..|s| - 1]);
    }
  }

  lemma {:induction false} JoinEnds(ws: seq<string>)
    requires AllWords(ws) && ws != []
    ensures Join(ws) != "" && IsAlnum(Join(ws)[0]) && IsAlnum(Join(ws)[|Join(ws)| - 1])
  {
    if |ws| > 1 {
      JoinEnds(ws[..|ws| - 1]);
      assert IsWord(ws[|ws| - 1]);
    }
  }

  /** Appending to the last word appends to the joined text. */
  lemma JoinGrow(ws: seq<string>, c: char)
    requires ws != []
    ensures Join(ws[..|ws| - 1] + [ws[|ws| - 1] + [c]]) == Join(ws) + [c]
  {
    var grown := ws[..|ws| - 1] + [ws[|ws| - 1] + [c]];
    if |ws| > 1 {
      assert grown[..|grown| - 1] == ws[..|ws| - 1];
    }
  }

  lemma JoinSnoc(ws: seq<string>, w: string)
    ensures Join(ws + [w]) == (if ws == [] then "" else Join(ws) + "-") + w
  {
    var all := ws + [w];
    assert all[..|all| - 1] == ws;
  }

  // ---------------------------------------------------------------- the method

  /** The key before its outer dashes are erased. */
  function RawKey(s: string): string {
    (if s != "" && !IsAlnum(s[0]) then "-" else "") + Join(Words(s))
    + (if s != "" && !IsAlnum(s[|s| - 1]) && Words(s) != [] then "-" else "")
  }

  lemma NoWordsNoAlnum(s: string)
    requires Words(s) == []
    ensures forall i :: 0 <= i < |s| ==> !IsAlnum(s[i])
  {
    if s != "" {
      NoWordsNoAlnum(s[..|s| - 1]);
    }
  }

  lemma WordsAlnum(s: string, c: char)
    requires IsAlnum(c)
    ensures Words(s + [c]) ==
      if EndsInWord(s) then Words(s)[..|Words(s)| - 1] + [Words(s)[|Words(s)| - 1] + [Text.ToLower(c)]]
      else Words(s) + [[Text.ToLower(c)]]
  {
    var all := s + [c];
    assert all[..|all| - 1] == s;
  }

  lemma RawKeyAlnum(s: string, c: char)
    requires IsAlnum(c)
    ensures RawKey(s + [c]) == RawKey(s) + [Text.ToLower(c)]
  {
    hide Words, Join;
    WordsAlnum(s, c);
    var ws, all := Words(s), s + [c];
    assert all[|all| - 1] == c;
    if EndsInWord(s) {
      JoinGrow(ws, Text.ToLower(c));
      assert all[0] == s[0];
    } else if ws == [] {
      JoinSnoc(ws, [Text.ToLower(c)]);
      NoWordsNoAlnum(s);
      JoinNothing();
    } else {
      JoinSnoc(ws, [Text.ToLower(c)]);
      NoWordsInNothing();
      assert all[0] == s[0];
    }
  }

  lemma JoinNothing()
    ensures Join([]) == ""
  {
  }

  lemma RawKeyOther(s: string, c: char)
    requires !IsAlnum(c)
    ensures RawKey(s + [c]) == if s == "" || EndsInWord(s) then RawKey(s) + "-" else RawKey(s)
  {
    var all := s + [c];
    assert all[..|all| - 1] == s;
    if Words(s) == [] {
      NoWordsNoAlnum(s);
    }
  }

  function StripFront(s: string): string {
    if s != "" && s[0] == '-' then StripFront(s[1..]) else s
  }

  function StripBack(s: string): string {
    if s != "" && s[|s| - 1] == '-' then StripBack(s[..|s| - 1]) else s
  }

  lemma StripFrontCore(head: string, rest: string)
    requires head in {"", "-"} && rest != "" && rest[0] != '-'
    ensures StripFront(head + rest) == rest
  {
    if head == "-" {
      assert (head + rest)[1..] == rest;
    } else {
      assert head + rest == rest;
    }
  }

  lemma StripBackCore(core: string, tail: string)
    requires tail in {"", "-"} && core != "" && core[|core| - 1] != '-'
    ensures StripBack(core + tail) == core
  {
    if tail == "-" {
      assert (core + tail)[..|core|] == core;
    } else {
      assert core + tail == core;
    }
  }

  lemma StripCore(head: string, core: string, tail: string)
    requires head in {"", "-"} && tail in {"", "-"}
    requires core != "" && core[0] != '-' && core[|core| - 1] != '-'
    ensures StripBack(StripFront(head + core + tail)) == core
  {
    hide StripFront, StripBack;
    assert head + core + tail == head + (core + tail);
    StripFrontCore(head, core + tail);
    StripBackCore(core, tail);
  }

  /** Without its outer dashes the raw key is the joined words. */
  lemma StripRawKey(s: string)
    ensures StripBack(StripFront(RawKey(s))) == Join(Words(s))
  {
    hide Words;
    WordsAreWords(s);
    if Words(s) == [] {
      assert "-"[1..] == "";
      assert RawKey(s) == "-" || RawKey(s) == "";
    } else {
      hide Join;
      JoinEnds(Words(s));
      StripCore(if s != "" && !IsAlnum(s[0]) then "-" else "", Join(Words(s)),
                if s != "" && !IsAlnum(s[|s| - 1]) then "-" else "");
    }
  }

  /** Three loops: build the raw key, erase the leading dashes, pop the trailing ones. */
  method SanitizeKey(value: string) returns (key: string)
    ensures key == KeyOf(value)
  {
    hide RawKey, Words, Join;
    key := "";
    var lastWasDash := false;
    EmptyRawKey();
    for n := 0 to |value|
      invariant key == RawKey(value[..n])
      invariant lastWasDash == (n > 0 && !IsAlnum(value[n - 1]))
    {
      var c := value[n];
      assert value[..n + 1] == value[..n] + [c];
      if IsAlnum(c) {
        RawKeyAlnum(value[..n], c);
        key := key + [Text.ToLower(c)];
        lastWasDash := false;
      } else {
        RawKeyOther(value[..n], c);
        if !lastWasDash {
          key := key + "-";
          lastWasDash := true;
        }
      }
    }
    assert value[..|value|] == value;
    StripRawKey(value);
    while key != "" && key[0] == '-'
      invariant StripBack(StripFront(key)) == Join(Words(value))
      decreases |key|
    {
      key := key[1..];
    }
    while key != "" && key[|key| - 1] == '-'
      invariant StripBack(key) == Join(Words(value))
      decreases |key|
    {
      key := key[..|key| - 1];
    }
    EmptyKey(value);
    if key == "" {
      key := DEFAULT_KEY;
    }
  }

  lemma EmptyRawKey()
    ensures RawKey("") == ""
  {
  }

  lemma EmptyKey(value: string)
    ensures Join(Words(value)) == "" <==> Words(value) == []
  {
    WordsAreWords(value);
    if Words(value) != [] {
      JoinEnds(Words(value));
    }
  }

  // ---------------------------------------------------------------- idempotence

  lemma {:induction false} WordsAppendWord(s: string, w: string)
    requires !EndsInWord(s) && IsWord(w)
    ensures Words(s + w) == Words(s) + [w]
    decreases |w|
  {
    hide Words;
    var n := |w| - 1;
    var front, c := w[..n], w[n];
    assert s + w == (s + front) + [c];
    WordsAlnum(s + front, c);
    if n == 0 {
      assert s + front == s && w == [c];
    } else {
      WordsAppendWord(s, front);
      assert (s + front)[|s + front| - 1] == front[n - 1];
      assert w == front + [c];
      LastWordGrows(Words(s), front, c);
    }
  }

  lemma LastWordGrows(ws: seq<string>, front: string, c: char)
    ensures var all := ws + [front]; all[..|all| - 1] + [all[|all| - 1] + [c]] == ws + [front + [c]]
  {
  }

  lemma WordsIgnoreDash(s: string)
    ensures Words(s + "-") == Words(s) && !EndsInWord(s + "-")
  {
    assert (s + "-")[..|s|] == s;
  }

  lemma {:induction false} WordsOfJoin(ws: seq<string>)
    requires AllWords(ws)
    ensures Words(Join(ws)) == ws
    decreases |ws|
  {
    hide Words, IsWord, EndsInWord;
    NoWordsInNothing();
    if |ws| == 1 {
      WordsAppendWord("", ws[0]);
      assert "" + ws[0] == ws[0] && ws == [ws[0]];
    } else if |ws| > 1 {
      var front, last := ws[..|ws| - 1], ws[|ws| - 1];
      WordsOfJoin(front);
      WordsIgnoreDash(Join(front));
      WordsAppendWord(Join(front) + "-", last);
      assert ws == front + [last];
    }
  }

  lemma NoWordsInNothing()
    ensures Words("") == [] && !EndsInWord("")
  {
  }

  lemma DefaultWords()
    ensures AllWords(["logical", "corpus"]) && Join(["logical", "corpus"]) == DEFAULT_KEY
  {
    assert ["logical", "corpus"][..1] == ["logical"];
  }

  /** Normalisation is idempotent, and never empty. */
  lemma KeyIdempotent(value: string)
    ensures KeyOf(KeyOf(value)) == KeyOf(value) && KeyOf(value) != ""
  {
    hide Words, Join;
    WordsAreWords(value);
    EmptyKey(value);
    if Words(value) == [] {
      DefaultWords();
      WordsOfJoin(["logical", "corpus"]);
    } else {
      WordsOfJoin(Words(value));
    }
  }

  // ---------------------------------------------------------------- what the words are

  /** Letters and digits of the C locale by their ASCII codes, and lower case as code plus 32. */
  lemma AsciiClasses(c: char)
    ensures IsAlnum(c) <==> 48 <= c as int <= 57 || 65 <= c as int <= 90 || 97 <= c as int <= 122
    ensures Text.ToLower(c) as int == c as int + if 65 <= c as int <= 90 then 32 else 0
  {
  }

  /** A character that is no letter or digit separates: the words on both sides are the words. */
  lemma {:induction false} WordsSplit(a: string, c: char, b: string)
    requires !IsAlnum(c)
    ensures Words(a + [c] + b) == Words(a) + Words(b)
    ensures b != "" ==> EndsInWord(a + [c] + b) == EndsInWord(b)
    decreases |b|
  {
    hide Words;
    NoWordsInNothing();
    if b == "" {
      assert a + [c] + b == a + [c];
      WordsOther(a, c);
    } else {
      var front, last := b[..|b| - 1], b[|b| - 1];
      WordsSplit(a, c, front);
      assert a + [c] + b == (a + [c] + front) + [last] && b == front + [last];
      if IsAlnum(last) {
        WordsAlnum(a + [c] + front, last);
        WordsAlnum(front, last);
        if front == "" {
          assert a + [c] + front == a + [c];
        }
        AppendToLast(Words(a), Words(front), [Text.ToLower(last)]);
      } else {
        WordsOther(a + [c] + front, last);
        WordsOther(front, last);
      }
    }
  }

  lemma WordsOther(s: string, c: char)
    requires !IsAlnum(c)
    ensures Words(s + [c]) == Words(s) && !EndsInWord(s + [c])
  {
    assert (s + [c])[..|s|] == s;
  }

  lemma AppendToLast(before: seq<string>, ws: seq<string>, more: string)
    ensures before + (ws + [more]) == before + ws + [more]
    ensures ws != [] ==>
      var all := before + ws;
      all[..|all| - 1] + [all[|all| - 1] + more] == before + (ws[..|ws| - 1] + [ws[|ws| - 1] + more])
  {
  }

  /** A run of letters and digits is one word, in lower case. */
  lemma {:induction false} WordsOfRun(run: string)
    requires run != "" && forall i :: 0 <= i < |run| ==> IsAlnum(run[i])
    ensures Words(run) == [Text.Lower(run)]
    decreases |run|
  {
    hide Words;
    NoWordsInNothing();
    var front, last := run[..|run| - 1], run[|run| - 1];
    assert run == front + [last];
    WordsAlnum(front, last);
    assert Text.Lower(run) == Text.Lower(front) + [Text.ToLower(last)];
    if front == "" {
      assert Text.Lower(front) == "" && "" + [Text.ToLower(last)] == [Text.ToLower(last)];
    } else {
      WordsOfRun(front);
      assert EndsInWord(front);
      var ws := [Text.Lower(front)];
      assert ws[..|ws| - 1] == [];
    }
  }

  // ---------------------------------------------------------------- characters and case

  predicate KeyCharacter(c: char) { 'a' <= c <= 'z' || '0' <= c <= '9' || c == '-' }

  lemma {:induction false} JoinCharacters(ws: seq<string>)
    requires AllWords(ws)
    ensures forall i :: 0 <= i < |Join(ws)| ==> KeyCharacter(Join(ws)[i])
    decreases |ws|
  {
    if |ws| == 1 {
      assert IsWord(ws[0]);
    } else if |ws| > 1 {
      JoinCharacters(ws[..|ws| - 1]);
      assert IsWord(ws[|ws| - 1]);
    }
  }

  /** A key holds only lower-case letters, digits and dashes, and has none of the dashes outside. */
  lemma KeyCharacters(value: string)
    ensures var key := KeyOf(value);
      && key != "" && key[0] != '-' && key[|key| - 1] != '-'
      && forall i :: 0 <= i < |key| ==> KeyCharacter(key[i])
  {
    hide Words, Join;
    WordsAreWords(value);
    if Words(value) != [] {
      JoinEnds(Words(value));
      JoinCharacters(Words(value));
    }
  }

  function ToUpper(c: char): char {
    if 'a' <= c <= 'z' then ((c as int) - ('a' as int) + ('A' as int)) as char else c
  }

  function Upper(s: string): string {
    seq(|s|, i requires 0 <= i < |s| => ToUpper(s[i]))
  }

  lemma UpperChar(c: char)
    ensures IsAlnum(ToUpper(c)) == IsAlnum(c) && Text.ToLower(ToUpper(c)) == Text.ToLower(c)
  {
  }

  lemma {:induction false} WordsIgnoreCase(s: string)
    ensures Words(Upper(s)) == Words(s) && EndsInWord(Upper(s)) == EndsInWord(s)
    decreases |s|
  {
    hide Words;
    if s == "" {
      assert Upper(s) == s;
    } else {
      var front, last := s[..|s| - 1], s[|s| - 1];
      WordsIgnoreCase(front);
      UpperChar(last);
      assert Upper(s) == Upper(front) + [ToUpper(last)] && s == front + [last];
      if IsAlnum(last) {
        WordsAlnum(front, last);
        WordsAlnum(Upper(front), ToUpper(last));
      } else {
        WordsOther(front, last);
        WordsOther(Upper(front), ToUpper(last));
      }
    }
  }

  /** The case of the input does not matter. */
  lemma KeyIgnoresCase(value: string)
    ensures KeyOf(Upper(value)) == KeyOf(value)
  {
    hide Words, Join;
    WordsIgnoreCase(value);
  }
}
