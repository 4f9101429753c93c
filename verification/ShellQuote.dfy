// Shell quoting of command lines, and its inverse.
module ShellQuote {
  import opened Bytes
  import opened Collections
  import opened ShellLexer

  // ---- UTF-8 as Go's range loop decodes it ----

  predicate Cont(b: byte) {
    0x80 <= b <= 0xBF
  }

  // Width of the well-formed rune s starts with, 0 when it starts with none.
  function RuneWidth(s: Text): (w: nat)
    requires s != []
    ensures w <= 4 && w <= |s|
    ensures w == 1 <==> s[0] < 0x80
    ensures w != 1 ==> forall i | 0 <= i < (if w == 0 then 1 else w) :: s[i] >= 0x80
  {
    var b := s[0];
    if b < 0x80 then 1
    else if 0xC2 <= b <= 0xDF then if |s| >= 2 && Cont(s[1]) then 2 else 0
    else if 0xE0 <= b <= 0xEF then
      var lo: byte := if b == 0xE0 then 0xA0 else 0x80;
      var hi: byte := if b == 0xED then 0x9F else 0xBF;
      if |s| >= 3 && lo <= s[1] <= hi && Cont(s[2]) then 3 else 0
    else if 0xF0 <= b <= 0xF4 then
      var lo: byte := if b == 0xF0 then 0x90 else 0x80;
      var hi: byte := if b == 0xF4 then 0x8F else 0xBF;
      if |s| >= 4 && lo <= s[1] <= hi && Cont(s[2]) && Cont(s[3]) then 4 else 0
    else 0
  }

  predicate ValidUtf8(s: Text) {
    s == [] || (RuneWidth(s) > 0 && ValidUtf8(s[RuneWidth(s)..]))
  }

  const REPLACEMENT: Text := [0xEF, 0xBF, 0xBD]

  // Each byte that starts no rune becomes U+FFFD.
  function Sanitize(s: Text): Text {
    if s == [] then []
    else if RuneWidth(s) == 0 then REPLACEMENT + Sanitize(s[1..])
    else s[..RuneWidth(s)] + Sanitize(s[RuneWidth(s)..])
  }

  lemma {:induction false} SanitizeGrows(s: Text)
    ensures |Sanitize(s)| >= |s|
    ensures |Sanitize(s)| == |s| ==> ValidUtf8(s)
  {
    if s != [] {
      SanitizeGrows(s[if RuneWidth(s) == 0 then 1 else RuneWidth(s)..]);
    }
  }

  lemma {:induction false} SanitizeKeepsExactlyValid(s: Text)
    ensures Sanitize(s) == s <==> ValidUtf8(s)
  {
    SanitizeGrows(s);
    if ValidUtf8(s) && s != [] {
      SanitizeKeepsExactlyValid(s[RuneWidth(s)..]);
      assert s == s[..RuneWidth(s)] + s[RuneWidth(s)..];
    }
  }

  // ---- Quoting ----

  // Control bytes, space, and the characters a shell may act on.
  predicate Meta(b: byte) {
    b <= SPACE ||
    b in [34, 35, 36, 38, 39, 40, 41, 42, 59, 60, 61, 62, 63, 91, 92, 93, 94, 96, 123, 124, 125, 127]
  }

  predicate Safe(s: Text) {
    forall b | b in s :: !Meta(b)
  }

  // Inside single quotes, a quote is written '\'' and a newline '$'\n''.
  function Piece(b: byte): Text {
    if b == QUOTE then [QUOTE, BACKSLASH, QUOTE, QUOTE]
    else if b == NEWLINE then [QUOTE, DOLLAR, QUOTE, BACKSLASH, 110, QUOTE, QUOTE]
    else [b]
  }

  function Body(s: Text): Text {
    if s == [] then [] else Body(s[..|s| - 1]) + Piece(s[|s| - 1])
  }

  function Quoted(s: Text): Text {
    [QUOTE] + Body(s) + [QUOTE]
  }

  // The word as Go writes it, and the plain byte form.
  function GoQuote(s: Text): Text {
    if s == [] then [QUOTE, QUOTE] else if Safe(s) then s else Quoted(Sanitize(s))
  }

  function ByteQuote(s: Text): Text {
    if s == [] then [QUOTE, QUOTE] else if Safe(s) then s else Quoted(s)
  }

  lemma {:induction false} BodyAppend(a: Text, b: Text)
    ensures Body(a + b) == Body(a) + Body(b)
  {
    if b == [] {
      NothingBefore(a);
      NothingBefore(Body(a));
    } else {
      var n := |b| - 1;
      assert (a + b)[..|a| + n] == a + b[..n];
      BodyAppend(a, b[..n]);
      Assoc(Body(a), Body(b[..n]), Piece(b[n]));
    }
  }

  lemma {:induction false} BodyOfHigh(s: Text)
    requires forall i | 0 <= i < |s| :: s[i] >= 0x80
    ensures Body(s) == s
  {
    if s != [] {
      BodyOfHigh(s[..|s| - 1]);
      assert s == s[..|s| - 1] + [s[|s| - 1]];
    }
  }

  lemma EmptyBody()
    ensures Body([]) == [] && [QUOTE] + Body([]) == [QUOTE]
  {
  }

  lemma BodyOfOne(b: byte)
    ensures Body([b]) == Piece(b)
  {
    assert [b][..0] == [];
    NothingBefore(Piece(b));
  }

  // The bytes one rune, or one stray byte, contributes.
  function RuneOut(s: Text): Text
    requires s != []
  {
    if RuneWidth(s) == 0 then REPLACEMENT else s[..RuneWidth(s)]
  }

  function RuneStep(s: Text): (n: nat)
    requires s != []
    ensures 0 < n <= |s|
  {
    if RuneWidth(s) == 0 then 1 else RuneWidth(s)
  }

  // shQuote: both loops go rune by rune.
  method ShQuote(s: Text) returns (out: Text)
    ensures out == GoQuote(s)
  {
    hide Body, RuneOut, RuneStep;
    if s == [] {
      return [QUOTE, QUOTE];
    }
    var safe := IsSafe(s);
    if safe {
      return s;
    }
    out := [QUOTE];
    var i := 0;
    ghost var done: Text := [];
    EmptyBody();
    NothingBefore(Sanitize(s));
    assert s[i..] == s;
    while i < |s|
      invariant 0 <= i <= |s|
      invariant out == [QUOTE] + Body(done) && Sanitize(s) == done + Sanitize(s[i..])
    {
      var rest := s[i..];
      var rune := RuneOut(rest);
      ghost var before, later := out, Sanitize(rest[RuneStep(rest)..]);
      RuneBody(rest);
      if rune == [QUOTE] {
        out := out + [QUOTE, BACKSLASH, QUOTE, QUOTE];
      } else if rune == [NEWLINE] {
        out := out + [QUOTE, DOLLAR, QUOTE, BACKSLASH, 110, QUOTE, QUOTE];
      } else {
        out := out + rune;
      }
      assert out == before + Body(rune);
      BodyAppend(done, rune);
      Assoc([QUOTE], Body(done), Body(rune));
      Assoc(done, rune, later);
      i := i + RuneStep(rest);
      assert s[i..] == rest[RuneStep(rest)..];
      done := done + rune;
    }
    NothingBefore(done);
    out := out + [QUOTE];
  }

  lemma RuneBody(s: Text)
    requires s != []
    ensures Body(RuneOut(s)) ==
            if RuneOut(s) == [QUOTE] then Piece(QUOTE)
            else if RuneOut(s) == [NEWLINE] then Piece(NEWLINE)
            else RuneOut(s)
    ensures Sanitize(s) == RuneOut(s) + Sanitize(s[RuneStep(s)..])
  {
    if RuneWidth(s) == 1 {
      assert s[..1] == [s[0]];
      BodyOfOne(s[0]);
    } else {
      BodyOfHigh(RuneOut(s));
    }
  }

  method IsSafe(s: Text) returns (safe: bool)
    ensures safe <==> Safe(s)
  {
    var i := 0;
    while i < |s|
      invariant 0 <= i <= |s|
      invariant forall k | 0 <= k < i :: !Meta(s[k])
    {
      var rest := s[i..];
      if RuneWidth(rest) == 1 && Meta(rest[0]) {
        assert s[i] in s;
        return false;
      }
      assert forall k | i <= k < i + RuneStep(rest) :: s[k] == rest[k - i];
      i := i + RuneStep(rest);
    }
    return true;
  }

  // ---- A command line and its words ----

  // The argv part of an exec line, without colours.
  function Line(words: seq<Text>): Text {
    if words == [] then []
    else if |words| == 1 then words[0]
    else Line(words[..|words| - 1]) + [SPACE] + words[|words| - 1]
  }

  function GoWords(argv: seq<Text>): seq<Text> {
    if argv == [] then [] else GoWords(argv[..|argv| - 1]) + [GoQuote(argv[|argv| - 1])]
  }

  // What a word can be recovered as.
  function Recovered(s: Text): Text {
    if Safe(s) then s else Sanitize(s)
  }

  function AllRecovered(argv: seq<Text>): seq<Text> {
    if argv == [] then [] else AllRecovered(argv[..|argv| - 1]) + [Recovered(argv[|argv| - 1])]
  }

  lemma RunPiece(word: Text, words: seq<Text>, b: byte)
    ensures Run(State(Single, word, words), Piece(b)) == State(Single, word + [b], words)
  {
    var st := State(Single, word, words);
    if b == QUOTE {
      assert Piece(b) == [QUOTE] + ([BACKSLASH] + ([QUOTE] + [QUOTE]));
      RunCons(st, QUOTE, [BACKSLASH] + ([QUOTE] + [QUOTE]));
      RunCons(State(InWord, word, words), BACKSLASH, [QUOTE] + [QUOTE]);
      RunCons(State(Escape(true), word, words), QUOTE, [QUOTE]);
      RunOne(State(InWord, word + [b], words), QUOTE);
    } else if b == NEWLINE {
      RunNewlinePiece(word, words);
    } else {
      RunOne(st, b);
    }
  }

  lemma RunNewlinePiece(word: Text, words: seq<Text>)
    ensures Run(State(Single, word, words), Piece(NEWLINE)) == State(Single, word + [NEWLINE], words)
  {
    var tail2: Text := [QUOTE] + [QUOTE];
    var tail3: Text := [110] + tail2;
    var tail4: Text := [BACKSLASH] + tail3;
    var tail5: Text := [QUOTE] + tail4;
    var tail6: Text := [DOLLAR] + tail5;
    assert Piece(NEWLINE) == [QUOTE] + tail6;
    RunCons(State(Single, word, words), QUOTE, tail6);
    RunCons(State(InWord, word, words), DOLLAR, tail5);
    RunCons(State(Mode.Dollar, word, words), QUOTE, tail4);
    RunCons(State(DollarSingle, word, words), BACKSLASH, tail3);
    RunCons(State(DollarEscape, word, words), 110, tail2);
    RunCons(State(DollarSingle, word + [NEWLINE], words), QUOTE, [QUOTE]);
    RunOne(State(InWord, word + [NEWLINE], words), QUOTE);
  }

  lemma {:induction false} RunBody(word: Text, words: seq<Text>, s: Text)
    ensures Run(State(Single, word, words), Body(s)) == State(Single, word + s, words)
  {
    if s == [] {
      NothingBefore(word);
    } else {
      var n := |s| - 1;
      RunBody(word, words, s[..n]);
      RunAppend(State(Single, word, words), Body(s[..n]), Piece(s[n]));
      RunPiece(word + s[..n], words, s[n]);
      assert s == s[..n] + [s[n]];
      Assoc(word, s[..n], [s[n]]);
    }
  }

  lemma {:induction false} RunSafe(st: State, s: Text)
    requires Safe(s) && (st.mode.Between? || st.mode.InWord?)
    ensures Run(st, s) == if s == [] then st else State(InWord, st.word + s, st.words)
    decreases |s|
  {
    if s != [] {
      assert s[0] in s && !Meta(s[0]);
      assert Step(st, s[0]) == State(InWord, st.word + [s[0]], st.words);
      RunSafe(Step(st, s[0]), s[1..]);
      assert s == [s[0]] + s[1..];
      Assoc(st.word, [s[0]], s[1..]);
      NothingBefore(st.word + [s[0]]);
    }
  }

  lemma RunQuoted(words: seq<Text>, s: Text)
    ensures Run(State(Between, [], words), Quoted(s)) == State(InWord, s, words)
  {
    var st := State(Between, [], words);
    RunAppend(st, [QUOTE] + Body(s), [QUOTE]);
    RunCons(st, QUOTE, Body(s));
    RunBody([], words, s);
    NothingBefore(s);
    RunOne(State(Single, s, words), QUOTE);
  }

  lemma RunEmptyWord(words: seq<Text>)
    ensures Run(State(Between, [], words), [QUOTE, QUOTE]) == State(InWord, [], words)
  {
    assert [QUOTE, QUOTE] == [QUOTE] + [QUOTE];
    RunCons(State(Between, [], words), QUOTE, [QUOTE]);
    RunOne(State(Single, [], words), QUOTE);
  }

  lemma RunGoWord(words: seq<Text>, s: Text)
    ensures Run(State(Between, [], words), GoQuote(s)) == State(InWord, Recovered(s), words)
  {
    if s == [] {
      RunEmptyWord(words);
    } else if Safe(s) {
      RunSafe(State(Between, [], words), s);
      NothingBefore(s);
    } else {
      RunQuoted(words, Sanitize(s));
    }
  }

  // texts reads word by word as values, each text alone reading as one word.
  ghost predicate ReadsAs(text: Text, value: Text) {
    forall words :: Run(State(Between, [], words), text) == State(InWord, value, words)
  }

  lemma {:induction false} LineReads(texts: seq<Text>, values: seq<Text>)
    requires |texts| == |values| > 0
    requires forall i | 0 <= i < |texts| :: ReadsAs(texts[i], values[i])
    ensures var n := |values| - 1;
            Run(State(Between, [], []), Line(texts)) == State(InWord, values[n], values[..n])
  {
    var n, st := |values| - 1, State(Between, [], []);
    assert ReadsAs(texts[n], values[n]);
    if n > 0 {
      LineReads(texts[..n], values[..n]);
      var before := Line(texts[..n]);
      RunAppend(st, before + [SPACE], texts[n]);
      RunAppend(st, before, [SPACE]);
      RunOne(State(InWord, values[n - 1], values[..n][..n - 1]), SPACE);
      assert values[..n][..n - 1] + [values[n - 1]] == values[..n];
    }
  }

  lemma LineSplits(texts: seq<Text>, values: seq<Text>)
    requires |texts| == |values|
    requires forall i | 0 <= i < |texts| :: ReadsAs(texts[i], values[i])
    ensures SplitWords(Line(texts)) == Words(values)
  {
    if values != [] {
      LineReads(texts, values);
      assert values[..|values| - 1] + [values[|values| - 1]] == values;
    }
  }

  lemma GoWordReads(s: Text)
    ensures ReadsAs(GoQuote(s), Recovered(s))
  {
    forall words
      ensures Run(State(Between, [], words), GoQuote(s)) == State(InWord, Recovered(s), words)
    {
      RunGoWord(words, s);
    }
  }

  lemma {:induction false} GoWordsReadBack(argv: seq<Text>)
    ensures |GoWords(argv)| == |AllRecovered(argv)| == |argv|
    ensures forall i | 0 <= i < |argv| ::
              ReadsAs(GoWords(argv)[i], AllRecovered(argv)[i]) && AllRecovered(argv)[i] == Recovered(argv[i])
  {
    hide ReadsAs, GoQuote, Recovered;
    if argv != [] {
      var n := |argv| - 1;
      GoWordsReadBack(argv[..n]);
      GoWordReads(argv[n]);
    }
  }

  // For every argv, empty strings, quotes and newlines included, the printed
  // line splits into as many words; each comes back unchanged if it is safe or
  // valid UTF-8, and otherwise with its stray bytes replaced.  So the line
  // splits into exactly argv if and only if every unsafe word is valid UTF-8.
  lemma CommandLineReadsBack(argv: seq<Text>)
    ensures SplitWords(Line(GoWords(argv))) == Words(AllRecovered(argv))
    ensures SplitWords(Line(GoWords(argv))) == Words(argv) <==> forall s | s in argv :: Safe(s) || ValidUtf8(s)
  {
    GoWordsReadBack(argv);
    LineSplits(GoWords(argv), AllRecovered(argv));
    forall i | 0 <= i < |argv|
      ensures AllRecovered(argv)[i] == argv[i] <==> Safe(argv[i]) || ValidUtf8(argv[i])
    {
      SanitizeKeepsExactlyValid(argv[i]);
    }
    if forall s | s in argv :: Safe(s) || ValidUtf8(s) {
      assert AllRecovered(argv) == argv;
    } else {
      var s :| s in argv && !(Safe(s) || ValidUtf8(s));
      var i :| 0 <= i < |argv| && argv[i] == s;
      assert AllRecovered(argv)[i] != argv[i];
    }
  }

  // The condition is not idle: a stray byte in an unsafe word is lost.
  lemma StrayByteIsLost()
    ensures var s: Text := [SPACE, 0xFF];
            SplitWords(Line(GoWords([s]))) == Words([[SPACE] + REPLACEMENT]) && [SPACE] + REPLACEMENT != s
  {
    var s: Text := [SPACE, 0xFF];
    CommandLineReadsBack([s]);
    assert Meta(s[0]) && s[0] in s;
    assert [s][..0] == [];
    assert s[1..] == [0xFF] && s[1..][1..] == [];
    assert Sanitize(s[1..]) == REPLACEMENT + Sanitize(s[1..][1..]);
    assert Sanitize(s) == s[..1] + Sanitize(s[1..]);
    assert s[..1] == [SPACE] && REPLACEMENT + [] == REPLACEMENT;
    assert Recovered(s) == [SPACE] + REPLACEMENT;
    assert AllRecovered([s]) == [Recovered(s)];
  }

  // ---- Which words stay bare ----

  // Characters with a meaning for the shell: patterns, expansions,
  // quoting, operators, comments and assignments.
  const ACTIVE := "*?[]{}$`()<>|&;#=^\\\"'"

  predicate Inert(b: byte) {
    32 < b as int != 127 && b as int as char !in ACTIVE
  }

  lemma InertIsNotMeta(b: byte)
    ensures Inert(b) <==> !Meta(b)
  {
    assert ACTIVE == ['*', '?', '[', ']', '{', '}', '$', '`', '(', ')', '<', '>', '|', '&', ';', '#', '=', '^', '\\', '\"', '\''];
  }

  lemma {:induction false} BodyGrows(s: Text)
    ensures |Body(s)| >= |s|
  {
    if s != [] {
      BodyGrows(s[..|s| - 1]);
    }
  }

  // A word is printed as it is if and only if it is not empty and all its bytes
  // are inert.
  lemma BareIffInert(s: Text)
    ensures GoQuote(s) == s <==> s != [] && forall b | b in s :: Inert(b)
  {
    forall b: byte
      ensures Inert(b) <==> !Meta(b)
    {
      InertIsNotMeta(b);
    }
    hide Inert, Meta;
    if s != [] && !Safe(s) {
      SanitizeGrows(s);
      BodyGrows(Sanitize(s));
    }
  }

  // The tilde is not among them: a word that starts with one stays bare.
  lemma TildeStaysBare(rest: Text)
    requires forall b | b in rest :: Inert(b)
    ensures GoQuote(['~' as int as byte] + rest) == ['~' as int as byte] + rest
  {
    var s: Text := ['~' as int as byte] + rest;
    assert '~' !in ACTIVE;
    assert forall b | b in s :: b == '~' as int as byte || b in rest;
    BareIffInert(s);
  }
}
