// Splitting a command line into words, as a POSIX shell does before any
// expansion: backslashes, single quotes and dollar-single-quotes (sections
// 2.2.1, 2.2.2 and 2.2.4 of the Shell Command Language, POSIX.1-2024).  A line
// that would need anything else of the shell (an operator, an expansion, a
// comment, a double quote, a second command) is not split.
module ShellLexer {
  import opened Bytes

  type Text = seq<byte>

  const BLANK_TAB: byte := 9
  const NEWLINE: byte := 10
  const SPACE: byte := 32
  const DOLLAR: byte := 36
  const QUOTE: byte := 39
  const BACKSLASH: byte := 92

  // Operators, double quote, backquote and newline end the plain reading.
  predicate NeedsShell(b: byte) {
    b in [NEWLINE, 34, 38, 40, 41, 59, 60, 62, 96, 124]
  }

  datatype Mode =
    | Between
    | InWord
    | Single
    | Dollar
    | DollarSingle
    | DollarEscape
    | Escape(inWord: bool)
    | Bad

  datatype State = State(mode: Mode, word: Text, words: seq<Text>)

  function EscapeValue(b: byte): int {
    if b == 110 then 10 else if b == 116 then 9 else if b == 114 then 13 else if b == 97 then 7
    else if b == 98 then 8 else if b == 101 then 27 else if b == 102 then 12 else if b == 118 then 11
    else if b in [34, QUOTE, BACKSLASH] then b as int
    else -1
  }

  // A byte outside any quotes.
  function Unquoted(st: State, b: byte): State {
    if b == QUOTE then st.(mode := Single)
    else if b == BACKSLASH then st.(mode := Escape(st.mode.InWord?))
    else if b == DOLLAR then st.(mode := Mode.Dollar)
    else if NeedsShell(b) || (st.mode.Between? && b == 35) then st.(mode := Bad)
    else State(InWord, st.word + [b], st.words)
  }

  function Step(st: State, b: byte): State {
    match st.mode
    case Between => if b == SPACE || b == BLANK_TAB then st else Unquoted(st, b)
    case InWord =>
      if b == SPACE || b == BLANK_TAB then State(Between, [], st.words + [st.word]) else Unquoted(st, b)
    case Single => if b == QUOTE then st.(mode := InWord) else st.(word := st.word + [b])
    case Dollar => if b == QUOTE then st.(mode := DollarSingle) else st.(mode := Bad)
    case DollarSingle =>
      if b == QUOTE then st.(mode := InWord)
      else if b == BACKSLASH then st.(mode := DollarEscape)
      else st.(word := st.word + [b])
    case DollarEscape =>
      if EscapeValue(b) < 0 then st.(mode := Bad)
      else State(DollarSingle, st.word + [EscapeValue(b) as byte], st.words)
    case Escape(inWord) =>
      if b == NEWLINE then st.(mode := if inWord then InWord else Between)
      else State(InWord, st.word + [b], st.words)
    case Bad => st
  }

  function Run(st: State, s: Text): State
    decreases |s|
  {
    if s == [] then st else Run(Step(st, s[0]), s[1..])
  }

  datatype Split = NotPlain | Words(words: seq<Text>)

  function Finish(st: State): Split {
    if st.mode.Between? then Words(st.words)
    else if st.mode.InWord? then Words(st.words + [st.word])
    else NotPlain
  }

  function SplitWords(line: Text): Split {
    Finish(Run(State(Between, [], []), line))
  }

  lemma {:induction false} RunAppend(st: State, a: Text, b: Text)
    ensures Run(st, a + b) == Run(Run(st, a), b)
    decreases |a|
  {
    if a == [] {
      assert a + b == b;
    } else {
      assert (a + b)[1..] == a[1..] + b;
      RunAppend(Step(st, a[0]), a[1..], b);
    }
  }

  lemma RunOne(st: State, b: byte)
    ensures Run(st, [b]) == Step(st, b)
  {
    assert [b][1..] == [];
  }

  lemma RunCons(st: State, b: byte, rest: Text)
    ensures Run(st, [b] + rest) == Run(Step(st, b), rest)
  {
    assert ([b] + rest)[1..] == rest;
  }
}
