// shquote of the C port: the quoted word is written into one of sixteen
// rotating 1024-byte slots, and cut off when it does not fit.
module QuotePool {
  import opened Bytes
  import opened Collections
  import opened ShellLexer
  import opened ShellQuote

  const POOL_N := 16
  const POOL_SZ := 1024

  // How many bytes of s the loop copies when w bytes are already written.
  function Fitting(s: Text, w: nat): (n: nat)
    ensures n <= |s|
    decreases |s|
  {
    if s == [] || w >= POOL_SZ - 8 then 0 else 1 + Fitting(s[1..], w + |Piece(s[0])|)
  }

  // The text the slot ends up with.
  function SlotText(s: Text): Text {
    if s == [] then [QUOTE, QUOTE]
    else if Safe(s) then if |s| < POOL_SZ then s else s[..POOL_SZ - 1]
    else Quoted(s[..Fitting(s, 1)])
  }

  // ---- When nothing is cut ----

  lemma PieceSize(b: byte)
    ensures 1 <= |Piece(b)| <= 7
  {
  }

  lemma BodyCons(b: byte, rest: Text)
    ensures Body([b] + rest) == Piece(b) + Body(rest)
  {
    BodyAppend([b], rest);
    BodyOfOne(b);
  }

  lemma {:induction false} FitsAll(s: Text, w: nat)
    requires s != []
    ensures Fitting(s, w) == |s| <==> w + |Body(s[..|s| - 1])| < POOL_SZ - 8
    decreases |s|
  {
    if |s| > 1 {
      var rest := s[1..];
      assert s[..|s| - 1] == [s[0]] + rest[..|rest| - 1];
      BodyCons(s[0], rest[..|rest| - 1]);
      FitsAll(rest, w + |Piece(s[0])|);
    } else {
      assert s[..0] == [] && s[1..] == [];
    }
  }

  lemma {:induction false} FittingSize(s: Text, w: nat)
    ensures Fitting(s, w) > 0 ==> w + |Body(s[..Fitting(s, w)])| < POOL_SZ - 1
    decreases |s|
  {
    if s != [] && w < POOL_SZ - 8 {
      var rest, k := s[1..], Fitting(s[1..], w + |Piece(s[0])|);
      PieceSize(s[0]);
      FittingSize(rest, w + |Piece(s[0])|);
      assert s[..1 + k] == [s[0]] + rest[..k];
      BodyCons(s[0], rest[..k]);
      assert k == 0 ==> rest[..k] == [];
    }
  }

  // What a caller can check: the quoted form minus its last piece and closing
  // quote stays below 1016 bytes (a safe word: the word stays below 1024).
  predicate Fits(s: Text) {
    s == [] || (if Safe(s) then |s| < POOL_SZ else 1 + |Body(s[..|s| - 1])| < POOL_SZ - 8)
  }

  lemma CutIsShorter(s: Text, k: nat)
    requires k <= |s|
    ensures |Quoted(s[..k])| <= |Quoted(s)| - (|s| - k)
  {
    assert s == s[..k] + s[k..];
    BodyAppend(s[..k], s[k..]);
    BodyGrows(s[k..]);
  }

  lemma SmallFits(s: Text)
    requires s != [] && |Quoted(s)| <= 1017
    ensures 1 + |Body(s[..|s| - 1])| < POOL_SZ - 8
  {
    CutIsShorter(s, |s| - 1);
  }

  // The C word is the full quoted word exactly when it fits; 1017 bytes of
  // quoted form always do.
  lemma SlotTextIsFullIffFits(s: Text)
    ensures SlotText(s) == ByteQuote(s) <==> Fits(s)
    ensures |ByteQuote(s)| <= 1017 ==> Fits(s)
    ensures |SlotText(s)| <= 1023
  {
    hide Body, Meta;
    if s != [] && !Safe(s) {
      var k := Fitting(s, 1);
      FitsAll(s, 1);
      FittingSize(s, 1);
      CutIsShorter(s, k);
      if k == |s| {
        assert s[..k] == s;
      }
      if |Quoted(s)| <= 1017 {
        SmallFits(s);
      }
    }
  }

  // Go and C write the same word for valid UTF-8 that fits.
  lemma PortsAgree(s: Text)
    requires Safe(s) || ValidUtf8(s)
    ensures SlotText(s) == GoQuote(s) <==> Fits(s)
  {
    SlotTextIsFullIffFits(s);
    SanitizeKeepsExactlyValid(s);
  }

  // ---- A cut word is still one word ----

  // How much of s the slot holds.
  function Kept(s: Text): (n: nat)
    ensures n <= |s|
  {
    if Safe(s) then if |s| < POOL_SZ then |s| else POOL_SZ - 1 else Fitting(s, 1)
  }

  // However long the word, the slot reads back as one word, a prefix of s, and
  // as s itself when it fits, whatever bytes s is made of.
  lemma SlotReadsAsPrefix(s: Text)
    ensures ReadsAs(SlotText(s), s[..Kept(s)])
    ensures s[..Kept(s)] == s <==> Fits(s)
  {
    forall words
      ensures Run(State(Between, [], words), SlotText(s)) == State(InWord, s[..Kept(s)], words)
    {
      if s == [] {
        RunEmptyWord(words);
      } else if Safe(s) {
        RunSafe(State(Between, [], words), SlotText(s));
        NothingBefore(SlotText(s));
        assert SlotText(s) == s[..Kept(s)];
      } else {
        RunQuoted(words, s[..Kept(s)]);
      }
    }
    if s != [] && !Safe(s) {
      FitsAll(s, 1);
    }
  }

  function SlotTexts(argv: seq<Text>): seq<Text> {
    if argv == [] then [] else SlotTexts(argv[..|argv| - 1]) + [SlotText(argv[|argv| - 1])]
  }

  // The words as the slots hold them.
  function AllKept(argv: seq<Text>): seq<Text> {
    if argv == [] then [] else AllKept(argv[..|argv| - 1]) + [argv[|argv| - 1][..Kept(argv[|argv| - 1])]]
  }

  lemma {:induction false} SlotTextsReadBack(argv: seq<Text>)
    ensures |SlotTexts(argv)| == |AllKept(argv)| == |argv|
    ensures forall i | 0 <= i < |argv| ::
              ReadsAs(SlotTexts(argv)[i], AllKept(argv)[i]) && (AllKept(argv)[i] == argv[i] <==> Fits(argv[i]))
  {
    hide ReadsAs, SlotText, Fits, Kept;
    if argv != [] {
      var n := |argv| - 1;
      SlotTextsReadBack(argv[..n]);
      SlotReadsAsPrefix(argv[n]);
    }
  }

  // The C command line splits into as many words, each a prefix of the one
  // given; it splits into exactly argv, arbitrary bytes included, if and only
  // if every word fits.
  lemma CCommandLineReadsBack(argv: seq<Text>)
    ensures SplitWords(Line(SlotTexts(argv))) == Words(AllKept(argv))
    ensures SplitWords(Line(SlotTexts(argv))) == Words(argv) <==> forall s | s in argv :: Fits(s)
  {
    SlotTextsReadBack(argv);
    LineSplits(SlotTexts(argv), AllKept(argv));
    hide Fits, Kept, SlotTexts, SplitWords;
    if AllKept(argv) == argv {
      assert forall i | 0 <= i < |argv| :: Fits(argv[i]);
    }
  }

  // ---- The buffer ----

  function SlotBase(slot: nat): (base: nat)
    ensures base + POOL_SZ <= POOL_N * POOL_SZ
  {
    slot % POOL_N * POOL_SZ
  }

  class Pool {
    const buf: array<byte>
    var slot: nat

    ghost predicate Valid()
      reads this
    {
      buf.Length == POOL_N * POOL_SZ
    }

    // The NUL-terminated text at base.
    ghost predicate TextAt(base: nat, t: Text)
      reads this, buf
    {
      base + |t| < buf.Length && buf[base..base + |t|] == t && buf[base + |t|] == 0
    }

    constructor ()
      ensures Valid() && fresh(buf)
    {
      buf := new byte[POOL_N * POOL_SZ];
      slot := 0;
    }

    // Returns the start of the slot; writes nothing outside it.
    method Quote(s: Text) returns (base: nat)
      requires Valid() && forall b | b in s :: b != 0
      modifies this`slot, buf
      ensures Valid() && slot == old(slot) + 1 && base == SlotBase(old(slot))
      ensures TextAt(base, SlotText(s)) && |SlotText(s)| < POOL_SZ
      ensures forall i | 0 <= i < buf.Length && !(base <= i < base + POOL_SZ) :: buf[i] == old(buf[i])
    {
      base := SlotBase(slot);
      slot := slot + 1;
      SlotTextIsFullIffFits(s);
      hide Fitting, Quoted, Safe;
      if s == [] {
        PutText(base, [QUOTE, QUOTE]);
        return;
      }
      var safe := CheckSafe(s);
      if safe {
        PutText(base, if |s| < POOL_SZ then s else s[..POOL_SZ - 1]);
        return;
      }
      WriteQuoted(base, s);
    }

    method PutText(base: nat, t: Text)
      requires base + POOL_SZ <= buf.Length && |t| < POOL_SZ
      modifies buf
      ensures TextAt(base, t)
      ensures forall i | 0 <= i < buf.Length && !(base <= i < base + POOL_SZ) :: buf[i] == old(buf[i])
    {
      Put(base, 0, t);
      buf[base + |t|] := 0;
      assert buf[base..base + |t|] == t;
    }

    // The quoting loop, from the opening to the closing quote.
    method WriteQuoted(base: nat, s: Text)
      requires base + POOL_SZ <= buf.Length
      modifies buf
      ensures TextAt(base, Quoted(s[..Fitting(s, 1)])) && |Quoted(s[..Fitting(s, 1)])| < POOL_SZ
      ensures forall i | 0 <= i < buf.Length && !(base <= i < base + POOL_SZ) :: buf[i] == old(buf[i])
    {
      hide Body, Piece;
      buf[base] := QUOTE;
      var w := 1;
      var p := 0;
      ghost var goal := Fitting(s, 1);
      EmptyBody();
      assert s[p..] == s;
      while p < |s| && w < POOL_SZ - 8
        invariant 0 <= p <= |s| && 1 <= w < POOL_SZ - 1
        invariant goal == p + Fitting(s[p..], w)
        invariant w == |[QUOTE] + Body(s[..p])| && buf[base..base + w] == [QUOTE] + Body(s[..p])
        invariant forall i | 0 <= i < buf.Length && !(base <= i < base + POOL_SZ) :: buf[i] == old(buf[i])
        decreases |s| - p
      {
        ghost var before := buf[base..base + w];
        var piece := Piece(s[p]);
        PieceSize(s[p]);
        Put(base, w, piece);
        BodyStep(s, p);
        assert s[p..][1..] == s[p + 1..];
        assert buf[base..base + w + |piece|] == before + piece;
        Assoc([QUOTE], Body(s[..p]), piece);
        w := w + |piece|;
        p := p + 1;
      }
      assert goal == p;
      ghost var open := buf[base..base + w];
      buf[base + w] := QUOTE;
      assert buf[base..base + w] == open;
      assert buf[base..base + w + 1] == open + [QUOTE];
      w := w + 1;
      ghost var text := buf[base..base + w];
      buf[base + w] := 0;
      assert buf[base..base + w] == text;
    }

    // memcpy into the slot.
    method Put(base: nat, w: nat, t: Text)
      requires base + w + |t| <= buf.Length
      modifies buf
      ensures buf[base + w..base + w + |t|] == t
      ensures forall i | 0 <= i < buf.Length && !(base + w <= i < base + w + |t|) :: buf[i] == old(buf[i])
    {
      for i := 0 to |t|
        invariant forall k | 0 <= k < i :: buf[base + w + k] == t[k]
        invariant forall k | 0 <= k < buf.Length && !(base + w <= k < base + w + |t|) :: buf[k] == old(buf[k])
      {
        buf[base + w + i] := t[i];
      }
    }
  }

  lemma BodyStep(s: Text, p: nat)
    requires p < |s|
    ensures Body(s[..p + 1]) == Body(s[..p]) + Piece(s[p])
  {
    assert s[..p + 1][..p] == s[..p];
  }

  method CheckSafe(s: Text) returns (safe: bool)
    ensures safe <==> Safe(s)
  {
    for i := 0 to |s|
      invariant forall k | 0 <= k < i :: !Meta(s[k])
    {
      if Meta(s[i]) {
        return false;
      }
    }
    return true;
  }

  // A result stays intact through the next fifteen calls: they write to
  // other slots.
  lemma SlotsRotate(slot: nat, later: nat)
    requires slot < later < slot + POOL_N
    ensures SlotBase(slot) + POOL_SZ <= SlotBase(later) || SlotBase(later) + POOL_SZ <= SlotBase(slot)
  {
    assert slot % POOL_N != later % POOL_N;
  }
}
