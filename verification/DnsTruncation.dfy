// What parsing a cut-off message yields.
module DnsTruncation {
  import opened Bytes
  import opened DnsName
  import opened DnsMessage
  import opened DnsLayout

  // One past the last byte a successful walk reads.
  ghost function Reach(d: seq<byte>, off: nat, n: nat): nat
    decreases n
  {
    if n == 0 || off >= |d| then 0
    else
      var next := Next(d, off);
      var here := if d[off] == 0 then off + 1 else if d[off] >= 0xC0 then off + 2 else off + 1 + d[off] as nat;
      if next < 0 then here else if Reach(d, next, n - 1) > here then Reach(d, next, n - 1) else here
  }

  ghost function NameReach(d: seq<byte>, off: nat): nat {
    Reach(d, off, |d| + 1)
  }

  // The cut message's walk, turn by turn.
  lemma {:induction false} WalkCut(d: seq<byte>, cut: nat, off: nat, n: nat)
    requires cut <= |d|
    ensures Walk(d[..cut], off, n).Endless? ==> Walk(d, off, n).Endless?
    ensures Walk(d, off, n).Name? && Reach(d, off, n) <= cut ==> Walk(d[..cut], off, n) == Walk(d, off, n)
    ensures Walk(d[..cut], off, n).Name? ==> Walk(d, off, n).Name? && Reach(d, off, n) <= cut
    decreases n
  {
    if n > 0 && off < cut {
      var next := Next(d, off);
      if next >= 0 {
        WalkCut(d, cut, next, n - 1);
        if d[off] < 0x40 && next <= cut {
          assert d[..cut][off + 1..next] == d[off + 1..next];
        }
      }
    }
  }

  // A name that ends reads the same after a cut exactly when none of its bytes
  // are cut away, and is malformed otherwise; a cut creates no endless name.
  lemma ReadNameCut(d: seq<byte>, cut: nat, off: nat)
    requires cut <= |d| && !ReadName(d, off).Endless?
    ensures ReadName(d[..cut], off) ==
            if ReadName(d, off).Name? && NameReach(d, off) <= cut then ReadName(d, off) else Malformed
  {
    WalkCut(d, cut, off, |d| + 1);
    EndlessIsForever(d[..cut], off, |d| + 1);
  }

  // ---- Well-formed messages ----

  // No name of the question section reaches past the section, and no name in
  // front of a record past the record.
  ghost predicate QuestionsContained(d: seq<byte>, off: nat, n: nat, end: nat)
    decreases n
  {
    n > 0 && ReadName(d, off).Name? ==>
      NameReach(d, off) <= end && QuestionsContained(d, ReadName(d, off).end + 4, n - 1, end)
  }

  ghost predicate NameContained(d: seq<byte>, off: nat, end: nat) {
    ReadName(d, off).Name? ==> NameReach(d, off) <= end
  }

  ghost predicate RecordsContained(d: seq<byte>, off: nat, n: nat)
    decreases n
  {
    n > 0 && RecordFrom(d, off).Take? ==>
      var r := RecordFrom(d, off).r;
      && NameContained(d, off, r.start + r.len)
      && RecordsContained(d, r.start + r.len, n - 1)
  }

  // No name in front of the records reaches past its section or record.
  ghost predicate Framed(impl: Impl, d: seq<byte>) {
    && ParseMessage(impl, d).Accept?
    && QuestionsContained(d, HEADER, Be16(d, 4), Header(d).end)
    && RecordsContained(d, Header(d).end, Be16(d, 6))
  }

  // Nor does a name read for the data of a record.
  ghost predicate WellFormed(impl: Impl, d: seq<byte>) {
    Framed(impl, d) && AllContained(impl, d, Body(d, Header(d).end))
  }

  ghost predicate AllContained(impl: Impl, d: seq<byte>, scan: Scan) {
    scan.More? ==> DataReach(impl, d, scan.r) <= scan.r.start + scan.r.len && AllContained(impl, d, scan.rest)
  }

  // One past the last byte read for the name in a record's data.
  ghost function DataReach(impl: Impl, d: seq<byte>, r: Record): nat {
    if HasName(r) && NameAt(impl, r) >= 0 && ReadName(d, NameAt(impl, r)).Name? then NameReach(d, NameAt(impl, r)) else 0
  }

  // ---- Cutting ----

  lemma {:induction false} QuestionsGrow(d: seq<byte>, off: nat, n: nat)
    requires ReadQuestions(d, off, n).Questions?
    ensures ReadQuestions(d, off, n).end >= off
    decreases n
  {
    if n > 0 {
      var e := ReadName(d, off).end;
      QuestionsGrow(d, e + 4, n - 1);
      NameGrows(d, off, |d| + 1);
    }
  }

  lemma {:induction false} NameGrows(d: seq<byte>, off: nat, n: nat)
    requires Walk(d, off, n).Name?
    ensures off < Walk(d, off, n).end <= |d|
    decreases n
  {
    if 0 < d[off] < 0x40 {
      NameGrows(d, Next(d, off), n - 1);
    }
  }

  lemma {:induction false} QuestionsCut(d: seq<byte>, cut: nat, off: nat, n: nat)
    requires ReadQuestions(d, off, n).Questions?
    requires ReadQuestions(d, off, n).end <= cut <= |d|
    requires QuestionsContained(d, off, n, cut)
    ensures ReadQuestions(d[..cut], off, n) == ReadQuestions(d, off, n)
    decreases n
  {
    hide ReadName, Join;
    if n > 0 {
      var e := ReadName(d, off).end;
      QuestionsGrow(d, e + 4, n - 1);
      ReadNameCut(d, cut, off);
      QuestionsCut(d, cut, e + 4, n - 1);
    }
  }

  lemma {:induction false} ContainedLater(d: seq<byte>, off: nat, n: nat, end: nat, cut: nat)
    requires QuestionsContained(d, off, n, end) && end <= cut
    ensures QuestionsContained(d, off, n, cut)
    decreases n
  {
    if n > 0 && ReadName(d, off).Name? {
      ContainedLater(d, ReadName(d, off).end + 4, n - 1, end, cut);
    }
  }

  lemma RecordCut(d: seq<byte>, cut: nat, off: nat)
    requires cut <= |d| && !RecordFrom(d, off).Stuck?
    requires RecordFrom(d, off).Take? ==>
               NameContained(d, off, RecordFrom(d, off).r.start + RecordFrom(d, off).r.len)
    ensures RecordFrom(d[..cut], off) ==
            if RecordFrom(d, off).Take? && RecordFrom(d, off).r.start + RecordFrom(d, off).r.len <= cut
            then RecordFrom(d, off) else Stop
  {
    ReadNameCut(d, cut, off);
  }

  // The records before the first that ends past the cut.
  function UpTo(scan: Scan, cut: nat): Scan {
    if scan.More? && scan.r.start + scan.r.len <= cut then More(scan.r, UpTo(scan.rest, cut)) else Done
  }

  // The scan of the cut message finds the same records, up to the first that
  // reaches past the cut.
  lemma {:induction false} ScanCut(impl: Impl, d: seq<byte>, cut: nat, off: nat, n: nat)
    requires cut <= |d| && FateOf(impl, d, ScanRecords(d, off, n)).Fine? && RecordsContained(d, off, n)
    ensures ScanRecords(d[..cut], off, n) == UpTo(ScanRecords(d, off, n), cut)
    decreases n
  {
    hide RecordPanics, RecordHangs, RecordFrom, NameContained;
    if n > 0 {
      assert !RecordFrom(d, off).Stuck?;
      RecordCut(d, cut, off);
      if RecordFrom(d, off).Take? {
        var r := RecordFrom(d, off).r;
        ScanCut(impl, d, cut, r.start + r.len, n - 1);
      }
    }
  }

  // What is left of a whole record's answers: a name read past the cut is lost.
  ghost function Left(impl: Impl, d: seq<byte>, r: Record, cut: nat): seq<Answer> {
    if DataReach(impl, d, r) <= cut then RecordAnswers(impl, d, r) else []
  }

  lemma AnswersCut(impl: Impl, d: seq<byte>, cut: nat, r: Record)
    requires cut <= |d| && r.start + r.len <= cut && !RecordHangs(impl, d, r)
    ensures RecordAnswers(impl, d[..cut], r) == Left(impl, d, r, cut) && !RecordHangs(impl, d[..cut], r)
    ensures DataReach(impl, d, r) > cut ==> RecordAnswers(impl, d, r) != []
  {
    assert Rdata(d[..cut], r) == Rdata(d, r);
    if HasName(r) && NameAt(impl, r) >= 0 {
      ReadNameCut(d, cut, NameAt(impl, r));
    }
  }

  ghost function AllLeft(impl: Impl, d: seq<byte>, scan: Scan, cut: nat): seq<Answer> {
    if scan.More? then Left(impl, d, scan.r, cut) + AllLeft(impl, d, scan.rest, cut) else []
  }

  lemma {:induction false} AllAnswersCut(impl: Impl, d: seq<byte>, cut: nat, scan: Scan)
    requires cut <= |d| && FateOf(impl, d, scan).Fine?
    ensures AllAnswers(impl, d[..cut], UpTo(scan, cut)) == AllLeft(impl, d, UpTo(scan, cut), cut)
    ensures FateOf(impl, d[..cut], UpTo(scan, cut)).Fine?
  {
    hide RecordPanics, RecordHangs, RecordAnswers, Left;
    if scan.More? && scan.r.start + scan.r.len <= cut {
      AnswersCut(impl, d, cut, scan.r);
      AllAnswersCut(impl, d, cut, scan.rest);
    }
  }

  // No name read for the records of the scan reaches past the cut.
  ghost predicate NoneLost(impl: Impl, d: seq<byte>, scan: Scan, cut: nat) {
    scan.More? ==> DataReach(impl, d, scan.r) <= cut && NoneLost(impl, d, scan.rest, cut)
  }

  lemma {:induction false} LeftIsAllIffNoneLost(impl: Impl, d: seq<byte>, scan: Scan, cut: nat)
    requires cut <= |d| && FateOf(impl, d, scan).Fine? && EndBy(scan, cut)
    ensures |AllLeft(impl, d, scan, cut)| <= |AllAnswers(impl, d, scan)|
    ensures AllLeft(impl, d, scan, cut) == AllAnswers(impl, d, scan) <==> NoneLost(impl, d, scan, cut)
  {
    hide RecordPanics, RecordHangs, RecordAnswers, DataReach;
    if scan.More? {
      AnswersCut(impl, d, cut, scan.r);
      LeftIsAllIffNoneLost(impl, d, scan.rest, cut);
      var l, a := Left(impl, d, scan.r, cut), RecordAnswers(impl, d, scan.r);
      SameTail(l, AllLeft(impl, d, scan.rest, cut), a, AllAnswers(impl, d, scan.rest));
    }
  }

  lemma SameTail<T>(a: seq<T>, b: seq<T>, c: seq<T>, e: seq<T>)
    requires (a == c || |a| < |c|) && |b| <= |e|
    ensures a + b == c + e <==> a == c && b == e
    ensures |a + b| <= |c + e|
  {
    if a + b == c + e {
      assert |a| == |c|;
      assert b == (a + b)[|a|..] && e == (c + e)[|c|..];
    }
  }

  ghost predicate EndBy(scan: Scan, cut: nat) {
    scan.More? ==> scan.r.start + scan.r.len <= cut && EndBy(scan.rest, cut)
  }

  lemma {:induction false} UpToIsFine(impl: Impl, d: seq<byte>, scan: Scan, cut: nat)
    requires FateOf(impl, d, scan).Fine?
    ensures FateOf(impl, d, UpTo(scan, cut)).Fine? && EndBy(UpTo(scan, cut), cut)
    ensures AllAnswers(impl, d, UpTo(scan, cut)) <= AllAnswers(impl, d, scan)
    ensures AllContained(impl, d, scan) ==> NoneLost(impl, d, UpTo(scan, cut), cut)
  {
    hide RecordPanics, RecordHangs, RecordAnswers, DataReach;
    if scan.More? && scan.r.start + scan.r.len <= cut {
      UpToIsFine(impl, d, scan.rest, cut);
      PrefixAfter(RecordAnswers(impl, d, scan.r), AllAnswers(impl, d, UpTo(scan.rest, cut)), AllAnswers(impl, d, scan.rest));
    }
  }

  lemma PrefixAfter<T>(a: seq<T>, b: seq<T>, c: seq<T>)
    requires b <= c
    ensures a + b <= a + c
  {
  }

  // The records that end by the cut.
  ghost function WholeRecords(d: seq<byte>, cut: nat): Scan
    requires |d| >= HEADER && Header(d).Questions?
  {
    UpTo(Body(d, Header(d).end), cut)
  }

  // A message cut anywhere at or after the end of its question section parses
  // with the same id, flags and question, and with exactly the answers of its
  // whole records, save those whose name is read past the cut.
  lemma TruncatedAnswers(impl: Impl, d: seq<byte>, cut: nat)
    requires Framed(impl, d) && Header(d).end <= cut <= |d|
    ensures ParseMessage(impl, d[..cut]) ==
            Accept(ParseMessage(impl, d).msg.(answers := AllLeft(impl, d, WholeRecords(d, cut), cut)))
  {
    var end := Header(d).end;
    HeaderCut(impl, d, cut);
    ScanCut(impl, d, cut, end, Be16(d, 6));
    AllAnswersCut(impl, d, cut, Body(d, end));
    assert Body(d[..cut], end) == UpTo(Body(d, end), cut);
    hide FateOf, AllAnswers, AllLeft, UpTo, Body, Header, QuestionsContained, RecordsContained;
  }

  // So it keeps all the answers of its whole records if and only if no name of
  // theirs is read past the cut.
  lemma TruncationKeepsAllIffNoneLost(impl: Impl, d: seq<byte>, cut: nat)
    requires Framed(impl, d) && Header(d).end <= cut <= |d|
    ensures ParseMessage(impl, d[..cut]) == Accept(ParseMessage(impl, d).msg.(answers := AllAnswers(impl, d, WholeRecords(d, cut))))
            <==> NoneLost(impl, d, WholeRecords(d, cut), cut)
  {
    TruncatedAnswers(impl, d, cut);
    UpToIsFine(impl, d, Body(d, Header(d).end), cut);
    LeftIsAllIffNoneLost(impl, d, WholeRecords(d, cut), cut);
  }

  // Cutting a well-formed message loses nothing but whole records: it parses
  // with exactly the answers of the records before the first one that is cut,
  // a prefix of the full message's answers.
  lemma TruncationKeepsWholeRecords(impl: Impl, d: seq<byte>, cut: nat)
    requires WellFormed(impl, d) && Header(d).end <= cut <= |d|
    ensures var kept := AllAnswers(impl, d, WholeRecords(d, cut));
            && ParseMessage(impl, d[..cut]) == Accept(ParseMessage(impl, d).msg.(answers := kept))
            && kept <= ParseMessage(impl, d).msg.answers
  {
    UpToIsFine(impl, d, Body(d, Header(d).end), cut);
    TruncationKeepsAllIffNoneLost(impl, d, cut);
  }

  lemma HeaderCut(impl: Impl, d: seq<byte>, cut: nat)
    requires Framed(impl, d) && Header(d).end <= cut <= |d|
    ensures cut >= HEADER && Header(d[..cut]) == Header(d)
    ensures var c := d[..cut]; Be16(c, 0) == Be16(d, 0) && Be16(c, 2) == Be16(d, 2) && Be16(c, 6) == Be16(d, 6)
  {
    QuestionsGrow(d, HEADER, Be16(d, 4));
    ContainedLater(d, HEADER, Be16(d, 4), Header(d).end, cut);
    QuestionsCut(d, cut, HEADER, Be16(d, 4));
  }

  // ---- Names written within bounds are contained ----

  // Every part of the name ends by `end`.
  ghost predicate WrittenBy(d: seq<byte>, off: nat, c: Coding, end: nat)
    decreases c
  {
    && Written(d, off, c) && End(off, c) <= end
    && (c.Compressed? ==> WrittenBy(d, c.target, c.rest, end))
  }

  lemma {:induction false} ReachLabels(d: seq<byte>, off: nat, ls: seq<Label>, mid: nat, n: nat, t: nat, end: nat)
    requires ValidLabels(ls) && Stands(d, off, EncodeLabels(ls))
    requires mid == off + |EncodeLabels(ls)| && t == |ls| + n && mid <= end
    requires Reach(d, mid, n) <= end
    ensures Reach(d, off, t) <= end
    decreases |ls|
  {
    hide Reach, Stands;
    if ls != [] {
      var next := off + 1 + |ls[0]|;
      FirstLabel(d, off, ls);
      ReachLabels(d, next, ls[1..], mid, n, t - 1, end);
      ReachLabel(d, off, next, t, end);
    }
  }

  lemma ReachLabel(d: seq<byte>, off: nat, next: nat, t: nat, end: nat)
    requires t > 0 && off < next <= |d| && next <= end && 0 < d[off] < 0x40 && d[off] as nat == next - off - 1
    requires Reach(d, next, t - 1) <= end
    ensures Reach(d, off, t) <= end
  {
    assert Next(d, off) == next;
  }

  lemma ReachTail(d: seq<byte>, tail: nat, c: Coding, n: nat, end: nat)
    requires c.Compressed? ==> c.target < 0x4000 && Reach(d, c.target, n) <= end
    requires Stands(d, tail, EncodeTail(c)) && tail + |EncodeTail(c)| <= end
    ensures Reach(d, tail, if c.Plain? then 1 else n + 1) <= end
  {
    StandsAt(d, tail, EncodeTail(c), 0);
    if c.Compressed? {
      StandsAt(d, tail, EncodeTail(c), 1);
      assert Target(d, tail) == c.target;
    }
  }

  lemma {:induction false} ReachWritten(d: seq<byte>, off: nat, c: Coding, end: nat)
    requires WrittenBy(d, off, c, end)
    ensures Reach(d, off, Turns(c)) <= end
    decreases c
  {
    var tail, n := off + |EncodeLabels(c.head)|, if c.Plain? then 0 else Turns(c.rest);
    StandsAppend(d, off, EncodeLabels(c.head), EncodeTail(c));
    if c.Compressed? {
      ReachWritten(d, c.target, c.rest, end);
    }
    ReachTail(d, tail, c, n, end);
    ReachLabels(d, off, c.head, tail, if c.Plain? then 1 else n + 1, Turns(c), end);
  }

  lemma {:induction false} ReachStable(d: seq<byte>, off: nat, n: nat, m: nat)
    requires !Walk(d, off, n).Endless? && !Walk(d, off, m).Endless?
    ensures Reach(d, off, n) == Reach(d, off, m)
    decreases n
  {
    if Next(d, off) >= 0 {
      ReachStable(d, Next(d, off), n - 1, m - 1);
    }
  }

  // So a name whose every part ends by some place reaches no further.
  lemma WrittenNamesContained(d: seq<byte>, off: nat, c: Coding, end: nat)
    requires WrittenBy(d, off, c, end)
    ensures NameContained(d, off, end)
  {
    WalkWritten(d, off, c);
    ReadInvertsWriting(d, off, c);
    ReachWritten(d, off, c, end);
    ReachStable(d, off, Turns(c), |d| + 1);
  }

  // ---- Laid-out messages ----

  // Every part of a question's name ends by the end of the section, and every
  // part of a record's names by the end of the record.
  ghost predicate QuestionsWithin(d: seq<byte>, off: nat, qs: seq<QSpec>, end: nat)
    decreases |qs|
  {
    qs != [] ==>
      WrittenBy(d, off, qs[0].name, end) && QuestionsWithin(d, End(off, qs[0].name) + 4, qs[1..], end)
  }

  ghost predicate RecordWithin(d: seq<byte>, off: nat, r: RSpec)
    requires ValidLabels(r.owner.head)
  {
    var start := DataStart(off, r);
    && WrittenBy(d, off, r.owner, start + r.len)
    && (r.data.Naming? ==> WrittenBy(d, start + FixedFields(r.rtype), r.data.name, start + r.len))
  }

  ghost predicate RecordsWithin(d: seq<byte>, off: nat, rs: seq<RSpec>)
    requires RecordsLaid(d, off, rs)
    decreases |rs|
  {
    rs != [] ==>
      RecordWithin(d, off, rs[0]) && RecordsWithin(d, DataStart(off, rs[0]) + rs[0].len, rs[1..])
  }

  lemma {:induction false} QuestionsLaidContained(d: seq<byte>, off: nat, qs: seq<QSpec>, n: nat, mid: nat, end: nat)
    requires QuestionsLaid(d, off, qs, mid) && n == |qs| && QuestionsWithin(d, off, qs, end)
    ensures QuestionsContained(d, off, n, end)
    decreases n
  {
    hide WrittenBy, Written, NameReach, Stands, ReadName, End;
    if n > 0 {
      WithinReads(d, off, qs[0].name, end);
      QuestionsLaidContained(d, End(off, qs[0].name) + 4, qs[1..], n - 1, mid, end);
    }
  }

  lemma WithinReads(d: seq<byte>, off: nat, c: Coding, end: nat)
    requires WrittenBy(d, off, c, end)
    ensures ValidLabels(c.head) && NameReach(d, off) <= end
    ensures ReadName(d, off).Name? && ReadName(d, off).end == End(off, c)
  {
    ReadInvertsWriting(d, off, c);
    WrittenNamesContained(d, off, c, end);
  }

  lemma RecordLaidContained(d: seq<byte>, off: nat, r: RSpec)
    requires RecordLaid(d, off, r) && RecordWithin(d, off, r)
    ensures NameContained(d, off, DataStart(off, r) + r.len)
    ensures DataReach(C, d, Record(r.rtype, DataStart(off, r), r.len)) <= DataStart(off, r) + r.len
  {
    var start := DataStart(off, r);
    hide NameContained, DataReach, WrittenBy, Written, Stands, DataLaid, End;
    DataLaidContained(d, start, r);
    WrittenNamesContained(d, off, r.owner, start + r.len);
  }

  lemma DataLaidContained(d: seq<byte>, start: nat, r: RSpec)
    requires DataLaid(d, start, r)
    requires r.data.Naming? ==> WrittenBy(d, start + FixedFields(r.rtype), r.data.name, start + r.len)
    ensures DataReach(C, d, Record(r.rtype, start, r.len)) <= start + r.len
  {
    hide NameReach, ReadName, WrittenBy, Written, Stands, End, EncodeTxt;
    if r.data.Naming? {
      WrittenNamesContained(d, start + FixedFields(r.rtype), r.data.name, start + r.len);
    }
  }

  lemma {:induction false} RecordsLaidContained(d: seq<byte>, off: nat, rs: seq<RSpec>, n: nat)
    requires RecordsLaid(d, off, rs) && n == |rs| && RecordsWithin(d, off, rs)
    ensures RecordsContained(d, off, n) && AllContained(C, d, ScanRecords(d, off, n))
    decreases n
  {
    hide RecordLaid, RecordWithin, NameContained, DataReach, RecordFrom, DataStart;
    if n > 0 {
      LaidRecordReads(d, off, rs[0]);
      RecordLaidContained(d, off, rs[0]);
      RecordsLaidContained(d, DataStart(off, rs[0]) + rs[0].len, rs[1..], n - 1);
    }
  }

  // A laid-out message whose names stay within is well formed for C.
  lemma LaidIsWellFormed(d: seq<byte>, id: nat, flags: nat, qs: seq<QSpec>, mid: nat, rs: seq<RSpec>)
    requires Laid(d, id, flags, qs, mid, rs)
    requires QuestionsWithin(d, HEADER, qs, mid) && RecordsWithin(d, mid, rs)
    ensures WellFormed(C, d) && Header(d).end == mid
  {
    MessageReadsBack(C, d, id, flags, qs, mid, rs);
    QuestionsReadBack(d, HEADER, qs, |qs|, mid);
    QuestionsLaidContained(d, HEADER, qs, |qs|, mid, mid);
    RecordsLaidContained(d, mid, rs, |rs|);
  }

  // How many records end by the cut, before one does not.
  ghost function WholeBy(d: seq<byte>, off: nat, rs: seq<RSpec>, cut: nat): (k: nat)
    requires RecordsLaid(d, off, rs)
    ensures k <= |rs|
    decreases |rs|
  {
    if rs == [] then 0
    else
      var next := DataStart(off, rs[0]) + rs[0].len;
      if next <= cut then 1 + WholeBy(d, next, rs[1..], cut) else 0
  }

  lemma {:induction false} KeptAreExpected(d: seq<byte>, off: nat, rs: seq<RSpec>, n: nat, cut: nat)
    requires RecordsLaid(d, off, rs) && n == |rs|
    ensures AllAnswers(C, d, UpTo(ScanRecords(d, off, n), cut)) == ExpectedAll(rs[..WholeBy(d, off, rs, cut)])
    decreases n
  {
    hide RecordLaid, RecordFrom, RecordAnswers, Expected, DataStart;
    if n > 0 {
      var r := rs[0];
      LaidRecordReads(d, off, r);
      var next := DataStart(off, r) + r.len;
      KeptAreExpected(d, next, rs[1..], n - 1, cut);
      if next <= cut {
        var k := WholeBy(d, next, rs[1..], cut);
        assert rs[..k + 1][0] == r && rs[..k + 1][1..] == rs[1..][..k];
      }
    }
  }

  // Cutting it anywhere after its questions leaves C its first whole records,
  // exactly as they were laid out.
  lemma LaidAndCut(d: seq<byte>, id: nat, flags: nat, qs: seq<QSpec>, mid: nat, rs: seq<RSpec>, cut: nat)
    requires Laid(d, id, flags, qs, mid, rs) && mid <= cut <= |d|
    requires QuestionsWithin(d, HEADER, qs, mid) && RecordsWithin(d, mid, rs)
    ensures ParseMessage(C, d[..cut]) == Accept(ExpectedMsg(id, flags, qs, rs[..WholeBy(d, mid, rs, cut)]))
  {
    LaidIsWellFormed(d, id, flags, qs, mid, rs);
    MessageReadsBack(C, d, id, flags, qs, mid, rs);
    TruncationKeepsWholeRecords(C, d, cut);
    KeptAreExpected(d, mid, rs, |rs|, cut);
  }

  // ---- What a cut does to Go ----

  // An answer of type 5 with time to live 20, an answer of type 1, and a byte.
  const RUNS_ON: seq<byte> :=
    [0, 1, 0x80, 0, 0, 0, 0, 2, 0, 0, 0, 0,
     0, 0, 5, 0, 1, 0, 0, 0, 20, 0, 3, 1, 98, 0,
     0, 0, 1, 0, 1, 0, 0, 0, 0, 0, 4, 1, 2, 3, 4,
     0]

  ghost predicate RunsOn(d: seq<byte>) {
    && |d| == 42 && Be16(d, 0) == 1 && Be16(d, 2) == 0x8000 && Be16(d, 4) == 0 && Be16(d, 6) == 2
    && Be16(d, 13) == 5 && Be16(d, 21) == 3 && Be16(d, 27) == 1 && Be16(d, 35) == 4
    && d[12] == 0 && d[26] == 0 && d[20] == 20 && d[41] == 0 && d[37..41] == [1, 2, 3, 4]
  }

  lemma RunsOnIsSo()
    ensures RunsOn(RUNS_ON)
  {
    var d := RUNS_ON;
    assert |d| == 42 && d[0] == 0 && d[1] == 1 && d[2] == 0x80 && d[3] == 0 && d[4] == 0 && d[5] == 0 && d[6] == 0 && d[7] == 2;
    assert d[12] == 0 && d[13] == 0 && d[14] == 5 && d[20] == 20 && d[21] == 0 && d[22] == 3;
    assert d[26] == 0 && d[27] == 0 && d[28] == 1 && d[35] == 0 && d[36] == 4;
    assert d[37..41] == [1, 2, 3, 4] && d[41] == 0;
  }

  lemma SectionsOfRunsOn(d: seq<byte>)
    requires RunsOn(d)
    ensures Header(d) == Questions([], 12)
    ensures Body(d, 12) == More(Record(5, 23, 3), More(Record(1, 37, 4), Done))
    ensures RecordsContained(d, 12, 2)
  {
    ReadRoot(d, 12);
    ReadRoot(d, 26);
    RootReach(d, 12);
    RootReach(d, 26);
    hide ReadName, NameReach, Be16;
    assert RecordFrom(d, 12) == Take(Record(5, 23, 3)) && RecordFrom(d, 26) == Take(Record(1, 37, 4));
    hide RecordFrom;
    assert ScanRecords(d, 41, 0) == Done && RecordsContained(d, 41, 0);
    assert ScanRecords(d, 26, 1) == More(Record(1, 37, 4), Done) && RecordsContained(d, 26, 1);
  }

  lemma RootReach(d: seq<byte>, off: nat)
    requires off < |d| && d[off] == 0
    ensures NameReach(d, off) == off + 1
  {
  }

  lemma LabelReach(d: seq<byte>, off: nat, next: nat)
    requires off < next < |d| && 0 < d[off] < 0x40 && d[off] as nat == next - off - 1 && d[next] == 0
    ensures NameReach(d, off) == next + 1
  {
    assert Next(d, off) == next;
    assert Reach(d, next, |d|) == next + 1;
  }

  lemma AnswersOfRunsOn(d: seq<byte>)
    requires RunsOn(d)
    ensures RecordAnswers(Go, d, Record(5, 23, 3)) == [CName(d[21..41])]
    ensures RecordAnswers(Go, d, Record(1, 37, 4)) == [A([1, 2, 3, 4])]
    ensures DataReach(Go, d, Record(5, 23, 3)) == 42 && DataReach(Go, d, Record(1, 37, 4)) == 0
    ensures !RecordHangs(Go, d, Record(5, 23, 3)) && !RecordPanics(Go, Record(5, 23, 3))
    ensures !RecordHangs(Go, d, Record(1, 37, 4)) && !RecordPanics(Go, Record(1, 37, 4))
  {
    LabelReach(d, 20, 41);
    ReadRoot(d, 41);
    ReadLabel(d, 20, 41, d[21..41]);
    hide ReadName, NameReach, Be16;
    assert NameAt(Go, Record(5, 23, 3)) == 20;
  }

  lemma WalkOfRunsOn(d: seq<byte>, scan: Scan)
    requires RunsOn(d) && scan == More(Record(5, 23, 3), More(Record(1, 37, 4), Done))
    ensures FateOf(Go, d, scan).Fine? && UpTo(scan, 41) == scan
    ensures AllAnswers(Go, d, scan) == [CName(d[21..41]), A([1, 2, 3, 4])]
    ensures AllLeft(Go, d, scan, 41) == [A([1, 2, 3, 4])]
  {
    var last := More(Record(1, 37, 4), Done);
    AnswersOfRunsOn(d);
    hide ReadName, RecordAnswers, DataReach, RecordHangs, RecordPanics, Be16;
    assert FateOf(Go, d, Done) == Fine && FateOf(Go, d, last) == Fine;
    assert AllAnswers(Go, d, Done) == [] && AllAnswers(Go, d, last) == [A([1, 2, 3, 4])];
    assert UpTo(Done, 41) == Done && UpTo(last, 41) == last;
    assert AllLeft(Go, d, Done, 41) == [] && AllLeft(Go, d, last, 41) == [A([1, 2, 3, 4])];
  }

  // On a message whose frame is sound, the loss of its last byte takes Go's
  // first answer and leaves the second: what is left is not a prefix.
  lemma CutLosesFirstAnswerInGo()
    ensures var d, cut := RUNS_ON, |RUNS_ON| - 1;
            && Framed(Go, d) && WholeRecords(d, cut) == Body(d, Header(d).end)
            && ParseMessage(Go, d) == Accept(Msg(1, 0x8000, [], 0, [CName(d[21..41]), A([1, 2, 3, 4])]))
            && ParseMessage(Go, d[..cut]) == Accept(Msg(1, 0x8000, [], 0, [A([1, 2, 3, 4])]))
  {
    RunsOnIsSo();
    CutRunsOn(RUNS_ON);
  }

  lemma CutRunsOn(d: seq<byte>)
    requires RunsOn(d)
    ensures Framed(Go, d) && WholeRecords(d, 41) == Body(d, Header(d).end)
    ensures ParseMessage(Go, d) == Accept(Msg(1, 0x8000, [], 0, [CName(d[21..41]), A([1, 2, 3, 4])]))
    ensures ParseMessage(Go, d[..41]) == Accept(Msg(1, 0x8000, [], 0, [A([1, 2, 3, 4])]))
  {
    SectionsOfRunsOn(d);
    WalkOfRunsOn(d, Body(d, 12));
    hide Be16, Header, Body, FateOf, AllAnswers, AllLeft, UpTo, RecordsContained;
    assert QuestionsContained(d, 12, 0, 12);
    assert ParseMessage(Go, d) == Accept(Msg(1, 0x8000, [], 0, [CName(d[21..41]), A([1, 2, 3, 4])]));
    TruncatedAnswers(Go, d, 41);
  }
}
