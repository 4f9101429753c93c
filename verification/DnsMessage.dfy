// The message walk around the name reader (section 4.1 of RFC 1035): a fixed
// header, the question section, and as many whole answer records as there are.
//
// The two parsers differ in one place.  For the name in a record's data C reads
// at the start of the data, Go as many bytes in front of it as the data is
// long; there Go can also leave the message at its front, which panics.
module DnsMessage {
  import opened Bytes
  import opened Collections
  import opened DnsName

  // Answer values with addresses kept as raw bytes.
  datatype Answer =
    | A(addr: seq<byte>)
    | AAAA(addr: seq<byte>)
    | CName(name: seq<byte>)
    | MX(name: seq<byte>)
    | Txt(text: seq<byte>)
    | Srv(name: seq<byte>)
    | Ptr(name: seq<byte>)
    | Ns(name: seq<byte>)

  datatype Msg = Msg(id: nat, flags: nat, question: seq<byte>, qtype: nat, answers: seq<Answer>)

  // Which of the two parsers.
  datatype Impl = Go | C

  // Hang: some name the walk reads has no end.  Panic: an index below zero.
  datatype Parse = Reject | Hang | Panic | Accept(msg: Msg)

  // ---- Questions ----

  datatype Question = Question(name: seq<byte>, qtype: nat)

  datatype Questions = BadQuestion | HungQuestion | Questions(list: seq<Question>, end: nat)

  function ReadQuestions(d: seq<byte>, off: nat, n: nat): Questions
    decreases n
  {
    if n == 0 then Questions([], off)
    else
      match ReadName(d, off)
      case Malformed => BadQuestion
      case Endless => HungQuestion
      case Name(labels, e) =>
        if e + 4 > |d| then BadQuestion
        else
          PrependQ([Question(Join(labels), Be16(d, e))], ReadQuestions(d, e + 4, n - 1))
  }

  // ---- Records ----

  // A whole record: its type and where its data stands.
  datatype Record = Record(rtype: nat, start: nat, len: nat)

  // The whole records from off on; a scan that meets a name without an end
  // gets stuck.
  datatype Scan = Done | Hung | More(r: Record, rest: Scan)

  datatype Step = Stop | Stuck | Take(r: Record)

  // The record at off, if a whole one stands there.
  function RecordFrom(d: seq<byte>, off: nat): Step {
    match ReadName(d, off)
    case Malformed => Stop
    case Endless => Stuck
    case Name(_, e) =>
      if e + 10 > |d| then Stop
      else
        var r := Record(Be16(d, e), e + 10, Be16(d, e + 8));
        if r.start + r.len > |d| then Stop else Take(r)
  }

  function ScanRecords(d: seq<byte>, off: nat, n: nat): Scan
    decreases n
  {
    if n == 0 then Done
    else
      match RecordFrom(d, off)
      case Stop => Done
      case Stuck => Hung
      case Take(r) => More(r, ScanRecords(d, r.start + r.len, n - 1))
  }

  predicate HasName(r: Record) {
    r.rtype == 5 || r.rtype == 12 || r.rtype == 2 || (r.rtype == 15 && r.len > 2) || (r.rtype == 33 && r.len > 6)
  }

  // Bytes before the name in the data of a type.
  function Skip(rtype: nat): nat {
    if rtype == 15 then 2 else if rtype == 33 then 6 else 0
  }

  // Where the name of a record is read.
  function NameAt(impl: Impl, r: Record): int {
    r.start + Skip(r.rtype) - if impl.Go? then r.len else 0
  }

  predicate RecordPanics(impl: Impl, r: Record) {
    HasName(r) && NameAt(impl, r) < 0
  }

  predicate RecordHangs(impl: Impl, d: seq<byte>, r: Record) {
    HasName(r) && NameAt(impl, r) >= 0 && ReadName(d, NameAt(impl, r)).Endless?
  }

  function Named(rtype: nat, name: seq<byte>): Answer {
    if rtype == 5 then CName(name)
    else if rtype == 15 then MX(name)
    else if rtype == 33 then Srv(name)
    else if rtype == 12 then Ptr(name)
    else Ns(name)
  }

  // The answers one record contributes.
  function RecordAnswers(impl: Impl, d: seq<byte>, r: Record): seq<Answer> {
    if r.start + r.len > |d| then []
    else if r.rtype == 1 then if r.len == 4 then [A(Rdata(d, r))] else []
    else if r.rtype == 28 then if r.len == 16 then [AAAA(Rdata(d, r))] else []
    else if r.rtype == 16 then Texts(ParseTxt(Rdata(d, r)))
    else if HasName(r) && NameAt(impl, r) >= 0 then
      match ReadName(d, NameAt(impl, r))
      case Name(labels, _) => [Named(r.rtype, Join(labels))]
      case _ => []
    else []
  }

  function Rdata(d: seq<byte>, r: Record): seq<byte>
    requires r.start + r.len <= |d|
  {
    d[r.start..r.start + r.len]
  }

  function Texts(ss: seq<seq<byte>>): seq<Answer> {
    if ss == [] then [] else Texts(ss[..|ss| - 1]) + [Txt(ss[|ss| - 1])]
  }

  // Length-prefixed strings, up to the first that is cut short.
  function ParseTxt(data: seq<byte>): seq<seq<byte>> {
    if data == [] then []
    else
      var l := data[0] as nat;
      if l > |data| - 1 then [] else [data[1..1 + l]] + ParseTxt(data[1 + l..])
  }

  function AllAnswers(impl: Impl, d: seq<byte>, scan: Scan): seq<Answer> {
    if scan.More? then RecordAnswers(impl, d, scan.r) + AllAnswers(impl, d, scan.rest) else []
  }

  // What becomes of a walk over the records.
  datatype Fate = Fine | Hangs | Panics

  function FateOf(impl: Impl, d: seq<byte>, scan: Scan): Fate {
    match scan
    case Done => Fine
    case Hung => Hangs
    case More(r, rest) =>
      if RecordPanics(impl, r) then Panics
      else if RecordHangs(impl, d, r) then Hangs
      else FateOf(impl, d, rest)
  }

  lemma NotBoth(impl: Impl, d: seq<byte>, r: Record)
    ensures RecordPanics(impl, r) ==> !RecordHangs(impl, d, r)
  {
  }

  // ---- The whole message ----

  const HEADER := 12

  function Header(d: seq<byte>): Questions
    requires |d| >= HEADER
  {
    ReadQuestions(d, HEADER, Be16(d, 4))
  }

  function Body(d: seq<byte>, end: nat): Scan
    requires |d| >= HEADER
  {
    ScanRecords(d, end, Be16(d, 6))
  }

  function ParseMessage(impl: Impl, d: seq<byte>): Parse {
    if |d| < HEADER then Reject
    else
      match Header(d)
      case BadQuestion => Reject
      case HungQuestion => Hang
      case Questions(list, end) =>
        var scan := Body(d, end);
        match FateOf(impl, d, scan)
        case Hangs => Hang
        case Panics => Panic
        case Fine =>
          Accept(Msg(Be16(d, 0), Be16(d, 2),
                     if list == [] then [] else list[0].name,
                     if list == [] then 0 else list[0].qtype,
                     AllAnswers(impl, d, scan)))
  }

  // ---- When the walk hangs ----

  // Where the walk reads names: in the questions, as far as it gets,
  function QuestionNames(d: seq<byte>, off: nat, n: nat): seq<nat>
    decreases n
  {
    if n == 0 then []
    else
      var nr := ReadName(d, off);
      [off] + if nr.Name? && nr.end + 4 <= |d| then QuestionNames(d, nr.end + 4, n - 1) else []
  }

  // and in front of each record and for the data of some.
  function RecordNames(impl: Impl, d: seq<byte>, off: nat, n: nat): seq<nat>
    decreases n
  {
    if n == 0 then []
    else
      var step := RecordFrom(d, off);
      [off] +
      if step.Take? && !RecordPanics(impl, step.r)
      then DataName(impl, step.r) + RecordNames(impl, d, step.r.start + step.r.len, n - 1)
      else []
  }

  function DataName(impl: Impl, r: Record): seq<nat> {
    if HasName(r) && NameAt(impl, r) >= 0 then [NameAt(impl, r)] else []
  }

  function NamesRead(impl: Impl, d: seq<byte>): seq<nat> {
    if |d| < HEADER then []
    else
      var qs := Header(d);
      QuestionNames(d, HEADER, Be16(d, 4)) + if qs.Questions? then RecordNames(impl, d, qs.end, Be16(d, 6)) else []
  }

  ghost predicate SomeCycles(d: seq<byte>, offs: seq<nat>) {
    exists o :: o in offs && Cycles(d, o)
  }

  lemma CyclesAppend(d: seq<byte>, a: seq<nat>, b: seq<nat>)
    ensures SomeCycles(d, a + b) <==> SomeCycles(d, a) || SomeCycles(d, b)
  {
    if SomeCycles(d, a) {
      var o :| o in a && Cycles(d, o);
      assert o in a + b;
    }
    if SomeCycles(d, b) {
      var o :| o in b && Cycles(d, o);
      assert o in a + b;
    }
  }

  lemma OneCycles(d: seq<byte>, off: nat)
    ensures SomeCycles(d, [off]) <==> ReadName(d, off).Endless?
  {
    EndlessIffCycles(d, off);
    assert off in [off];
  }

  lemma {:induction false} QuestionsHang(d: seq<byte>, off: nat, n: nat)
    ensures ReadQuestions(d, off, n).HungQuestion? <==> SomeCycles(d, QuestionNames(d, off, n))
    decreases n
  {
    hide SomeCycles, ReadName;
    if n == 0 {
      NoneCycles(d);
    } else {
      var nr := ReadName(d, off);
      OneCycles(d, off);
      if nr.Name? && nr.end + 4 <= |d| {
        QuestionsHang(d, nr.end + 4, n - 1);
        CyclesAppend(d, [off], QuestionNames(d, nr.end + 4, n - 1));
      } else {
        NothingBefore([off]);
      }
    }
  }

  lemma NoneCycles(d: seq<byte>)
    ensures !SomeCycles(d, [])
  {
  }

  lemma {:induction false} RecordsHang(impl: Impl, d: seq<byte>, off: nat, n: nat)
    ensures FateOf(impl, d, ScanRecords(d, off, n)).Hangs? <==> SomeCycles(d, RecordNames(impl, d, off, n))
    decreases n
  {
    hide SomeCycles, ReadName;
    if n == 0 {
      NoneCycles(d);
    } else {
      var step := RecordFrom(d, off);
      OneCycles(d, off);
      if step.Take? && !RecordPanics(impl, step.r) {
        var r := step.r;
        var rest := RecordNames(impl, d, r.start + r.len, n - 1);
        RecordsHang(impl, d, r.start + r.len, n - 1);
        NoneCycles(d);
        if HasName(r) {
          OneCycles(d, NameAt(impl, r));
        }
        CyclesAppend(d, DataName(impl, r), rest);
        CyclesAppend(d, [off], DataName(impl, r) + rest);
      } else {
        NothingBefore([off]);
      }
    }
  }

  // The parser runs for ever if and only if some name it comes to read cycles.
  lemma HangsIffSomeNameCycles(impl: Impl, d: seq<byte>)
    ensures ParseMessage(impl, d).Hang? <==> SomeCycles(d, NamesRead(impl, d))
  {
    hide SomeCycles;
    NoneCycles(d);
    if |d| >= HEADER {
      QuestionsHang(d, HEADER, Be16(d, 4));
      if Header(d).Questions? {
        RecordsHang(impl, d, Header(d).end, Be16(d, 6));
        CyclesAppend(d, QuestionNames(d, HEADER, Be16(d, 4)), RecordNames(impl, d, Header(d).end, Be16(d, 6)));
      } else {
        NothingBefore(QuestionNames(d, HEADER, Be16(d, 4)));
      }
    }
  }

  // One question whose name is a pointer to itself.
  const SELF_QUESTION: seq<byte> := [0, 0, 0, 0, 0, 1, 0, 0, 0, 0, 0, 0, 0xC0, 12]

  lemma SelfQuestionHangs(impl: Impl)
    ensures ParseMessage(impl, SELF_QUESTION) == Hang
  {
    var d := SELF_QUESTION;
    assert Next(d, HEADER) == HEADER;
    assert Trail(d, HEADER, 0) == HEADER && Trail(d, HEADER, 1) == HEADER;
    EndlessIffCycles(d, HEADER);
    assert Be16(d, 4) == 1;
  }

  // ---- When Go panics ----

  // The records whose data the walk looks at.
  function Reached(impl: Impl, d: seq<byte>, scan: Scan): seq<Record> {
    if scan.More? then
      [scan.r] + if RecordPanics(impl, scan.r) || RecordHangs(impl, d, scan.r) then [] else Reached(impl, d, scan.rest)
    else []
  }

  // A name record whose data is longer than what stands in front of its name.
  predicate Overlong(r: Record) {
    HasName(r) && r.len > r.start + Skip(r.rtype)
  }

  lemma {:induction false} PanicsIffReached(d: seq<byte>, scan: Scan)
    ensures FateOf(Go, d, scan).Panics? <==> exists r :: r in Reached(Go, d, scan) && Overlong(r)
  {
    if scan.More? {
      assert RecordPanics(Go, scan.r) <==> Overlong(scan.r);
      hide RecordPanics, Overlong, RecordHangs;
      PanicsIffReached(d, scan.rest);
      assert scan.r in Reached(Go, d, scan);
      NotBoth(Go, d, scan.r);
      forall r | r in Reached(Go, d, scan.rest)
        ensures RecordPanics(Go, scan.r) || RecordHangs(Go, d, scan.r) || r in Reached(Go, d, scan)
      {
      }
    }
  }

  // Go panics if and only if the walk reaches an overlong name record.
  lemma PanicsIffOverlong(d: seq<byte>)
    ensures ParseMessage(Go, d).Panic? <==>
            |d| >= HEADER && Header(d).Questions? &&
            exists r :: r in Reached(Go, d, Body(d, Header(d).end)) && Overlong(r)
  {
    if |d| >= HEADER && Header(d).Questions? {
      PanicsIffReached(d, Body(d, Header(d).end));
    }
  }

  lemma {:induction false} CStaysFine(d: seq<byte>, scan: Scan)
    ensures !FateOf(C, d, scan).Panics?
  {
    if scan.More? {
      CStaysFine(d, scan.rest);
    }
  }

  // C never does.
  lemma CNeverPanics(d: seq<byte>)
    ensures !ParseMessage(C, d).Panic?
  {
    if |d| >= HEADER && Header(d).Questions? {
      CStaysFine(d, Body(d, Header(d).end));
    }
  }

  // ---- When the two parsers agree ----

  // The text of the name that stands at off, if one does.
  datatype Text = NoText | Text(s: seq<byte>)

  function TextAt(d: seq<byte>, off: int): Text {
    if off < 0 then NoText
    else
      match ReadName(d, off)
      case Name(labels, _) => Text(Join(labels))
      case _ => NoText
  }

  // A name with this text is written at off.
  ghost predicate Spells(d: seq<byte>, off: int, s: seq<byte>) {
    off >= 0 && exists c :: Written(d, off, c) && Join(Labels(c)) == s
  }

  lemma TextIsSpelled(d: seq<byte>, off: int, s: seq<byte>)
    ensures TextAt(d, off) == Text(s) <==> Spells(d, off, s)
  {
    if off >= 0 {
      if TextAt(d, off) == Text(s) {
        var c := AcceptedIsWritten(d, off, |d| + 1);
        assert Written(d, off, c) && Join(Labels(c)) == s;
      }
      if c :| Written(d, off, c) && Join(Labels(c)) == s {
        ReadInvertsWriting(d, off, c);
      }
    }
  }

  // The same names, if any, are written at both places.
  ghost predicate SpellAlike(d: seq<byte>, a: int, b: int) {
    forall s :: Spells(d, a, s) <==> Spells(d, b, s)
  }

  lemma TextsAlike(d: seq<byte>, a: int, b: int)
    ensures TextAt(d, a) == TextAt(d, b) <==> SpellAlike(d, a, b)
  {
    forall s
      ensures TextAt(d, a) == Text(s) <==> Spells(d, a, s)
      ensures TextAt(d, b) == Text(s) <==> Spells(d, b, s)
    {
      TextIsSpelled(d, a, s);
      TextIsSpelled(d, b, s);
    }
    hide Spells, TextAt;
    if SpellAlike(d, a, b) && TextAt(d, a).Text? {
      assert Spells(d, a, TextAt(d, a).s);
    }
    if SpellAlike(d, a, b) && TextAt(d, b).Text? {
      assert Spells(d, b, TextAt(d, b).s);
    }
  }

  lemma NamedDiffers(rtype: nat, a: seq<byte>, b: seq<byte>)
    ensures Named(rtype, a) == Named(rtype, b) <==> a == b
  {
  }

  lemma NameAnswers(impl: Impl, d: seq<byte>, r: Record)
    requires r.start + r.len <= |d| && HasName(r)
    ensures RecordAnswers(impl, d, r) ==
            if TextAt(d, NameAt(impl, r)).Text? then [Named(r.rtype, TextAt(d, NameAt(impl, r)).s)] else []
  {
  }

  ghost predicate Alike(d: seq<byte>, r: Record) {
    HasName(r) ==> SpellAlike(d, NameAt(Go, r), NameAt(C, r))
  }

  // Go and C give the same answers for a record if and only if the same names
  // are written at the two places they read, or it holds no name.
  lemma RecordsReadAlike(d: seq<byte>, r: Record)
    requires r.start + r.len <= |d|
    ensures RecordAnswers(Go, d, r) == RecordAnswers(C, d, r) <==> Alike(d, r)
  {
    if HasName(r) {
      var a, b := TextAt(d, NameAt(Go, r)), TextAt(d, NameAt(C, r));
      NameAnswers(Go, d, r);
      NameAnswers(C, d, r);
      TextsAlike(d, NameAt(Go, r), NameAt(C, r));
      if a.Text? && b.Text? {
        NamedDiffers(r.rtype, a.s, b.s);
      }
      hide RecordAnswers, TextAt, SpellAlike, Named;
    }
  }

  ghost predicate AllAlike(d: seq<byte>, scan: Scan) {
    scan.More? ==> scan.r.start + scan.r.len <= |d| && Alike(d, scan.r) && AllAlike(d, scan.rest)
  }

  // The answers record by record.
  function ByRecord(impl: Impl, d: seq<byte>, scan: Scan): seq<seq<Answer>> {
    if scan.More? then [RecordAnswers(impl, d, scan.r)] + ByRecord(impl, d, scan.rest) else []
  }

  predicate Whole(d: seq<byte>, scan: Scan) {
    scan.More? ==> scan.r.start + scan.r.len <= |d| && Whole(d, scan.rest)
  }

  lemma {:induction false} ScanIsWhole(d: seq<byte>, off: nat, n: nat)
    ensures Whole(d, ScanRecords(d, off, n))
    decreases n
  {
    if n > 0 && RecordFrom(d, off).Take? {
      ScanIsWhole(d, RecordFrom(d, off).r.start + RecordFrom(d, off).r.len, n - 1);
    }
  }

  lemma {:induction false} ByRecordAlike(d: seq<byte>, scan: Scan)
    requires Whole(d, scan)
    ensures ByRecord(Go, d, scan) == ByRecord(C, d, scan) <==> AllAlike(d, scan)
    ensures AllAlike(d, scan) ==> AllAnswers(Go, d, scan) == AllAnswers(C, d, scan)
  {
    if scan.More? {
      RecordsReadAlike(d, scan.r);
      hide RecordAnswers, Alike;
      ByRecordAlike(d, scan.rest);
      var p, q := ByRecord(Go, d, scan), ByRecord(C, d, scan);
      assert p[0] == RecordAnswers(Go, d, scan.r) && q[0] == RecordAnswers(C, d, scan.r);
      assert p[1..] == ByRecord(Go, d, scan.rest) && q[1..] == ByRecord(C, d, scan.rest);
    }
  }

  // Of a message that neither gets stuck on, Go and C make the same, record by
  // record, if and only if all its records are alike.
  lemma MessagesReadAlike(d: seq<byte>)
    requires ParseMessage(Go, d).Accept? && ParseMessage(C, d).Accept?
    ensures var scan := Body(d, Header(d).end);
            && (ByRecord(Go, d, scan) == ByRecord(C, d, scan) <==> AllAlike(d, scan))
            && (AllAlike(d, scan) ==> ParseMessage(Go, d) == ParseMessage(C, d))
  {
    ScanIsWhole(d, Header(d).end, Be16(d, 6));
    ByRecordAlike(d, Body(d, Header(d).end));
  }

  // They reject the same messages.
  lemma RejectedAlike(d: seq<byte>)
    ensures ParseMessage(Go, d).Reject? <==> ParseMessage(C, d).Reject?
  {
  }

  // One question a, and its answer, the name b.
  const CNAME_B: seq<byte> :=
    [0, 1, 0x80, 0, 0, 1, 0, 1, 0, 0, 0, 0, 1, 97, 0, 0, 1, 0, 1, 0xC0, 12, 0, 5, 0, 1, 0, 0, 0, 60, 0, 3, 1, 98, 0]

  lemma NamesOfCnameB()
    ensures ReadName(CNAME_B, 12) == Name([[97]], 15) && ReadName(CNAME_B, 19) == Name([[97]], 21)
    ensures ReadName(CNAME_B, 31) == Name([[98]], 34) && ReadName(CNAME_B, 28) == Malformed
  {
    var d := CNAME_B;
    hide ReadName;
    ReadRoot(d, 14);
    ReadLabel(d, 12, 14, [97]);
    ReadPointer(d, 19, 12);
    ReadRoot(d, 33);
    ReadLabel(d, 31, 33, [98]);
    ReadShort(d, 28);
  }

  lemma SectionsOfCnameB()
    ensures Header(CNAME_B) == Questions([Question([97], 1)], 19)
    ensures Body(CNAME_B, 19) == More(Record(5, 31, 3), Done)
  {
    var d := CNAME_B;
    NamesOfCnameB();
    hide ReadName;
    assert Be16(d, 4) == 1 && Be16(d, 15) == 1 && Be16(d, 6) == 1;
    assert ReadQuestions(d, 19, 0) == Questions([], 19);
    assert RecordFrom(d, 19) == Take(Record(5, 31, 3));
    assert ScanRecords(d, 34, 0) == Done;
  }

  // A message whose one answer C reports and Go does not: three bytes in front
  // of it stands the low byte of its time to live, 60.
  lemma AnswerLostInGo()
    ensures ParseMessage(C, CNAME_B) == Accept(Msg(1, 0x8000, [97], 1, [CName([98])]))
    ensures ParseMessage(Go, CNAME_B) == Accept(Msg(1, 0x8000, [97], 1, []))
  {
    NamesOfCnameB();
    SectionsOfCnameB();
    hide ReadName, Header, Body;
    var d, r := CNAME_B, Record(5, 31, 3);
    assert Be16(d, 0) == 1 && Be16(d, 2) == 0x8000;
    assert RecordAnswers(C, d, r) == [CName([98])] && RecordAnswers(Go, d, r) == [];
    assert AllAnswers(C, d, Done) == [] && AllAnswers(Go, d, Done) == [];
  }

  // One answer of type 5 with more data than there is in front of it.
  const LONG_CNAME: seq<byte> :=
    [0, 0, 0x80, 0, 0, 0, 0, 1, 0, 0, 0, 0, 0, 0, 5, 0, 1, 0, 0, 0, 0, 0, 24] + seq(24, _ => 0)

  lemma RecordOfLongCname()
    ensures RecordFrom(LONG_CNAME, 12) == Take(Record(5, 23, 24)) && ReadName(LONG_CNAME, 23).Name?
  {
    var d := LONG_CNAME;
    hide ReadName;
    ReadRoot(d, 12);
    ReadRoot(d, 23);
    assert Be16(d, 13) == 5 && Be16(d, 21) == 24;
  }

  lemma SectionsOfLongCname()
    ensures Header(LONG_CNAME) == Questions([], 12) && Body(LONG_CNAME, 12) == More(Record(5, 23, 24), Done)
  {
    var d := LONG_CNAME;
    RecordOfLongCname();
    hide ReadName, RecordFrom;
    assert Be16(d, 4) == 0 && Be16(d, 6) == 1;
    assert ScanRecords(d, 47, 0) == Done;
  }

  lemma LongCnamePanics()
    ensures ParseMessage(Go, LONG_CNAME) == Panic
    ensures ParseMessage(C, LONG_CNAME).Accept?
  {
    var d, r := LONG_CNAME, Record(5, 23, 24);
    RecordOfLongCname();
    SectionsOfLongCname();
    hide ReadName, Header, Body, RecordFrom;
    assert NameAt(Go, r) == -1 && NameAt(C, r) == 23;
    assert RecordPanics(Go, r) && !RecordPanics(C, r) && !RecordHangs(C, d, r);
    assert FateOf(C, d, Done) == Fine;
  }

  // ---- The loops ----

  method ParseTXT(rdata: seq<byte>) returns (out: seq<seq<byte>>)
    ensures out == ParseTxt(rdata)
  {
    var data := rdata;
    out := [];
    while |data| > 0
      invariant ParseTxt(rdata) == out + ParseTxt(data)
      decreases |data|
    {
      ghost var was := data;
      var l := data[0] as nat;
      data := data[1..];
      if l > |data| {
        break;
      }
      assert data[..l] == was[1..1 + l] && data[l..] == was[1 + l..];
      Assoc(out, [data[..l]], ParseTxt(data[l..]));
      out := out + [data[..l]];
      data := data[l..];
    }
  }

  method ParseDNS(d: seq<byte>) returns (p: Parse)
    requires !ParseMessage(Go, d).Hang?
    ensures p == ParseMessage(Go, d)
  {
    if |d| < HEADER {
      return Reject;
    }
    var msg := Msg(Be16(d, 0), Be16(d, 2), [], 0, []);
    var qdcount, ancount := Be16(d, 4), Be16(d, 6);
    var ok, off;
    ok, msg, off := ParseQuestions(d, msg, qdcount);
    if !ok {
      return Reject;
    }
    var panicked, answers := ParseAnswers(d, off, ancount);
    if panicked {
      return Panic;
    }
    return Accept(msg.(answers := answers));
  }

  method ParseAnswers(d: seq<byte>, start: nat, ancount: nat) returns (panicked: bool, answers: seq<Answer>)
    requires !FateOf(Go, d, ScanRecords(d, start, ancount)).Hangs?
    ensures panicked <==> FateOf(Go, d, ScanRecords(d, start, ancount)).Panics?
    ensures !panicked ==> answers == AllAnswers(Go, d, ScanRecords(d, start, ancount))
  {
    hide RecordFrom, RecordAnswers, RecordHangs, RecordPanics;
    ghost var scan := ScanRecords(d, start, ancount);
    ghost var all, fate := AllAnswers(Go, d, scan), FateOf(Go, d, scan);
    var off: nat, left: nat := start, ancount;
    answers := [];
    while left > 0
      invariant scan == ScanRecords(d, off, left) && FateOf(Go, d, scan) == fate
      invariant all == answers + AllAnswers(Go, d, scan)
      decreases left
    {
      var next := ReadRecord(d, off);
      if next.Stop? {
        break;
      }
      var r := next.r;
      var more;
      NotBoth(Go, d, r);
      panicked, more := AddAnswers(d, r);
      if panicked {
        return;
      }
      Assoc(answers, more, AllAnswers(Go, d, scan.rest));
      scan := scan.rest;
      off := r.start + r.len;
      answers := answers + more;
      left := left - 1;
    }
    panicked := false;
  }

  method ReadRecord(d: seq<byte>, off: nat) returns (next: Step)
    requires !RecordFrom(d, off).Stuck?
    ensures next == RecordFrom(d, off)
    ensures next.Take? ==> next.r.start + next.r.len <= |d|
  {
    var owner := Read(d, off);
    if owner.Malformed? {
      return Stop;
    }
    var e := owner.end;
    if e + 10 > |d| {
      return Stop;
    }
    var rdlen := Be16(d, e + 8);
    if e + 10 + rdlen > |d| {
      return Stop;
    }
    return Take(Record(Be16(d, e), e + 10, rdlen));
  }

  method ParseQuestions(d: seq<byte>, start: Msg, qdcount: nat) returns (ok: bool, msg: Msg, off: nat)
    requires |d| >= HEADER && !ReadQuestions(d, HEADER, qdcount).HungQuestion?
    ensures ok <==> ReadQuestions(d, HEADER, qdcount).Questions?
    ensures ok ==> off == ReadQuestions(d, HEADER, qdcount).end
    ensures ok ==> msg == start.(question := FirstName(start, ReadQuestions(d, HEADER, qdcount).list),
                                 qtype := FirstType(start, ReadQuestions(d, HEADER, qdcount).list))
  {
    hide ReadName, Join;
    msg, off := start, HEADER;
    ghost var all := ReadQuestions(d, HEADER, qdcount);
    ghost var seen: seq<Question> := [];
    var i := 0;
    while i < qdcount
      invariant 0 <= i <= qdcount && |seen| == i
      invariant PrependQ(seen, ReadQuestions(d, off, qdcount - i)) == all
      invariant msg == start.(question := FirstName(start, seen), qtype := FirstType(start, seen))
    {
      var name := Read(d, off);
      if name.Malformed? {
        return false, msg, off;
      }
      if name.end + 4 > |d| {
        return false, msg, off;
      }
      var q := Question(Join(name.labels), Be16(d, name.end));
      PrependOne(seen, q, ReadQuestions(d, name.end + 4, qdcount - i - 1));
      off := name.end + 4;
      seen := seen + [q];
      if i == 0 {
        msg := msg.(question := q.name, qtype := q.qtype);
      }
      i := i + 1;
    }
    ok := true;
  }

  lemma PrependOne(seen: seq<Question>, q: Question, qs: Questions)
    ensures PrependQ(seen, PrependQ([q], qs)) == PrependQ(seen + [q], qs)
  {
    if qs.Questions? {
      Assoc(seen, [q], qs.list);
    }
  }

  function PrependQ(seen: seq<Question>, qs: Questions): Questions {
    if qs.Questions? then Questions(seen + qs.list, qs.end) else qs
  }

  function FirstName(m: Msg, list: seq<Question>): seq<byte> {
    if list == [] then m.question else list[0].name
  }

  function FirstType(m: Msg, list: seq<Question>): nat {
    if list == [] then m.qtype else list[0].qtype
  }

  method AddAnswers(d: seq<byte>, r: Record) returns (panicked: bool, answers: seq<Answer>)
    requires r.start + r.len <= |d| && !RecordHangs(Go, d, r)
    ensures panicked <==> RecordPanics(Go, r)
    ensures !panicked ==> answers == RecordAnswers(Go, d, r)
  {
    panicked, answers := false, [];
    var rdata := d[r.start..r.start + r.len];
    var rdataOff := r.start - r.len;
    if r.rtype == 1 {
      if r.len == 4 {
        answers := [A(rdata)];
      }
    } else if r.rtype == 28 {
      if r.len == 16 {
        answers := [AAAA(rdata)];
      }
    } else if r.rtype == 16 {
      var ss := ParseTXT(rdata);
      for i := 0 to |ss|
        invariant answers == Texts(ss[..i])
      {
        assert ss[..i + 1][..i] == ss[..i];
        answers := answers + [Txt(ss[i])];
      }
      assert ss[..|ss|] == ss;
    } else if r.rtype == 5 || r.rtype == 12 || r.rtype == 2 || (r.rtype == 15 && r.len > 2) || (r.rtype == 33 && r.len > 6) {
      var at := rdataOff + if r.rtype == 15 then 2 else if r.rtype == 33 then 6 else 0;
      if at < 0 {
        return true, answers;
      }
      var name := Read(d, at);
      if name.Name? {
        answers := [Named(r.rtype, Join(name.labels))];
      }
    }
  }

  // ---- TXT strings ----

  function EncodeTxt(ss: seq<seq<byte>>): seq<byte>
    requires forall s | s in ss :: |s| < 256
  {
    if ss == [] then [] else [|ss[0]| as byte] + ss[0] + EncodeTxt(ss[1..])
  }

  // TXT data reads back as the strings written.
  lemma {:induction false} TxtRoundTrip(ss: seq<seq<byte>>)
    requires forall s | s in ss :: |s| < 256
    ensures ParseTxt(EncodeTxt(ss)) == ss
  {
    if ss != [] {
      TxtRoundTrip(ss[1..]);
      var code, l := EncodeTxt(ss), |ss[0]|;
      assert code[1..1 + l] == ss[0];
      assert code[1 + l..] == EncodeTxt(ss[1..]);
    }
  }
}
