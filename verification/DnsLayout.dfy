// Messages as senders lay them out, and the proof that parsing reads back
// what was laid out.  Every name may be compressed against any earlier part
// of the message.
module DnsLayout {
  import opened Bytes
  import opened DnsName
  import opened DnsMessage

  datatype QSpec = QSpec(name: Coding, qtype: nat, qclass: nat)

  // Record data: plain bytes, a name behind some fixed fields, or strings.
  datatype Payload = Raw(bytes: seq<byte>) | Naming(name: Coding) | Strings(ss: seq<seq<byte>>)

  // classTtl: the six bytes of class and time to live.
  datatype RSpec = RSpec(owner: Coding, rtype: nat, classTtl: seq<byte>, len: nat, data: Payload)

  ghost predicate QuestionsLaid(d: seq<byte>, off: nat, qs: seq<QSpec>, end: nat)
    decreases |qs|
  {
    if qs == [] then end == off
    else
      var q := qs[0];
      && Written(d, off, q.name) && q.qtype < 0x10000 && q.qclass < 0x10000
      && Stands(d, End(off, q.name), PutBe16(q.qtype) + PutBe16(q.qclass))
      && QuestionsLaid(d, End(off, q.name) + 4, qs[1..], end)
  }

  // What stands in front of the name in the data: the preference of an MX
  // record, the priority, weight and port of an SRV record.
  function FixedFields(rtype: nat): nat {
    match rtype
    case 15 => 2
    case 33 => 6
    case _ => 0
  }

  predicate NamingType(t: nat) {
    t == 2 || t == 5 || t == 12 || t == 15 || t == 33
  }

  ghost predicate DataLaid(d: seq<byte>, start: nat, r: RSpec) {
    match r.data
    case Raw(bytes) => !NamingType(r.rtype) && r.rtype != 16 && r.len == |bytes| && Stands(d, start, bytes)
    case Naming(name) =>
      && NamingType(r.rtype)
      && Written(d, start + FixedFields(r.rtype), name) && End(start + FixedFields(r.rtype), name) == start + r.len
    case Strings(ss) =>
      && r.rtype == 16 && (forall s | s in ss :: |s| < 256)
      && r.len == |EncodeTxt(ss)| && Stands(d, start, EncodeTxt(ss))
  }

  ghost predicate RecordLaid(d: seq<byte>, off: nat, r: RSpec) {
    && Written(d, off, r.owner)
    && r.rtype < 0x10000 && r.len < 0x10000 && |r.classTtl| == 6
    && Stands(d, End(off, r.owner), PutBe16(r.rtype) + r.classTtl + PutBe16(r.len))
    && DataStart(off, r) + r.len <= |d|
    && DataLaid(d, DataStart(off, r), r)
  }

  ghost function DataStart(off: nat, r: RSpec): nat
    requires ValidLabels(r.owner.head)
  {
    End(off, r.owner) + 10
  }

  ghost predicate RecordsLaid(d: seq<byte>, off: nat, rs: seq<RSpec>)
    decreases |rs|
  {
    rs != [] ==>
      RecordLaid(d, off, rs[0]) && RecordsLaid(d, DataStart(off, rs[0]) + rs[0].len, rs[1..])
  }

  // How a name is reported, by the type of its record.
  function Entry(rtype: nat, name: seq<byte>): Answer {
    match rtype
    case 2 => Ns(name)
    case 5 => CName(name)
    case 12 => Ptr(name)
    case 15 => MX(name)
    case _ => Srv(name)
  }

  // What a record should be reported as.
  ghost function Expected(r: RSpec): seq<Answer> {
    match r.data
    case Raw(bytes) =>
      if r.rtype == 1 && |bytes| == 4 then [A(bytes)]
      else if r.rtype == 28 && |bytes| == 16 then [AAAA(bytes)]
      else []
    case Naming(name) => [Entry(r.rtype, Join(Labels(name)))]
    case Strings(ss) => Texts(ss)
  }

  ghost function ExpectedAll(rs: seq<RSpec>): seq<Answer> {
    if rs == [] then [] else Expected(rs[0]) + ExpectedAll(rs[1..])
  }

  ghost function Asked(qs: seq<QSpec>): seq<Question> {
    if qs == [] then [] else [Question(Join(Labels(qs[0].name)), qs[0].qtype)] + Asked(qs[1..])
  }

  lemma Be16Stands(d: seq<byte>, off: nat, v: nat)
    requires v < 0x10000 && Stands(d, off, PutBe16(v))
    ensures off + 2 <= |d| && Be16(d, off) == v
  {
    StandsAt(d, off, PutBe16(v), 0);
    StandsAt(d, off, PutBe16(v), 1);
  }

  lemma {:induction false} QuestionsReadBack(d: seq<byte>, off: nat, qs: seq<QSpec>, n: nat, end: nat)
    requires QuestionsLaid(d, off, qs, end) && n == |qs|
    ensures ReadQuestions(d, off, n) == Questions(Asked(qs), end)
    decreases n
  {
    hide Written, Stands, ReadName, Labels, Join, End;
    if n > 0 {
      QuestionReads(d, off, qs[0]);
      QuestionsReadBack(d, End(off, qs[0].name) + 4, qs[1..], n - 1, end);
    }
  }

  lemma QuestionReads(d: seq<byte>, off: nat, q: QSpec)
    requires Written(d, off, q.name) && q.qtype < 0x10000 && q.qclass < 0x10000
    requires Stands(d, End(off, q.name), PutBe16(q.qtype) + PutBe16(q.qclass))
    ensures ValidLabels(q.name.head)
    ensures ReadName(d, off) == Name(Labels(q.name), End(off, q.name))
    ensures End(off, q.name) + 4 <= |d| && Be16(d, End(off, q.name)) == q.qtype
  {
    var e := End(off, q.name);
    ReadInvertsWriting(d, off, q.name);
    hide Written, PutBe16, Be16;
    StandsAppend(d, e, PutBe16(q.qtype), PutBe16(q.qclass));
    Be16Stands(d, e, q.qtype);
  }

  lemma RecordReadsBack(d: seq<byte>, off: nat, r: RSpec)
    requires RecordLaid(d, off, r)
    ensures RecordFrom(d, off) == Take(Record(r.rtype, DataStart(off, r), r.len))
  {
    var e := End(off, r.owner);
    ReadInvertsWriting(d, off, r.owner);
    StandsAppend(d, e, PutBe16(r.rtype) + r.classTtl, PutBe16(r.len));
    StandsAppend(d, e, PutBe16(r.rtype), r.classTtl);
    Be16Stands(d, e, r.rtype);
    Be16Stands(d, e + 8, r.len);
  }

  lemma RawReadsBack(impl: Impl, d: seq<byte>, start: nat, r: RSpec)
    requires r.data.Raw? && start + r.len <= |d| && DataLaid(d, start, r)
    ensures RecordAnswers(impl, d, Record(r.rtype, start, r.len)) == Expected(r)
    ensures !HasName(Record(r.rtype, start, r.len))
  {
    assert d[start..start + r.len] == r.data.bytes;
  }

  lemma StringsReadBack(impl: Impl, d: seq<byte>, start: nat, r: RSpec)
    requires r.data.Strings? && start + r.len <= |d| && DataLaid(d, start, r)
    ensures RecordAnswers(impl, d, Record(r.rtype, start, r.len)) == Expected(r)
    ensures !HasName(Record(r.rtype, start, r.len))
  {
    TxtRoundTrip(r.data.ss);
    hide EncodeTxt, ParseTxt, Texts, ReadName, Written;
    assert Rdata(d, Record(r.rtype, start, r.len)) == EncodeTxt(r.data.ss);
  }

  lemma NamingHasName(d: seq<byte>, start: nat, r: RSpec)
    requires r.data.Naming? && DataLaid(d, start, r)
    ensures HasName(Record(r.rtype, start, r.len)) && Skip(r.rtype) == FixedFields(r.rtype)
    ensures forall s :: Named(r.rtype, s) == Entry(r.rtype, s)
    ensures ReadName(d, start + FixedFields(r.rtype)) == Name(Labels(r.data.name), start + r.len)
  {
    ReadInvertsWriting(d, start + FixedFields(r.rtype), r.data.name);
  }

  lemma NamingReadsBack(d: seq<byte>, start: nat, r: RSpec)
    requires r.data.Naming? && start + r.len <= |d| && DataLaid(d, start, r)
    ensures RecordAnswers(C, d, Record(r.rtype, start, r.len)) == Expected(r)
    ensures !RecordHangs(C, d, Record(r.rtype, start, r.len))
  {
    NamingHasName(d, start, r);
    NameAnswers(C, d, Record(r.rtype, start, r.len));
    hide RecordAnswers, DataLaid, ReadName, Written, Join, Labels;
  }

  // C reads every record back.
  lemma AnswersReadBack(d: seq<byte>, start: nat, r: RSpec)
    requires start + r.len <= |d| && DataLaid(d, start, r)
    ensures RecordAnswers(C, d, Record(r.rtype, start, r.len)) == Expected(r)
    ensures !RecordHangs(C, d, Record(r.rtype, start, r.len))
  {
    hide DataLaid, RecordAnswers, ReadName, HasName;
    match r.data {
      case Raw(_) => RawReadsBack(C, d, start, r);
      case Naming(_) => NamingReadsBack(d, start, r);
      case Strings(_) => StringsReadBack(C, d, start, r);
    }
  }

  // Where Go looks for the name of a record.
  ghost predicate SpelledForGo(d: seq<byte>, start: nat, r: RSpec) {
    r.data.Naming? ==> Spells(d, start + FixedFields(r.rtype) - r.len, Join(Labels(r.data.name)))
  }

  // Go reads back exactly the records without a name and those whose name is
  // also written as far in front of their data as the data is long.
  lemma GoAnswersReadBack(d: seq<byte>, start: nat, r: RSpec)
    requires start + r.len <= |d| && DataLaid(d, start, r)
    ensures RecordAnswers(Go, d, Record(r.rtype, start, r.len)) == Expected(r) <==> SpelledForGo(d, start, r)
    ensures SpelledForGo(d, start, r) ==>
              !RecordHangs(Go, d, Record(r.rtype, start, r.len)) && !RecordPanics(Go, Record(r.rtype, start, r.len))
  {
    match r.data {
      case Raw(_) => RawReadsBack(Go, d, start, r);
      case Strings(_) => StringsReadBack(Go, d, start, r);
      case Naming(name) =>
        var rec, at := Record(r.rtype, start, r.len), start + FixedFields(r.rtype) - r.len;
        NamingHasName(d, start, r);
        NameAnswers(Go, d, rec);
        TextIsSpelled(d, at, Join(Labels(name)));
        hide RecordAnswers, Spells, Written, DataLaid, ReadName, Labels, Join;
        if TextAt(d, at).Text? {
          NamedDiffers(r.rtype, TextAt(d, at).s, Join(Labels(name)));
        }
    }
  }

  lemma LaidRecordReads(d: seq<byte>, off: nat, r: RSpec)
    requires RecordLaid(d, off, r)
    ensures ValidLabels(r.owner.head)
    ensures RecordFrom(d, off) == Take(Record(r.rtype, DataStart(off, r), r.len))
    ensures RecordAnswers(C, d, Record(r.rtype, DataStart(off, r), r.len)) == Expected(r)
    ensures !RecordHangs(C, d, Record(r.rtype, DataStart(off, r), r.len))
  {
    RecordReadsBack(d, off, r);
    AnswersReadBack(d, DataStart(off, r), r);
  }

  ghost predicate AllSpelledForGo(d: seq<byte>, off: nat, rs: seq<RSpec>)
    requires RecordsLaid(d, off, rs)
    decreases |rs|
  {
    rs != [] ==>
      SpelledForGo(d, DataStart(off, rs[0]), rs[0]) && AllSpelledForGo(d, DataStart(off, rs[0]) + rs[0].len, rs[1..])
  }

  lemma {:induction false} RecordsReadBack(impl: Impl, d: seq<byte>, off: nat, rs: seq<RSpec>, n: nat)
    requires RecordsLaid(d, off, rs) && n == |rs|
    requires impl.Go? ==> AllSpelledForGo(d, off, rs)
    ensures FateOf(impl, d, ScanRecords(d, off, n)).Fine?
    ensures AllAnswers(impl, d, ScanRecords(d, off, n)) == ExpectedAll(rs)
    decreases n
  {
    hide RecordLaid, RecordFrom, RecordAnswers, RecordHangs, Expected, DataStart, SpelledForGo;
    if n > 0 {
      LaidRecordReads(d, off, rs[0]);
      if impl.Go? {
        LaidRecordInGo(d, off, rs[0]);
      }
      RecordsReadBack(impl, d, DataStart(off, rs[0]) + rs[0].len, rs[1..], n - 1);
    }
  }

  lemma LaidRecordInGo(d: seq<byte>, off: nat, r: RSpec)
    requires RecordLaid(d, off, r) && SpelledForGo(d, DataStart(off, r), r)
    ensures RecordAnswers(Go, d, Record(r.rtype, DataStart(off, r), r.len)) == Expected(r)
    ensures !RecordHangs(Go, d, Record(r.rtype, DataStart(off, r), r.len))
    ensures !RecordPanics(Go, Record(r.rtype, DataStart(off, r), r.len))
  {
    var start := DataStart(off, r);
    hide Written, Stands, SpelledForGo, DataLaid, RecordAnswers;
    GoAnswersReadBack(d, start, r);
  }

  // What the whole message should be reported as.
  ghost function ExpectedMsg(id: nat, flags: nat, qs: seq<QSpec>, rs: seq<RSpec>): Msg {
    Msg(id, flags,
        if qs == [] then [] else Join(Labels(qs[0].name)),
        if qs == [] then 0 else qs[0].qtype,
        ExpectedAll(rs))
  }

  ghost predicate Laid(d: seq<byte>, id: nat, flags: nat, qs: seq<QSpec>, mid: nat, rs: seq<RSpec>) {
    && |d| >= HEADER && Be16(d, 0) == id && Be16(d, 2) == flags
    && Be16(d, 4) == |qs| && Be16(d, 6) == |rs|
    && QuestionsLaid(d, HEADER, qs, mid) && RecordsLaid(d, mid, rs)
  }

  // A message laid out from questions and records parses back to exactly
  // those: id and flags, the first question, and every record's values in
  // order, with all compression undone.  In C always; in Go if every name is
  // also where Go looks for it, so for messages without names at least.
  lemma MessageReadsBack(impl: Impl, d: seq<byte>, id: nat, flags: nat, qs: seq<QSpec>, mid: nat, rs: seq<RSpec>)
    requires Laid(d, id, flags, qs, mid, rs)
    requires impl.Go? ==> AllSpelledForGo(d, mid, rs)
    ensures ParseMessage(impl, d) == Accept(ExpectedMsg(id, flags, qs, rs))
  {
    QuestionsReadBack(d, HEADER, qs, |qs|, mid);
    RecordsReadBack(impl, d, mid, rs, |rs|);
  }

  lemma {:induction false} NothingToSpell(d: seq<byte>, off: nat, rs: seq<RSpec>)
    requires RecordsLaid(d, off, rs) && forall r | r in rs :: !r.data.Naming?
    ensures AllSpelledForGo(d, off, rs)
    decreases |rs|
  {
    hide DataLaid, Stands, Spells;
    if rs != [] {
      assert rs[0] in rs;
      NothingToSpell(d, DataStart(off, rs[0]) + rs[0].len, rs[1..]);
    }
  }
}
