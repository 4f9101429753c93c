// The C DNS parser: names go into bounded buffers, values become C strings,
// and at most sixteen answers are kept.
module DnsPort {
  import opened Bytes
  import opened Collections
  import opened DnsName
  import opened DnsMessage

  function Take<T>(s: seq<T>, n: nat): (r: seq<T>)
    ensures |r| <= n
  {
    if |s| <= n then s else s[..n]
  }

  // What a C reader sees of a NUL-terminated buffer.
  function CString(s: seq<byte>): seq<byte> {
    if s == [] || s[0] == 0 then [] else [s[0]] + CString(s[1..])
  }

  // dst holds the first cap - 1 bytes of s and a terminator.
  ghost predicate Holds(dst: array<byte>, cap: nat, s: seq<byte>)
    reads dst
  {
    0 < cap <= dst.Length && dst[..|Take(s, cap - 1)|] == Take(s, cap - 1) && dst[|Take(s, cap - 1)|] == 0
  }

  lemma {:induction false} JoinOneMore(labels: seq<Label>, l: Label)
    ensures Join(labels + [l]) == if labels == [] then l else Join(labels) + [46] + l
  {
    assert (labels + [l])[..|labels|] == labels;
    assert labels == [] ==> labels + [l] == [l];
  }

  lemma {:induction false} JoinNonempty(labels: seq<Label>)
    requires forall l | l in labels :: |l| > 0
    ensures Join(labels) == [] <==> labels == []
  {
    if |labels| == 1 {
      assert labels[0] in labels;
    }
  }

  // The copying loop: as much of bs as fits.
  method AppendBytes(dst: array<byte>, cap: nat, start: nat, bs: seq<byte>, ghost s: seq<byte>) returns (w: nat)
    requires 0 < cap <= dst.Length && start == |Take(s, cap - 1)| && dst[..start] == Take(s, cap - 1)
    modifies dst
    ensures w == |Take(s + bs, cap - 1)| && dst[..w] == Take(s + bs, cap - 1)
  {
    w := start;
    var i := 0;
    while i < |bs| && w < cap - 1
      invariant 0 <= i <= |bs|
      invariant w == |Take(s + bs[..i], cap - 1)| && dst[..w] == Take(s + bs[..i], cap - 1)
    {
      assert bs[..i + 1] == bs[..i] + [bs[i]];
      dst[w] := bs[i];
      w := w + 1;
      i := i + 1;
      assert dst[..w] == s + bs[..i];
    }
    FullStaysFull(s, bs, i, cap - 1);
  }

  lemma FullStaysFull(s: seq<byte>, bs: seq<byte>, i: nat, n: nat)
    requires i <= |bs| && (i == |bs| || |Take(s + bs[..i], n)| == n)
    ensures Take(s + bs[..i], n) == Take(s + bs, n)
  {
    assert bs == bs[..i] + bs[i..];
    assert s + bs == s + bs[..i] + bs[i..];
  }

  // One label of the name, after a dot unless it is the first.
  method AppendLabel(dst: array<byte>, cap: nat, start: nat, l: Label, ghost labels: seq<Label>) returns (w: nat)
    requires 0 < cap && start == |Take(Join(labels), cap - 1)| && Holds(dst, cap, Join(labels))
    requires Nonempty(labels)
    modifies dst
    ensures w == |Take(Join(labels + [l]), cap - 1)| && Holds(dst, cap, Join(labels + [l]))
  {
    JoinNonempty(labels);
    JoinOneMore(labels, l);
    w := start;
    ghost var s := Join(labels);
    if w > 0 {
      w := AppendBytes(dst, cap, w, [46], s);
      s := s + [46];
    }
    if cap == 1 {
      assert Take(Join(labels + [l]), 0) == [];
    } else {
      w := AppendBytes(dst, cap, w, l, s);
      assert labels == [] ==> s + l == l;
    }
    dst[w] := 0;
  }

  ghost predicate Nonempty(labels: seq<Label>) {
    forall l | l in labels :: |l| > 0
  }

  lemma AllNonempty(labels: seq<Label>, l: Label)
    requires Nonempty(labels) && |l| > 0
    ensures Nonempty(labels + [l])
  {
  }

  // read_name; a null dst only measures.
  method ReadNameC(d: seq<byte>, start: nat, dst: array?<byte>, cap: nat) returns (r: int)
    requires !ReadName(d, start).Endless?
    requires dst != null ==> 0 < cap <= dst.Length
    modifies dst
    ensures r == (if ReadName(d, start).Name? then ReadName(d, start).end else -1)
    ensures dst != null && ReadName(d, start).Name? ==> Holds(dst, cap, Join(ReadName(d, start).labels))
  {
    hide Target, Walk, Resume, Join, Nonempty, Take, Holds, ReadName, Next, Buffered;
    var w: nat, orig := 0, -1;
    var off: nat := start;
    ghost var labels: seq<Label> := [];
    ghost var fuel: nat := |d| + 1;
    ghost var goal := ReadName(d, start);
    StartReading(d, start);
    if dst != null {
      dst[0] := 0;
    }
    NothingBuffered(dst, cap);
    while true
      invariant orig >= -1
      invariant goal == Resume(labels, orig, Walk(d, off, fuel))
      invariant Buffered(dst, cap, w, labels)
      decreases fuel
    {
      StopResumes(d, off, fuel, labels, orig);
      if off >= |d| {
        CannotGoOn(d, off);
        return -1;
      }
      var l := d[off] as nat;
      if l == 0 {
        CannotGoOn(d, off);
        BufferHolds(dst, cap, w, labels);
        off := off + 1;
        return if orig != -1 then orig else off;
      } else if l >= 0xC0 {
        if off + 2 > |d| {
          CannotGoOn(d, off);
          return -1;
        }
        PointerResumes(d, off, fuel, labels, orig);
        if orig == -1 {
          orig := off + 2;
        }
        off := Target(d, off);
      } else if l < 0x40 {
        if off + 1 + l > |d| {
          CannotGoOn(d, off);
          return -1;
        }
        LabelResumes(d, off, off + 1 + l, fuel, labels, orig);
        off := off + 1;
        w := TakeLabel(dst, cap, w, d[off..off + l], labels);
        labels := labels + [d[off..off + l]];
        off := off + l;
      } else {
        CannotGoOn(d, off);
        return -1;
      }
      fuel := fuel - 1;
    }
  }

  lemma StartReading(d: seq<byte>, start: nat)
    ensures ReadName(d, start) == Resume([], -1, Walk(d, start, |d| + 1))
  {
    StartResumes(ReadName(d, start));
  }

  // Where the loop has no next turn.
  lemma CannotGoOn(d: seq<byte>, off: nat)
    requires off < |d| ==>
               || d[off] == 0 || 0x40 <= d[off] < 0xC0
               || (d[off] >= 0xC0 && off + 2 > |d|) || (d[off] < 0x40 && off + 1 + d[off] as nat > |d|)
    ensures Next(d, off) == -1
  {
  }

  // w bytes of the joined labels so far are in the buffer, if there is one.
  ghost predicate Buffered(dst: array?<byte>, cap: nat, w: nat, labels: seq<Label>)
    reads dst
  {
    && Nonempty(labels)
    && (dst != null ==> 0 < cap && w == |Take(Join(labels), cap - 1)| && Holds(dst, cap, Join(labels)))
  }

  lemma NothingBuffered(dst: array?<byte>, cap: nat)
    requires dst != null ==> 0 < cap <= dst.Length && dst[0] == 0
    ensures Buffered(dst, cap, 0, [])
  {
  }

  lemma BufferHolds(dst: array?<byte>, cap: nat, w: nat, labels: seq<Label>)
    requires Buffered(dst, cap, w, labels)
    ensures dst != null ==> Holds(dst, cap, Join(labels))
  {
  }

  method TakeLabel(dst: array?<byte>, cap: nat, start: nat, l: Label, ghost labels: seq<Label>) returns (w: nat)
    requires Buffered(dst, cap, start, labels) && |l| > 0
    modifies dst
    ensures Buffered(dst, cap, w, labels + [l])
  {
    w := start;
    AllNonempty(labels, l);
    if dst != null {
      hide Take, Join, Nonempty;
      w := AppendLabel(dst, cap, w, l, labels);
    }
  }

  // The bytes before the terminator.
  method ReadCString(dst: array<byte>, cap: nat, ghost s: seq<byte>) returns (t: seq<byte>)
    requires Holds(dst, cap, s)
    ensures t == CString(Take(s, cap - 1))
  {
    t := [];
    var i := 0;
    ghost var all := Take(s, cap - 1);
    while dst[i] != 0
      invariant 0 <= i <= |all|
      invariant CString(all) == t + CString(all[i..])
      decreases |all| - i
    {
      assert dst[i] == dst[..|all|][i] == all[i];
      assert all[i..][1..] == all[i + 1..];
      Assoc(t, [all[i]], CString(all[i + 1..]));
      t := t + [dst[i]];
      i := i + 1;
    }
    assert i < |all| ==> all[i..][0] == dst[..|all|][i];
  }

  const NAME_CAP := 256
  const MAX_ANS := 16

  function Clip(s: seq<byte>): seq<byte> {
    CString(Take(s, NAME_CAP - 1))
  }

  lemma ClipKeeps(s: seq<byte>)
    ensures Clip(s) == CString(if |s| <= 255 then s else s[..255])
  {
  }

  // An answer as the C port stores it.
  function ClipAnswer(a: Answer): Answer {
    match a
    case A(x) => a
    case AAAA(x) => a
    case CName(n) => CName(Clip(n))
    case MX(n) => MX(Clip(n))
    case Txt(t) => Txt(CString(t))
    case Srv(n) => Srv(Clip(n))
    case Ptr(n) => Ptr(Clip(n))
    case Ns(n) => Ns(Clip(n))
  }

  function ClipAll(xs: seq<Answer>): seq<Answer> {
    if xs == [] then [] else ClipAll(xs[..|xs| - 1]) + [ClipAnswer(xs[|xs| - 1])]
  }

  lemma {:induction false} ClipAppend(xs: seq<Answer>, ys: seq<Answer>)
    ensures ClipAll(xs + ys) == ClipAll(xs) + ClipAll(ys)
  {
    if ys == [] {
      NothingBefore(xs);
      NothingBefore(ClipAll(xs));
    } else {
      var n := |ys| - 1;
      assert (xs + ys)[..|xs| + n] == xs + ys[..n];
      ClipAppend(xs, ys[..n]);
      Assoc(ClipAll(xs), ClipAll(ys[..n]), [ClipAnswer(ys[n])]);
    }
  }

  // add_answer: dropped once the table is full.
  function AddAnswer(kept: seq<Answer>, a: Answer): seq<Answer> {
    if |kept| >= MAX_ANS then kept else kept + [a]
  }

  lemma AddKeepsFirst(all: seq<Answer>, a: Answer)
    ensures AddAnswer(Take(all, MAX_ANS), a) == Take(all + [a], MAX_ANS)
  {
  }

  method ReadClipped(d: seq<byte>, off: nat) returns (ok: bool, name: seq<byte>)
    requires !ReadName(d, off).Endless?
    ensures ok <==> ReadName(d, off).Name?
    ensures ok ==> name == Clip(Join(ReadName(d, off).labels))
  {
    var nm := new byte[NAME_CAP];
    var n := ReadNameC(d, off, nm, NAME_CAP);
    if n < 0 {
      return false, [];
    }
    name := ReadCString(nm, NAME_CAP, Join(ReadName(d, off).labels));
    ok := true;
  }

  // The answers of one record, added to those kept so far.
  method AddRecord(d: seq<byte>, r: Record, ghost before: seq<Answer>, start: seq<Answer>) returns (kept: seq<Answer>)
    requires r.start + r.len <= |d| && !RecordHangs(C, d, r)
    requires start == Take(ClipAll(before), MAX_ANS)
    ensures kept == Take(ClipAll(before + RecordAnswers(C, d, r)), MAX_ANS)
  {
    hide Take, ClipAll, Clip, ReadName, Join, ParseTxt, Texts;
    kept := start;
    var rd := d[r.start..r.start + r.len];
    NothingBefore(before);
    if r.rtype == 1 {
      if r.len == 4 {
        kept := AddOne(kept, A(rd), before);
      }
    } else if r.rtype == 28 {
      if r.len == 16 {
        kept := AddOne(kept, AAAA(rd), before);
      }
    } else if r.rtype == 16 {
      kept := AddTexts(rd, before, kept);
    } else if r.rtype == 5 || r.rtype == 2 || r.rtype == 12 || (r.rtype == 15 && r.len > 2) || (r.rtype == 33 && r.len > 6) {
      var skip := if r.rtype == 15 then 2 else if r.rtype == 33 then 6 else 0;
      var ok, name := ReadClipped(d, r.start + skip);
      if ok {
        kept := AddNamed(kept, r.rtype, name, before, Join(ReadName(d, r.start + skip).labels));
      }
    }
  }

  method AddOne(kept: seq<Answer>, a: Answer, ghost before: seq<Answer>) returns (more: seq<Answer>)
    requires kept == Take(ClipAll(before), MAX_ANS) && ClipAnswer(a) == a
    ensures more == Take(ClipAll(before + [a]), MAX_ANS)
  {
    assert (before + [a])[..|before|] == before;
    AddKeepsFirst(ClipAll(before), a);
    more := AddAnswer(kept, a);
  }

  method AddNamed(kept: seq<Answer>, rtype: nat, clipped: seq<byte>, ghost before: seq<Answer>, ghost name: seq<byte>)
    returns (more: seq<Answer>)
    requires kept == Take(ClipAll(before), MAX_ANS) && clipped == Clip(name)
    ensures more == Take(ClipAll(before + [Named(rtype, name)]), MAX_ANS)
  {
    assert (before + [Named(rtype, name)])[..|before|] == before;
    AddKeepsFirst(ClipAll(before), Named(rtype, clipped));
    more := AddAnswer(kept, Named(rtype, clipped));
  }

  method AddTexts(rd: seq<byte>, ghost before: seq<Answer>, start: seq<Answer>) returns (kept: seq<Answer>)
    requires start == Take(ClipAll(before), MAX_ANS)
    ensures kept == Take(ClipAll(before + Texts(ParseTxt(rd))), MAX_ANS)
  {
    kept := start;
    var p := 0;
    ghost var done: seq<seq<byte>> := [];
    NothingBefore(before);
    hide ParseTxt, ClipAll, Take, Texts;
    assert rd[0..] == rd && Texts([]) == [] by { NoTexts(rd); }
    assert ParseTxt(rd[|rd|..]) == [] by { NoTexts(rd); }
    while p < |rd|
      invariant 0 <= p <= |rd|
      invariant ParseTxt(rd) == done + ParseTxt(rd[p..])
      invariant kept == Take(ClipAll(before + Texts(done)), MAX_ANS)
    {
      TextTurn(rd, p);
      var sl := rd[p] as nat;
      p := p + 1;
      if p + sl > |rd| {
        break;
      }
      var s := rd[p..p + sl];
      Assoc(done, [s], ParseTxt(rd[p + sl..]));
      kept := AddText(kept, s, before, done);
      done := done + [s];
      p := p + sl;
    }
    NothingBefore(done);
  }

  lemma NoTexts(rd: seq<byte>)
    ensures rd[0..] == rd && Texts([]) == [] && ParseTxt(rd[|rd|..]) == []
  {
  }

  lemma TextTurn(rd: seq<byte>, p: nat)
    requires p < |rd|
    ensures var end := p + 1 + rd[p] as nat;
            ParseTxt(rd[p..]) == if end > |rd| then [] else [rd[p + 1..end]] + ParseTxt(rd[end..])
  {
    var rest, end := rd[p..], p + 1 + rd[p] as nat;
    assert end <= |rd| ==> rest[1..1 + rd[p] as nat] == rd[p + 1..end] && rest[1 + rd[p] as nat..] == rd[end..];
  }

  method AddText(kept: seq<Answer>, s: seq<byte>, ghost before: seq<Answer>, ghost done: seq<seq<byte>>) returns (more: seq<Answer>)
    requires kept == Take(ClipAll(before + Texts(done)), MAX_ANS)
    ensures more == Take(ClipAll(before + Texts(done + [s])), MAX_ANS)
  {
    ghost var all := before + Texts(done);
    assert (done + [s])[..|done|] == done;
    Assoc(before, Texts(done), [Txt(s)]);
    assert (all + [Txt(s)])[..|all|] == all;
    AddKeepsFirst(ClipAll(all), Txt(CString(s)));
    more := AddAnswer(kept, Txt(CString(s)));
  }

  // parse_dns keeps the first sixteen answers, each clipped to what a 256-byte
  // C string holds.
  method ParseDnsC(d: seq<byte>) returns (ok: bool, id: nat, flags: nat, qtype: nat, question: seq<byte>, answers: seq<Answer>)
    requires !ParseMessage(C, d).Hang?
    ensures ok <==> ParseMessage(C, d).Accept?
    ensures ok ==>
              var m := ParseMessage(C, d).msg;
              && id == m.id && flags == m.flags && qtype == m.qtype && question == Clip(m.question)
              && answers == Take(ClipAll(m.answers), 16)
  {
    id, flags, qtype, question, answers := 0, 0, 0, [], [];
    if |d| < HEADER {
      return false, id, flags, qtype, question, answers;
    }
    id, flags := Be16(d, 0), Be16(d, 2);
    var qd, an := Be16(d, 4), Be16(d, 6);
    var off: nat;
    ok, off, question, qtype := QuestionsC(d, qd);
    if !ok {
      return;
    }
    CStaysFine(d, ScanRecords(d, off, an));
    answers := AnswersC(d, off, an);
  }

  method QuestionsC(d: seq<byte>, qd: nat) returns (ok: bool, off: nat, question: seq<byte>, qtype: nat)
    requires |d| >= HEADER && !ReadQuestions(d, HEADER, qd).HungQuestion?
    ensures ok <==> ReadQuestions(d, HEADER, qd).Questions?
    ensures ok ==>
              var qs := ReadQuestions(d, HEADER, qd);
              && off == qs.end && question == Clip(if qs.list == [] then [] else qs.list[0].name)
              && qtype == if qs.list == [] then 0 else qs.list[0].qtype
  {
    hide ReadName, Join, CString;
    off, question, qtype := HEADER, [], 0;
    ghost var all := ReadQuestions(d, HEADER, qd);
    ghost var seen: seq<Question> := [];
    EmptyClip();
    var i := 0;
    while i < qd
      invariant 0 <= i <= qd && |seen| == i
      invariant PrependQ(seen, ReadQuestions(d, off, qd - i)) == all
      invariant question == Clip(if seen == [] then [] else seen[0].name)
      invariant qtype == if seen == [] then 0 else seen[0].qtype
    {
      var name := new byte[NAME_CAP];
      var n := ReadNameC(d, off, name, NAME_CAP);
      if n < 0 {
        return false, off, question, qtype;
      }
      if n + 4 > |d| {
        return false, off, question, qtype;
      }
      var qt := Be16(d, n);
      ghost var q := Question(Join(ReadName(d, off).labels), qt);
      PrependOne(seen, q, ReadQuestions(d, n + 4, qd - i - 1));
      if i == 0 {
        question := ReadCString(name, NAME_CAP, q.name);
        qtype := qt;
      }
      off := n + 4;
      seen := seen + [q];
      i := i + 1;
    }
    ok := true;
  }

  lemma EmptyClip()
    ensures Clip([]) == []
  {
  }

  method AnswersC(d: seq<byte>, start: nat, an: nat) returns (answers: seq<Answer>)
    requires FateOf(C, d, ScanRecords(d, start, an)).Fine?
    ensures answers == Take(ClipAll(AllAnswers(C, d, ScanRecords(d, start, an))), MAX_ANS)
  {
    hide RecordFrom, RecordAnswers, RecordHangs, RecordPanics, ClipAll;
    ghost var scan := ScanRecords(d, start, an);
    ghost var all := AllAnswers(C, d, scan);
    ghost var done: seq<Answer> := [];
    var off: nat, left: nat := start, an;
    answers := [];
    EmptyClipAll();
    while left > 0
      invariant scan == ScanRecords(d, off, left) && FateOf(C, d, scan).Fine?
      invariant all == done + AllAnswers(C, d, scan)
      invariant answers == Take(ClipAll(done), MAX_ANS)
      decreases left
    {
      var next := ReadRecordC(d, off);
      if next.Stop? {
        break;
      }
      var r := next.r;
      answers := AddRecord(d, r, done, answers);
      Assoc(done, RecordAnswers(C, d, r), AllAnswers(C, d, scan.rest));
      done := done + RecordAnswers(C, d, r);
      scan := scan.rest;
      off := r.start + r.len;
      left := left - 1;
    }
    NothingBefore(done);
  }

  lemma EmptyClipAll()
    ensures ClipAll([]) == []
  {
  }

  method ReadRecordC(d: seq<byte>, off: nat) returns (next: Step)
    requires !RecordFrom(d, off).Stuck?
    ensures next == RecordFrom(d, off)
    ensures next.Take? ==> next.r.start + next.r.len <= |d|
  {
    var n := ReadNameC(d, off, null, 0);
    if n < 0 {
      return Stop;
    }
    if n + 10 > |d| {
      return Stop;
    }
    var rdlen := Be16(d, n + 8);
    if n + 10 + rdlen > |d| {
      return Stop;
    }
    return Step.Take(Record(Be16(d, n), n + 10, rdlen));
  }
}
