// Reading lsof's field output: one field a line, marked by its first
// character.
module LsofScan {
  import opened Collections
  import opened HostPort
  import opened SeenConns

  // What the lines so far say about the file descriptor being listed.
  datatype Cur = Cur(pid: int, comm: string, uid: nat, proto: string)

  const START := Cur(0, "", 0, "")

  function KeyOf(pid: int, proto: string, name: string): ConnKey {
    var (src, dst) := SplitConn(name);
    var s, d := SplitHostPort(src), SplitHostPort(dst);
    ConnKey(pid, proto, s.ip, s.port, d.ip, d.port)
  }

  // ParseUint for 32 bits.
  function ParseUid(s: string): Number {
    if AllDigits(s) && Value(s) < 0x1_0000_0000 then Number(Value(s), true) else Number(0, false)
  }

  function AfterLine(seeding: bool, cur: Cur, line: string): Cur {
    if |line| < 2 then cur
    else if line[0] == 'p' then
      var v := Atoi(line[1..]);
      cur.(pid := if v.ok || seeding then v.value else cur.pid, proto := "", uid := 0)
    else if line[0] == 'c' then cur.(comm := line[1..])
    else if line[0] == 'u' then
      var v := ParseUid(line[1..]);
      if v.ok then cur.(uid := v.value) else cur
    else if line[0] == 'f' then cur.(proto := "")
    else if line[0] == 'P' then cur.(proto := line[1..])
    else cur
  }

  // Only a network name gives a row; the seeding scan also takes sockets
  // without any port.
  function NamedRow(seeding: bool, cur: Cur, name: string): seq<Row> {
    if name == "" || name[0] == '/' || cur.proto == "" then []
    else
      var k := KeyOf(cur.pid, cur.proto, name);
      if !seeding && k.sport == 0 && k.dport == 0 then [] else [Row(k, cur.comm, cur.uid)]
  }

  function LineRow(seeding: bool, cur: Cur, line: string): seq<Row> {
    if |line| < 2 || line[0] != 'n' then [] else NamedRow(seeding, cur, line[1..])
  }

  function After(seeding: bool, cur: Cur, lines: seq<string>): Cur
    decreases |lines|
  {
    if lines == [] then cur else After(seeding, AfterLine(seeding, cur, lines[0]), lines[1..])
  }

  function Rows(seeding: bool, cur: Cur, lines: seq<string>): seq<Row>
    decreases |lines|
  {
    if lines == [] then []
    else LineRow(seeding, cur, lines[0]) + Rows(seeding, AfterLine(seeding, cur, lines[0]), lines[1..])
  }

  // ---- What lsof prints ----

  // A descriptor has a protocol if it is a socket.
  datatype Fd = Fd(num: string, proto: string, name: string)

  datatype Proc = Proc(pid: nat, comm: string, login: string, uid: nat, fds: seq<Fd>)

  predicate ValidProc(p: Proc) {
    p.pid <= MAX_INT && p.uid < 0x1_0000_0000 && forall f | f in p.fds :: f.num != ""
  }

  function FdLines(f: Fd): seq<string> {
    ["f" + f.num] + (if f.proto == "" then [] else ["P" + f.proto]) + ["n" + f.name]
  }

  function FdsLines(fs: seq<Fd>): seq<string> {
    if fs == [] then [] else FdLines(fs[0]) + FdsLines(fs[1..])
  }

  function Head(p: Proc): seq<string> {
    ["p" + Format(p.pid), "c" + p.comm, "L" + p.login, "u" + Format(p.uid)]
  }

  function Printed(ps: seq<Proc>): seq<string> {
    if ps == [] then [] else Head(ps[0]) + FdsLines(ps[0].fds) + Printed(ps[1..])
  }

  // ---- The rows meant ----

  function FdsRows(seeding: bool, pid: nat, comm: string, uid: nat, fs: seq<Fd>): seq<Row>
    decreases |fs|
  {
    if fs == [] then []
    else NamedRow(seeding, Cur(pid, comm, uid, fs[0].proto), fs[0].name) + FdsRows(seeding, pid, comm, uid, fs[1..])
  }

  // An empty command leaves no line, and so keeps the last one.
  function Comm(before: string, p: Proc): string {
    if p.comm == "" then before else p.comm
  }

  function Meant(seeding: bool, before: string, ps: seq<Proc>): seq<Row>
    decreases |ps|
  {
    if ps == [] then []
    else
      var comm := Comm(before, ps[0]);
      FdsRows(seeding, ps[0].pid, comm, ps[0].uid, ps[0].fds) + Meant(seeding, comm, ps[1..])
  }

  lemma {:induction false} RowsAppend(seeding: bool, cur: Cur, a: seq<string>, b: seq<string>)
    ensures Rows(seeding, cur, a + b) == Rows(seeding, cur, a) + Rows(seeding, After(seeding, cur, a), b)
    ensures After(seeding, cur, a + b) == After(seeding, After(seeding, cur, a), b)
    decreases |a|
  {
    hide LineRow, AfterLine;
    if a == [] {
      NothingBefore(b);
      NothingBefore(Rows(seeding, cur, b));
    } else {
      var next := AfterLine(seeding, cur, a[0]);
      RowsAppend(seeding, next, a[1..], b);
      assert (a + b)[1..] == a[1..] + b;
      Assoc(LineRow(seeding, cur, a[0]), Rows(seeding, next, a[1..]), Rows(seeding, After(seeding, cur, a), b));
    }
  }

  lemma OneLine(seeding: bool, cur: Cur, line: string)
    ensures Rows(seeding, cur, [line]) == LineRow(seeding, cur, line)
    ensures After(seeding, cur, [line]) == AfterLine(seeding, cur, line)
  {
    assert [line][1..] == [];
    NothingBefore(LineRow(seeding, cur, line));
  }

  lemma Tagged(tag: char, text: string)
    ensures ([tag] + text)[0] == tag && ([tag] + text)[1..] == text
  {
  }

  // Nothing of what was listed before reaches a descriptor's row.
  lemma FdReads(seeding: bool, cur: Cur, f: Fd)
    requires f.num != ""
    ensures Rows(seeding, cur, FdLines(f)) == NamedRow(seeding, cur.(proto := f.proto), f.name)
    ensures After(seeding, cur, FdLines(f)) == cur.(proto := f.proto)
  {
    var a, b, c := "f" + f.num, "P" + f.proto, "n" + f.name;
    Tagged('f', f.num);
    Tagged('P', f.proto);
    Tagged('n', f.name);
    var mid, end := cur.(proto := ""), cur.(proto := f.proto);
    assert AfterLine(seeding, cur, a) == mid && LineRow(seeding, cur, a) == [];
    assert f.proto != "" ==> AfterLine(seeding, mid, b) == end && LineRow(seeding, mid, b) == [];
    assert LineRow(seeding, end, c) == NamedRow(seeding, end, f.name) && AfterLine(seeding, end, c) == end;
    OneLine(seeding, cur, a);
    OneLine(seeding, mid, b);
    OneLine(seeding, end, c);
    hide AfterLine, LineRow, NamedRow, Rows, After;
    NothingBefore(NamedRow(seeding, end, f.name));
    if f.proto == "" {
      RowsAppend(seeding, cur, [a], [c]);
      assert FdLines(f) == [a] + [c];
    } else {
      RowsAppend(seeding, cur, [a], [b]);
      RowsAppend(seeding, cur, [a] + [b], [c]);
      assert FdLines(f) == [a] + [b] + [c];
    }
  }

  lemma {:induction false} FdsRead(seeding: bool, cur: Cur, pid: nat, fs: seq<Fd>)
    requires cur.pid == pid && forall f | f in fs :: f.num != ""
    ensures Rows(seeding, cur, FdsLines(fs)) == FdsRows(seeding, pid, cur.comm, cur.uid, fs)
    ensures After(seeding, cur, FdsLines(fs)).comm == cur.comm
    decreases |fs|
  {
    hide FdLines, NamedRow;
    if fs != [] {
      FdReads(seeding, cur, fs[0]);
      FdsRead(seeding, cur.(proto := fs[0].proto), pid, fs[1..]);
      RowsAppend(seeding, cur, FdLines(fs[0]), FdsLines(fs[1..]));
    }
  }

  lemma HeadReads(seeding: bool, cur: Cur, p: Proc)
    requires ValidProc(p)
    ensures Rows(seeding, cur, Head(p)) == []
    ensures After(seeding, cur, Head(p)) == Cur(p.pid, Comm(cur.comm, p), p.uid, "")
  {
    var a, b, c, d := "p" + Format(p.pid), "c" + p.comm, "L" + p.login, "u" + Format(p.uid);
    Tagged('p', Format(p.pid));
    Tagged('c', p.comm);
    Tagged('L', p.login);
    Tagged('u', Format(p.uid));
    AtoiOfFormat(p.pid);
    ValueOfFormat(p.uid);
    hide Format, Atoi, Value;
    var c1 := Cur(p.pid, cur.comm, 0, "");
    var c2 := c1.(comm := Comm(cur.comm, p));
    OneLine(seeding, cur, a);
    OneLine(seeding, c1, b);
    OneLine(seeding, c2, c);
    OneLine(seeding, c2, d);
    RowsAppend(seeding, cur, [a], [b]);
    RowsAppend(seeding, cur, [a] + [b], [c]);
    RowsAppend(seeding, cur, [a] + [b] + [c], [d]);
    assert Head(p) == [a] + [b] + [c] + [d];
  }

  // Whatever was read before, every socket's row carries its own process,
  // user and protocol, and descriptors that are not sockets give none.
  lemma {:induction false} ListingReadsBack(seeding: bool, cur: Cur, ps: seq<Proc>)
    requires forall p | p in ps :: ValidProc(p)
    ensures Rows(seeding, cur, Printed(ps)) == Meant(seeding, cur.comm, ps)
    decreases |ps|
  {
    hide FdsLines, Head, FdsRows, ValidProc;
    if ps != [] {
      var p := ps[0];
      assert forall f | f in p.fds :: f.num != "" by { Numbered(p); }
      var inside := Cur(p.pid, Comm(cur.comm, p), p.uid, "");
      HeadReads(seeding, cur, p);
      FdsRead(seeding, inside, p.pid, p.fds);
      var after := After(seeding, inside, FdsLines(p.fds));
      ListingReadsBack(seeding, after, ps[1..]);
      RowsAppend(seeding, cur, Head(p), FdsLines(p.fds));
      RowsAppend(seeding, cur, Head(p) + FdsLines(p.fds), Printed(ps[1..]));
      NothingBefore(Rows(seeding, inside, FdsLines(p.fds)));
    }
  }

  lemma Numbered(p: Proc)
    requires ValidProc(p)
    ensures forall f | f in p.fds :: f.num != ""
  {
  }

  // A connected socket printed from its endpoints is keyed by them.
  lemma ConnectionKeyed(pid: nat, proto: string, src: string, sport: nat, dst: string, dport: nat)
    requires sport <= MAX_INT && dport <= MAX_INT
    requires (forall c | c in src :: LiteralChar(c)) && (forall c | c in dst :: LiteralChar(c))
    ensures KeyOf(pid, proto, JoinHostPort(src, sport) + ARROW + JoinHostPort(dst, dport)) ==
            ConnKey(pid, proto, src, sport, dst, dport)
    ensures KeyOf(pid, proto, JoinHostPort(src, sport)) == ConnKey(pid, proto, src, sport, "", 0)
  {
    LiteralsAreReadable(src, sport);
    LiteralsAreReadable(dst, dport);
    SplitUndoesArrow(JoinHostPort(src, sport), JoinHostPort(dst, dport));
  }

  // A socket named by its endpoints gives the row of its process and user,
  // except that the scan leaves out sockets without any port.
  lemma SocketRow(seeding: bool, cur: Cur, src: string, sport: nat, dst: string, dport: nat)
    requires 0 <= cur.pid && cur.proto != "" && sport <= MAX_INT && dport <= MAX_INT
    requires (forall c | c in src :: LiteralChar(c)) && (forall c | c in dst :: LiteralChar(c))
    ensures NamedRow(seeding, cur, JoinHostPort(src, sport) + ARROW + JoinHostPort(dst, dport)) ==
            if seeding || sport != 0 || dport != 0
            then [Row(ConnKey(cur.pid, cur.proto, src, sport, dst, dport), cur.comm, cur.uid)]
            else []
    ensures NamedRow(seeding, cur, JoinHostPort(src, sport)) ==
            if seeding || sport != 0
            then [Row(ConnKey(cur.pid, cur.proto, src, sport, "", 0), cur.comm, cur.uid)]
            else []
  {
    ConnectionKeyed(cur.pid, cur.proto, src, sport, dst, dport);
    NoSlash(src, sport);
    hide KeyOf, JoinHostPort;
  }

  lemma NoSlash(src: string, sport: nat)
    requires forall c | c in src :: LiteralChar(c)
    ensures JoinHostPort(src, sport) != "" && JoinHostPort(src, sport)[0] != '/'
  {
    assert src != "" ==> src[0] in src;
    hide Format;
  }

  // A wildcard socket is kept by the seeding scan only.
  lemma WildcardRow(seeding: bool, cur: Cur)
    requires cur.proto != ""
    ensures NamedRow(seeding, cur, "*:*") ==
            if seeding then [Row(ConnKey(cur.pid, cur.proto, "", 0, "", 0), cur.comm, cur.uid)] else []
  {
    assert SplitConn("*:*") == ("*:*", "") by {
      SplitUndoesArrow("*:*", "");
      NoArrowInWildcard();
    }
  }

  lemma NoArrowInWildcard()
    ensures !HasArrow("*:*")
  {
    var i := IndexPair("*:*", '-', '>');
  }

  // Descriptors that are not network sockets give none.
  lemma OtherRow(seeding: bool, cur: Cur, name: string)
    requires cur.proto == "" || name == "" || name[0] == '/'
    ensures NamedRow(seeding, cur, name) == []
  {
  }

  // The line loop of both scans.
  method ScanLines(seeding: bool, lines: seq<string>) returns (rows: seq<Row>)
    ensures rows == Rows(seeding, START, lines)
  {
    hide KeyOf, Atoi, ParseUid;
    rows := [];
    var cur := START;
    var i := 0;
    assert lines[0..] == lines;
    while i < |lines|
      invariant 0 <= i <= |lines|
      invariant rows + Rows(seeding, cur, lines[i..]) == Rows(seeding, START, lines)
    {
      var line := lines[i];
      ghost var rest := lines[i..];
      assert rest[0] == line && rest[1..] == lines[i + 1..];
      ghost var was, row := rows, LineRow(seeding, cur, line);
      Assoc(rows, row, Rows(seeding, AfterLine(seeding, cur, line), rest[1..]));
      if |line| >= 2 {
        var body := line[1..];
        match line[0] {
          case 'p' =>
            var v := Atoi(body);
            cur := cur.(pid := if v.ok || seeding then v.value else cur.pid, proto := "", uid := 0);
          case 'c' =>
            cur := cur.(comm := body);
          case 'u' =>
            var v := ParseUid(body);
            if v.ok {
              cur := cur.(uid := v.value);
            }
          case 'f' =>
            cur := cur.(proto := "");
          case 'P' =>
            cur := cur.(proto := body);
          case 'n' =>
            if !(body[0] == '/' || cur.proto == "") {
              var k := KeyOf(cur.pid, cur.proto, body);
              if seeding || k.sport != 0 || k.dport != 0 {
                rows := rows + [Row(k, cur.comm, cur.uid)];
              }
            }
          case _ =>
        }
      }
      NothingBefore(was);
      i := i + 1;
    }
    assert lines[i..] == [];
    NothingBefore(rows);
  }
}
