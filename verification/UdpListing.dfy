// The listing of UDP sockets behind the process cache: which process owns
// each local port.
module UdpListing {
  import opened Collections
  import opened HostPort
  import opened ProcCache

  datatype Reading = Reading(pid: int, name: string, m: Listing)

  const START := Reading(0, "", map[])

  datatype LocalPort = NoPort | Bound(p: Port)

  // The port before any arrow: for a connected socket the last colon of the
  // whole name would be in front of the server's port.
  function PortOf(name: string): LocalPort {
    var body := SplitConn(name).0;
    var colon := LastIndex(body, ':');
    if colon < 0 || body[colon + 1..] == "*" then NoPort
    else
      var v := Atoi(body[colon + 1..]);
      if v.ok && 0 < v.value <= 65535 then Bound(v.value) else NoPort
  }

  function Claim(s: Reading, name: string): Reading {
    match PortOf(name)
    case NoPort => s
    case Bound(p) => s.(m := s.m[p := Owner(s.pid, s.name)])
  }

  function AfterLine(s: Reading, line: string): Reading {
    if |line| < 2 then s
    else if line[0] == 'p' then (if Atoi(line[1..]).ok then s.(pid := Atoi(line[1..]).value) else s)
    else if line[0] == 'c' then s.(name := line[1..])
    else if line[0] == 'n' then Claim(s, line[1..])
    else s
  }

  function After(s: Reading, lines: seq<string>): Reading
    decreases |lines|
  {
    if lines == [] then s else After(AfterLine(s, lines[0]), lines[1..])
  }

  // ---- What lsof prints ----

  datatype Sock = Sock(num: string, name: string)

  datatype Proc = Proc(pid: nat, name: string, socks: seq<Sock>)

  function SockLines(k: Sock): seq<string> {
    ["f" + k.num] + ["n" + k.name]
  }

  function SocksLines(ks: seq<Sock>): seq<string> {
    if ks == [] then [] else SockLines(ks[0]) + SocksLines(ks[1..])
  }

  function Printed(ps: seq<Proc>): seq<string> {
    if ps == [] then []
    else (["p" + Format(ps[0].pid)] + ["c" + ps[0].name]) + SocksLines(ps[0].socks) + Printed(ps[1..])
  }

  // ---- The listing meant: the last owner of each port ----

  function Claims(s: Reading, ks: seq<Sock>): Reading
    decreases |ks|
  {
    if ks == [] then s else Claims(Claim(s, ks[0].name), ks[1..])
  }

  function Meant(s: Reading, ps: seq<Proc>): Reading
    decreases |ps|
  {
    if ps == [] then s
    else Meant(Claims(s.(pid := ps[0].pid, name := if ps[0].name == "" then s.name else ps[0].name), ps[0].socks), ps[1..])
  }

  lemma {:induction false} AfterAppend(s: Reading, a: seq<string>, b: seq<string>)
    ensures After(s, a + b) == After(After(s, a), b)
    decreases |a|
  {
    hide AfterLine;
    if a == [] {
      NothingBefore(b);
    } else {
      AfterAppend(AfterLine(s, a[0]), a[1..], b);
      assert (a + b)[1..] == a[1..] + b;
    }
  }

  lemma OneLine(s: Reading, line: string)
    ensures After(s, [line]) == AfterLine(s, line)
  {
    assert [line][1..] == [];
  }

  lemma Tagged(tag: char, text: string)
    ensures ([tag] + text)[0] == tag && ([tag] + text)[1..] == text
  {
  }

  lemma SockReads(s: Reading, k: Sock)
    ensures After(s, SockLines(k)) == Claim(s, k.name)
  {
    Tagged('f', k.num);
    Tagged('n', k.name);
    OneLine(s, "f" + k.num);
    OneLine(s, "n" + k.name);
    AfterAppend(s, ["f" + k.num], ["n" + k.name]);
    hide PortOf, Atoi;
    if k.name == "" {
      assert PortOf("") == NoPort by { NoName(); }
    }
  }

  lemma NoName()
    ensures PortOf("") == NoPort
  {
  }

  lemma {:induction false} SocksRead(s: Reading, ks: seq<Sock>)
    ensures After(s, SocksLines(ks)) == Claims(s, ks)
    decreases |ks|
  {
    hide SockLines, Claim;
    if ks != [] {
      SockReads(s, ks[0]);
      SocksRead(Claim(s, ks[0].name), ks[1..]);
      AfterAppend(s, SockLines(ks[0]), SocksLines(ks[1..]));
    }
  }

  lemma HeadReads(s: Reading, p: Proc)
    requires p.pid <= MAX_INT
    ensures After(s, ["p" + Format(p.pid)] + ["c" + p.name]) == s.(pid := p.pid, name := if p.name == "" then s.name else p.name)
  {
    var a, c := "p" + Format(p.pid), "c" + p.name;
    Tagged('p', Format(p.pid));
    Tagged('c', p.name);
    AtoiOfFormat(p.pid);
    hide Format, Atoi;
    OneLine(s, a);
    OneLine(s.(pid := p.pid), c);
    AfterAppend(s, [a], [c]);
  }

  // Each port goes to the process under which its last socket is listed.
  lemma {:induction false} ListingReadsBack(s: Reading, ps: seq<Proc>)
    requires forall p | p in ps :: p.pid <= MAX_INT
    ensures After(s, Printed(ps)) == Meant(s, ps)
    decreases |ps|
  {
    hide SocksLines, Claims;
    if ps != [] {
      var p := ps[0];
      var head := ["p" + Format(p.pid)] + ["c" + p.name];
      var inside := s.(pid := p.pid, name := if p.name == "" then s.name else p.name);
      HeadReads(s, p);
      SocksRead(inside, p.socks);
      ListingReadsBack(Claims(inside, p.socks), ps[1..]);
      AfterAppend(s, head, SocksLines(p.socks));
      AfterAppend(s, head + SocksLines(p.socks), Printed(ps[1..]));
    }
  }

  // A bound socket, connected or not, is listed under its own port.
  lemma OwnPort(ip: string, port: nat, remote: string)
    requires 0 < port <= 65535 && forall c | c in ip :: LiteralChar(c)
    ensures PortOf(JoinHostPort(ip, port)) == Bound(port)
    ensures PortOf(JoinHostPort(ip, port) + ARROW + remote) == Bound(port)
  {
    var s, digits := JoinHostPort(ip, port), Format(port);
    LiteralsAreReadable(ip, port);
    SplitUndoesArrow(s, remote);
    FormatIsPlain(port);
    AtoiOfFormat(port);
    hide Format, Atoi, LastIndex, LiteralChar, HasArrow, SplitConn, PortOf;
    var head := if ip == "" then "*" else if ':' in ip then "[" + ip + "]" else ip;
    Headed(ip, port, head);
    hide JoinHostPort;
    PortAfterColon(s, head, digits, port);
    PortAfterColon(s + ARROW + remote, head, digits, port);
  }

  lemma Headed(ip: string, port: nat, head: string)
    requires head == if ip == "" then "*" else if ':' in ip then "[" + ip + "]" else ip
    ensures JoinHostPort(ip, port) == head + ":" + Format(port)
  {
    hide Format;
  }

  lemma PortAfterColon(name: string, head: string, digits: string, port: nat)
    requires SplitConn(name).0 == head + ":" + digits && ':' !in digits && digits != "" && digits[0] != '*'
    requires Atoi(digits) == Number(port, true) && 0 < port <= 65535
    ensures PortOf(name) == Bound(port)
  {
    var s := head + ":" + digits;
    LastColon(head, digits);
    hide Atoi, LastIndex, SplitConn;
    assert s[|head| + 1..] == digits;
  }

  // A port that no socket of a process claims stays with its owner.
  lemma {:induction false} UnclaimedStays(s: Reading, ks: seq<Sock>, p: Port)
    requires forall k | k in ks :: PortOf(k.name) != Bound(p)
    ensures p in Claims(s, ks).m <==> p in s.m
    ensures p in s.m ==> Claims(s, ks).m[p] == s.m[p]
    decreases |ks|
  {
    hide PortOf;
    if ks != [] {
      assert ks[0] in ks;
      UnclaimedStays(Claim(s, ks[0].name), ks[1..], p);
    }
  }

  // A port that one of its sockets claims goes to the process.
  lemma {:induction false} ClaimedIsOwned(s: Reading, ks: seq<Sock>, i: nat, p: Port)
    requires i < |ks| && PortOf(ks[i].name) == Bound(p)
    ensures p in Claims(s, ks).m && Claims(s, ks).m[p] == Owner(s.pid, s.name)
    decreases |ks|
  {
    hide PortOf;
    var next := Claim(s, ks[0].name);
    if j: nat :| 0 < j < |ks| && PortOf(ks[j].name) == Bound(p) {
      ClaimedIsOwned(next, ks[1..], j - 1, p);
    } else {
      assert i == 0 && ks[0] in ks;
      forall k | k in ks[1..]
        ensures PortOf(k.name) != Bound(p)
      {
        var j: nat :| 0 < j < |ks| && ks[j] == k;
      }
      UnclaimedStays(next, ks[1..], p);
    }
  }

  // The line loop.
  method ScanUdpSockets(lines: seq<string>) returns (m: Listing)
    ensures m == After(START, lines).m
  {
    hide Atoi, LastIndex, SplitConn;
    m := map[];
    var pid: int, name := 0, "";
    var i := 0;
    assert lines[0..] == lines;
    while i < |lines|
      invariant 0 <= i <= |lines|
      invariant After(Reading(pid, name, m), lines[i..]) == After(START, lines)
    {
      var line := lines[i];
      assert lines[i..][0] == line && lines[i..][1..] == lines[i + 1..];
      if |line| >= 2 {
        match line[0] {
          case 'p' =>
            var v := Atoi(line[1..]);
            if v.ok {
              pid := v.value;
            }
          case 'c' =>
            name := line[1..];
          case 'n' =>
            var (body, _) := SplitConn(line[1..]);
            var colon := LastIndex(body, ':');
            if colon >= 0 && body[colon + 1..] != "*" {
              var v := Atoi(body[colon + 1..]);
              if v.ok && 0 < v.value <= 65535 {
                m := m[v.value := Owner(pid, name)];
              }
            }
          case _ =>
        }
      }
      i := i + 1;
    }
    assert lines[i..] == [];
  }
}
