// Addresses as lsof prints them, and as the connection lines print them.
module HostPort {

  // ---- Decimal numbers ----

  const MAX_INT: int := 0x7fff_ffff_ffff_ffff
  const DIGITS := "0123456789"

  predicate IsDigit(c: char) {
    '0' <= c <= '9'
  }

  function Format(n: nat): (s: string)
    ensures s != [] && forall c | c in s :: IsDigit(c)
  {
    if n < 10 then [DIGITS[n]] else Format(n / 10) + [DIGITS[n % 10]]
  }

  predicate AllDigits(s: string) {
    s != [] && forall c | c in s :: IsDigit(c)
  }

  function Value(s: string): (v: nat)
    requires forall c | c in s :: IsDigit(c)
  {
    if s == [] then 0
    else
      assert IsDigit(s[|s| - 1]);
      Value(s[..|s| - 1]) * 10 + (s[|s| - 1] as int - '0' as int)
  }

  lemma {:induction false} ValueOfFormat(n: nat)
    ensures Value(Format(n)) == n
  {
    if n < 10 {
      assert Format(n)[..0] == [];
    } else {
      var s := Format(n);
      assert s[..|s| - 1] == Format(n / 10);
      ValueOfFormat(n / 10);
    }
  }

  datatype Number = Number(value: int, ok: bool)

  // Out of range, the result is an error but the value is the nearest one.
  function Clamped(negative: bool, v: nat): Number {
    if negative then (if v <= MAX_INT + 1 then Number(0 - v, true) else Number(-MAX_INT - 1, false))
    else (if v <= MAX_INT then Number(v, true) else Number(MAX_INT, false))
  }

  function Atoi(s: string): Number {
    var signed := s != [] && (s[0] == '-' || s[0] == '+');
    var digits := if signed then s[1..] else s;
    if AllDigits(digits) then Clamped(signed && s[0] == '-', Value(digits)) else Number(0, false)
  }

  lemma AtoiOfFormat(n: nat)
    requires n <= MAX_INT
    ensures Atoi(Format(n)) == Number(n, true)
  {
    ValueOfFormat(n);
    assert Format(n)[0] in Format(n);
  }

  // ---- Searching ----

  predicate PairAt(s: string, a: char, b: char, i: nat) {
    i + 1 < |s| && s[i] == a && s[i + 1] == b
  }

  // The first place where a is followed by b, or -1.
  function IndexPair(s: string, a: char, b: char): (r: int)
    ensures r == -1 ==> forall i: nat :: !PairAt(s, a, b, i)
    ensures r != -1 ==> 0 <= r && PairAt(s, a, b, r) && forall i: nat | i < r :: !PairAt(s, a, b, i)
    ensures r != -1 ==> a in s && b in s
  {
    if |s| < 2 then -1
    else if s[0] == a && s[1] == b then 0
    else
      var t := IndexPair(s[1..], a, b);
      assert forall i: nat | i > 0 :: PairAt(s, a, b, i) <==> PairAt(s[1..], a, b, i - 1);
      if t == -1 then -1 else t + 1
  }

  // The last place where c stands, or -1.
  function LastIndex(s: string, c: char): (r: int)
    ensures r == -1 ==> c !in s
    ensures r != -1 ==> 0 <= r < |s| && s[r] == c && c !in s[r + 1..]
  {
    if s == [] then -1
    else if s[|s| - 1] == c then |s| - 1
    else
      var r := LastIndex(s[..|s| - 1], c);
      assert r != -1 ==> s[r + 1..] == s[..|s| - 1][r + 1..] + [s[|s| - 1]];
      r
  }

  // ---- splitConn ----

  const ARROW := "->"

  function SplitConn(s: string): (string, string) {
    var i := IndexPair(s, '-', '>');
    if i >= 0 then (s[..i], s[i + 2..]) else (s, "")
  }

  predicate HasArrow(s: string) {
    IndexPair(s, '-', '>') != -1
  }

  // Only an arrow inside the left half moves the split.
  lemma SplitUndoesArrow(src: string, dst: string)
    ensures SplitConn(src + ARROW + dst) == (src, dst) <==> !HasArrow(src)
    ensures SplitConn(src) == (src, "") <==> !HasArrow(src)
  {
    var s, i, j := src + ARROW + dst, IndexPair(src + ARROW + dst, '-', '>'), IndexPair(src, '-', '>');
    assert PairAt(s, '-', '>', |src|);
    assert forall k: nat | k + 1 < |src| :: PairAt(s, '-', '>', k) <==> PairAt(src, '-', '>', k);
    if j == -1 {
      assert i == |src|;
      assert s[..i] == src && s[i + 2..] == dst;
    } else {
      assert PairAt(s, '-', '>', j) && i <= j;
      assert |s[..i]| < |src|;
      assert |SplitConn(src).0| < |src|;
    }
  }

  // ---- splitHostPort and joinHostPort ----

  datatype Endpoint = Endpoint(ip: string, port: int)

  function SplitHostPort(s: string): Endpoint {
    if s == "" || s == "*:*" then Endpoint("", 0)
    else if s[0] == '[' then
      var end := IndexPair(s, ']', ':');
      if end < 0 then Endpoint("", 0)
      else assert end > 0; Endpoint(s[1..end], Atoi(s[end + 2..]).value)
    else
      var colon := LastIndex(s, ':');
      if colon < 0 then Endpoint(s, 0)
      else
        Endpoint(if s[..colon] == "*" then "" else s[..colon],
                 if s[colon + 1..] != "*" then Atoi(s[colon + 1..]).value else 0)
  }

  function JoinHostPort(ip: string, port: nat): string {
    if ip == "" then "*:" + Format(port)
    else if ':' in ip then "[" + ip + "]:" + Format(port)
    else ip + ":" + Format(port)
  }

  // What an address must look like for its line to be read back.
  predicate Readable(ip: string) {
    || ip == ""
    || (':' in ip && IndexPair(ip, ']', ':') == -1)
    || (':' !in ip && ip[0] != '[' && ip != "*")
  }

  lemma {:induction false} LastIs(s: string, c: char, r: nat)
    requires r < |s| && s[r] == c && c !in s[r + 1..]
    ensures LastIndex(s, c) == r
  {
    var n := |s| - 1;
    if r < n {
      assert s[n] == s[r + 1..][n - r - 1];
      assert s[..n][r + 1..] == s[r + 1..][..n - r - 1];
      LastIs(s[..n], c, r);
    }
  }

  lemma LastColon(head: string, digits: string)
    requires ':' !in digits
    ensures LastIndex(head + ":" + digits, ':') == |head|
  {
    var s := head + ":" + digits;
    assert s[|head| + 1..] == digits;
    LastIs(s, ':', |head|);
  }

  lemma FirstBracket(ip: string, digits: string)
    requires IndexPair(ip, ']', ':') == -1
    ensures IndexPair("[" + ip + "]:" + digits, ']', ':') == |ip| + 1
  {
    var s := "[" + ip + "]:" + digits;
    assert PairAt(s, ']', ':', |ip| + 1);
    forall k: nat | 1 <= k < |ip|
      ensures !PairAt(s, ']', ':', k)
    {
      assert !PairAt(ip, ']', ':', k - 1);
    }
    assert !PairAt(s, ']', ':', 0) && !PairAt(s, ']', ':', |ip|);
  }

  lemma SplitPlain(head: string, digits: string)
    requires head != "" && head[0] != '['
    requires ':' !in digits && digits != "" && digits[0] != '*'
    ensures SplitHostPort(head + ":" + digits) == Endpoint(if head == "*" then "" else head, Atoi(digits).value)
  {
    var s := head + ":" + digits;
    LastColon(head, digits);
    hide Atoi, LastIndex, IndexPair;
    assert s[0] == head[0] && s[|head| + 1] == digits[0];
    assert s[..|head|] == head;
    assert s[|head| + 1..] == digits;
    if |s| == 3 {
      assert s[2] == digits[0];
    }
    assert digits != "*";
  }

  lemma SplitBracketed(ip: string, digits: string)
    requires IndexPair(ip, ']', ':') == -1
    ensures SplitHostPort("[" + ip + "]:" + digits) == Endpoint(ip, Atoi(digits).value)
  {
    var s := "[" + ip + "]:" + digits;
    FirstBracket(ip, digits);
    hide Atoi, LastIndex, IndexPair;
    assert s[0] == '[';
    assert s[1..|ip| + 1] == ip;
    assert s[|ip| + 3..] == digits;
  }

  lemma FormatIsPlain(n: nat)
    ensures ':' !in Format(n) && Format(n) != "" && Format(n)[0] != '*'
  {
    var s := Format(n);
    assert IsDigit(s[0]);
  }

  lemma ReadableReadsBack(ip: string, port: nat)
    requires port <= MAX_INT && Readable(ip)
    ensures SplitHostPort(JoinHostPort(ip, port)) == Endpoint(ip, port)
  {
    FormatIsPlain(port);
    AtoiOfFormat(port);
    hide Format, Atoi, SplitHostPort, IndexPair;
    if ip == "" {
      SplitPlain("*", Format(port));
      assert "*" + ":" == "*:";
    } else if ':' in ip {
      SplitBracketed(ip, Format(port));
    } else {
      SplitPlain(ip, Format(port));
    }
  }

  // A bracket and colon inside the address end it early.
  lemma CutInside(ip: string, digits: string)
    requires IndexPair(ip, ']', ':') != -1
    ensures |SplitHostPort("[" + ip + "]:" + digits).ip| < |ip|
  {
    var s, j := "[" + ip + "]:" + digits, IndexPair(ip, ']', ':');
    assert PairAt(s, ']', ':', j + 1);
    var end := IndexPair(s, ']', ':');
    hide Atoi, LastIndex, IndexPair;
    assert s[0] == '[' && 0 < end <= j + 1;
    assert |s[1..end]| < |ip|;
  }

  // An address that opens with a bracket is taken for a bracketed one.
  lemma CutAtBracket(ip: string, digits: string)
    requires ip != "" && ip[0] == '[' && ':' !in digits
    ensures |SplitHostPort(ip + ":" + digits).ip| < |ip|
  {
    var s := ip + ":" + digits;
    assert forall k | |ip| < k < |s| :: s[k] == digits[k - |ip| - 1] && s[k] in digits;
    var end := IndexPair(s, ']', ':');
    hide Atoi, LastIndex, IndexPair;
    assert s[0] == '[' && s != "*:*";
    if end >= 0 {
      assert s[end + 1] == ':';
      assert |s[1..end]| < |ip|;
    }
  }

  lemma UnreadableIsLost(ip: string, port: nat)
    requires !Readable(ip)
    ensures SplitHostPort(JoinHostPort(ip, port)).ip != ip
  {
    FormatIsPlain(port);
    hide Format, Atoi, SplitHostPort, IndexPair;
    if ':' in ip {
      CutInside(ip, Format(port));
    } else if ip[0] == '[' {
      CutAtBracket(ip, Format(port));
    } else {
      SplitPlain(ip, Format(port));
    }
  }

  // An address and port survive being printed and read back exactly when the
  // address is readable.
  lemma HostPortReadsBack(ip: string, port: nat)
    requires port <= MAX_INT
    ensures SplitHostPort(JoinHostPort(ip, port)) == Endpoint(ip, port) <==> Readable(ip)
  {
    if Readable(ip) {
      ReadableReadsBack(ip, port);
    } else {
      UnreadableIsLost(ip, port);
    }
  }

  predicate LiteralChar(c: char) {
    IsDigit(c) || 'a' <= c <= 'z' || 'A' <= c <= 'Z' || c == '.' || c == ':' || c == '%'
  }

  // Every wildcard, IPv4 and IPv6 literal is readable, and prints no arrow.
  lemma LiteralsAreReadable(ip: string, port: nat)
    requires port <= MAX_INT && forall c | c in ip :: LiteralChar(c)
    ensures SplitHostPort(JoinHostPort(ip, port)) == Endpoint(ip, port)
    ensures !HasArrow(JoinHostPort(ip, port))
  {
    var s, digits := JoinHostPort(ip, port), Format(port);
    assert ip != "" ==> ip[0] in ip;
    assert ip != "*" by { assert '*' !in ip; }
    HostPortReadsBack(ip, port);
    forall c | c in s
      ensures c != '-'
    {
      assert c in ip || c in digits || c in "[]:*";
    }
  }

  // The forms by example, as printed and as listed.
  lemma FormsByExample()
    ensures JoinHostPort("", 53) == "*:53" && JoinHostPort("127.0.0.1", 80) == "127.0.0.1:80"
    ensures JoinHostPort("fe80::1", 443) == "[fe80::1]:443"
    ensures SplitHostPort("*:*") == SplitHostPort("") == Endpoint("", 0)
  {
    assert Format(5) == "5" && Format(53) == "53";
    assert Format(8) == "8" && Format(80) == "80";
    assert Format(4) == "4" && Format(44) == "44" && Format(443) == "443";
    assert "*:" + "53" == "*:53";
    assert "127.0.0.1" + ":" + "80" == "127.0.0.1:80";
    assert "[" + "fe80::1" + "]:" + "443" == "[fe80::1]:443";
    assert "fe80::1"[4] == ':';
  }

  // ---- The C functions ----

  const IP_CAP := 64
  const INT_MAX: int := 0x7fff_ffff

  // What a buffer for addresses keeps.
  function Kept(s: string): string {
    if |s| >= IP_CAP then s[..IP_CAP - 1] else s
  }

  predicate IsSpace(c: char) {
    c == ' ' || 9 as char <= c <= 13 as char
  }

  function SkipSpaces(s: string): string {
    if s != [] && IsSpace(s[0]) then SkipSpaces(s[1..]) else s
  }

  // The digits that s starts with.
  function Lead(s: string): (p: string)
    ensures forall c | c in p :: IsDigit(c)
  {
    if s != [] && IsDigit(s[0]) then [s[0]] + Lead(s[1..]) else []
  }

  // atoi takes a number off the front and ignores what follows.
  function AtoiC(s: string): int {
    var t := SkipSpaces(s);
    var u := if t != [] && (t[0] == '-' || t[0] == '+') then t[1..] else t;
    if t != [] && t[0] == '-' then 0 - Value(Lead(u)) else Value(Lead(u))
  }

  function SplitHostPortC(s: string): Endpoint {
    if s == "" || s == "*:*" then Endpoint("", 0)
    else if s[0] == '[' then
      var end := IndexPair(s, ']', ':');
      if end < 0 then Endpoint("", 0)
      else assert end > 0; Endpoint(Kept(s[1..end]), AtoiC(s[end + 2..]))
    else
      var colon := LastIndex(s, ':');
      if colon < 0 then Endpoint(Kept(s), 0)
      else
        Endpoint(if Kept(s[..colon]) == "*" then "" else Kept(s[..colon]),
                 if colon + 1 == |s| || s[colon + 1] != '*' then AtoiC(s[colon + 1..]) else 0)
  }

  // What stands where a port is looked for.
  function PortText(s: string): string {
    if s == "" || s == "*:*" then ""
    else if s[0] == '[' then
      var end := IndexPair(s, ']', ':');
      if end < 0 then "" else s[end + 2..]
    else
      var colon := LastIndex(s, ':');
      if colon < 0 then "" else s[colon + 1..]
  }

  lemma {:induction false} LeadOfDigits(s: string)
    requires forall c | c in s :: IsDigit(c)
    ensures Lead(s) == s
  {
    if s != [] {
      LeadOfDigits(s[1..]);
    }
  }

  // On a number in the range of int the two readings agree; otherwise Go reads
  // 0 and C whatever number it finds in front.
  lemma NumbersReadAlike(s: string)
    requires -INT_MAX - 1 <= AtoiC(s) <= INT_MAX
    ensures AtoiC(s) == Atoi(s).value <==> Atoi(s).ok || AtoiC(s) == 0
    ensures Atoi(s).ok ==> AtoiC(s) == Atoi(s).value
  {
    var signed := s != [] && (s[0] == '-' || s[0] == '+');
    var digits := if signed then s[1..] else s;
    if AllDigits(digits) {
      assert IsDigit(digits[0]) && SkipSpaces(s) == s;
      LeadOfDigits(digits);
    }
  }

  lemma StarReadsZero(s: string)
    requires s != "" && s[0] == '*'
    ensures AtoiC(s) == 0 && Atoi(s).value == 0
  {
    assert SkipSpaces(s) == s && Lead(s) == [];
    assert !IsDigit(s[0]);
  }

  lemma KeptWhole(s: string)
    ensures Kept(s) == s <==> |s| < IP_CAP
  {
  }

  // C splits as Go does if and only if the address fits its buffer and the
  // port text is a number, or has none in front.
  lemma PortsSplitAlike(s: string)
    requires -INT_MAX - 1 <= AtoiC(PortText(s)) <= INT_MAX
    ensures SplitHostPortC(s) == SplitHostPort(s) <==>
            |SplitHostPort(s).ip| < IP_CAP && (Atoi(PortText(s)).ok || AtoiC(PortText(s)) == 0)
  {
    var p := PortText(s);
    NumbersReadAlike(p);
    NothingInFront();
    if p != "" && p[0] == '*' {
      StarReadsZero(p);
    }
    hide Atoi, AtoiC, IndexPair, LastIndex;
    if s != "" && s != "*:*" {
      if s[0] == '[' {
        if IndexPair(s, ']', ':') >= 0 {
          KeptWhole(s[1..IndexPair(s, ']', ':')]);
        }
      } else if LastIndex(s, ':') < 0 {
        KeptWhole(s);
      } else {
        KeptWhole(s[..LastIndex(s, ':')]);
      }
    }
  }

  lemma NothingInFront()
    ensures AtoiC("") == 0 && Atoi("").value == 0 && !Atoi("").ok
  {
  }
}
