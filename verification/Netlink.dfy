// Netlink attributes: flat type-length-value lists, nested three deep in a
// conntrack message.
module Netlink {
  import opened Bytes
  import opened Collections

  type AttrMap = map<nat, Data>

  datatype Attr = Attr(typ: nat, payload: Data)

  // Clears the nested and byte-order flags, the top two bits of sixteen.
  function Strip(v: nat): nat {
    v % 0x4000
  }

  // The attributes in front of the first malformed header.
  function ScanAttrs(d: Data): seq<Attr>
    decreases |d|
  {
    if |d| < 4 then []
    else
      var len := Le16(d, 0);
      if len < 4 || len > |d| then []
      else
        var a := Attr(Strip(Le16(d, 2)), d[4..len]);
        if Align(len) > |d| then [a] else [a] + ScanAttrs(d[Align(len)..])
  }

  // Go keeps the last attribute of a type, C the first of the types below 64.
  function LastWins(xs: seq<Attr>): AttrMap {
    if xs == [] then map[]
    else LastWins(xs[..|xs| - 1])[xs[|xs| - 1].typ := xs[|xs| - 1].payload]
  }

  const NLA_MAX_TYPE := 64

  function FirstWins(xs: seq<Attr>): AttrMap {
    if xs == [] then map[]
    else
      var m, a := FirstWins(xs[..|xs| - 1]), xs[|xs| - 1];
      if a.typ < NLA_MAX_TYPE && a.typ !in m then m[a.typ := a.payload] else m
  }

  function GoAttrs(d: Data): AttrMap {
    LastWins(ScanAttrs(d))
  }

  function CAttrs(d: Data): AttrMap {
    FirstWins(ScanAttrs(d))
  }

  method ParseNLAttrs(input: Data) returns (attrs: AttrMap)
    ensures attrs == GoAttrs(input)
  {
    attrs := map[];
    var data := input;
    ghost var seen: seq<Attr> := [];
    NothingBefore(ScanAttrs(input));
    while |data| >= 4
      invariant ScanAttrs(input) == seen + ScanAttrs(data) && attrs == LastWins(seen)
      decreases |data|
    {
      var nlaLen := Le16(data, 0);
      var nlaType := Strip(Le16(data, 2));
      if nlaLen < 4 {
        break;
      }
      if nlaLen > |data| {
        break;
      }
      attrs := attrs[nlaType := data[4..nlaLen]];
      ghost var a := Attr(nlaType, data[4..nlaLen]);
      assert (seen + [a])[..|seen|] == seen;
      var aligned := Align(nlaLen);
      if aligned > |data| {
        seen := seen + [a];
        return;
      }
      Assoc(seen, [a], ScanAttrs(data[aligned..]));
      seen := seen + [a];
      data := data[aligned..];
    }
    NothingBefore(seen);
  }

  datatype Entry = Absent | Present(val: Data)

  // The table parse_nla fills.
  ghost predicate Tabulates(set_: array<Entry>, m: AttrMap)
    reads set_
  {
    && set_.Length == NLA_MAX_TYPE
    && (forall t | t in m :: t < NLA_MAX_TYPE)
    && forall t | 0 <= t < NLA_MAX_TYPE :: set_[t] == if t in m then Present(m[t]) else Absent
  }

  method ParseNla(input: Data) returns (set_: array<Entry>)
    ensures fresh(set_) && Tabulates(set_, CAttrs(input))
  {
    set_ := new Entry[NLA_MAX_TYPE](_ => Absent);
    var data := input;
    ghost var seen: seq<Attr> := [];
    NothingBefore(ScanAttrs(input));
    while |data| >= 4
      invariant ScanAttrs(input) == seen + ScanAttrs(data) && Tabulates(set_, FirstWins(seen))
      decreases |data|
    {
      var nlaLen := Le16(data, 0);
      var nlaType := Strip(Le16(data, 2));
      if nlaLen < 4 {
        break;
      }
      if nlaLen > |data| {
        break;
      }
      ghost var a := Attr(nlaType, data[4..nlaLen]);
      assert (seen + [a])[..|seen|] == seen;
      if nlaType < NLA_MAX_TYPE && set_[nlaType].Absent? {
        set_[nlaType] := Present(data[4..nlaLen]);
      }
      var aligned := Align(nlaLen);
      if aligned > |data| {
        seen := seen + [a];
        return;
      }
      Assoc(seen, [a], ScanAttrs(data[aligned..]));
      seen := seen + [a];
      data := data[aligned..];
    }
    NothingBefore(seen);
  }

  // ---- Which attribute answers for a type ----

  ghost predicate FirstOf(xs: seq<Attr>, t: nat, i: nat) {
    i < |xs| && xs[i].typ == t && forall j | 0 <= j < i :: xs[j].typ != t
  }

  ghost predicate LastOf(xs: seq<Attr>, t: nat, i: nat) {
    i < |xs| && xs[i].typ == t && forall j | i < j < |xs| :: xs[j].typ != t
  }

  lemma {:induction false} LastWinsAt(xs: seq<Attr>, t: nat, i: nat)
    requires LastOf(xs, t, i)
    ensures t in LastWins(xs) && LastWins(xs)[t] == xs[i].payload
  {
    if i < |xs| - 1 {
      assert forall j | i < j < |xs| - 1 :: xs[..|xs| - 1][j] == xs[j];
      LastWinsAt(xs[..|xs| - 1], t, i);
    }
  }

  lemma {:induction false} FirstWinsAt(xs: seq<Attr>, t: nat, i: nat)
    requires FirstOf(xs, t, i) && t < NLA_MAX_TYPE
    ensures t in FirstWins(xs) && FirstWins(xs)[t] == xs[i].payload
  {
    if i < |xs| - 1 {
      assert forall j | 0 <= j < i :: xs[..|xs| - 1][j] == xs[j];
      FirstWinsAt(xs[..|xs| - 1], t, i);
    } else {
      Missing(xs[..i], t);
    }
  }

  lemma {:induction false} Missing(xs: seq<Attr>, t: nat)
    requires forall j | 0 <= j < |xs| :: xs[j].typ != t
    ensures t !in LastWins(xs) && t !in FirstWins(xs)
  {
    if xs != [] {
      Missing(xs[..|xs| - 1], t);
    }
  }

  lemma {:induction false} Ends(xs: seq<Attr>, t: nat, k: nat) returns (first: nat, last: nat)
    requires k < |xs| && xs[k].typ == t
    ensures FirstOf(xs, t, first) && LastOf(xs, t, last)
    decreases |xs|
  {
    var n := |xs| - 1;
    if j :| 0 <= j < n && xs[j].typ == t {
      var l;
      first, l := Ends(xs[..n], t, j);
      last := if xs[n].typ == t then n else l;
      assert forall i | 0 <= i < n :: xs[..n][i] == xs[i];
    } else {
      first, last := n, n;
    }
  }

  // On a type below 64 that occurs, the ports agree exactly when its first and
  // its last occurrence carry the same payload.
  lemma PortsAgreeOn(xs: seq<Attr>, t: nat, i: nat, j: nat)
    requires t < NLA_MAX_TYPE && FirstOf(xs, t, i) && LastOf(xs, t, j)
    ensures t in FirstWins(xs) && t in LastWins(xs)
    ensures FirstWins(xs)[t] == LastWins(xs)[t] <==> xs[i].payload == xs[j].payload
  {
    FirstWinsAt(xs, t, i);
    LastWinsAt(xs, t, j);
  }

  ghost predicate TypesDistinct(xs: seq<Attr>) {
    forall i, j | 0 <= i < j < |xs| :: xs[i].typ != xs[j].typ
  }

  // So when no type repeats, the C table is Go's map below 64.
  lemma PortsAgree(xs: seq<Attr>, t: nat)
    requires t < NLA_MAX_TYPE
    ensures t in FirstWins(xs) <==> t in LastWins(xs)
    ensures TypesDistinct(xs) && t in LastWins(xs) ==> FirstWins(xs)[t] == LastWins(xs)[t]
  {
    if k :| 0 <= k < |xs| && xs[k].typ == t {
      var i, j := Ends(xs, t, k);
      PortsAgreeOn(xs, t, i, j);
    } else {
      Missing(xs, t);
    }
  }

  // ---- Encoding ----

  // An attribute as sent: its type with or without the two flag bits.
  datatype Wire = Wire(typ: nat, nested: bool, netOrder: bool, payload: Data)

  predicate ValidWire(w: Wire) {
    w.typ < 0x4000 && |w.payload| + 4 < 0x10000
  }

  predicate ValidWires(ws: seq<Wire>) {
    forall w | w in ws :: ValidWire(w)
  }

  function Zeros(n: nat): (z: Data)
    ensures |z| == n
  {
    if n == 0 then [] else [0] + Zeros(n - 1)
  }

  function TypeField(w: Wire): (v: nat)
    requires ValidWire(w)
    ensures v < 0x10000 && Strip(v) == w.typ
  {
    w.typ + (if w.nested then 0x8000 else 0) + (if w.netOrder then 0x4000 else 0)
  }

  function EncodeAttr(w: Wire): Data
    requires ValidWire(w)
  {
    PutLe16(|w.payload| + 4) + PutLe16(TypeField(w)) + w.payload
  }

  function Padding(w: Wire): (z: Data)
    ensures |z| == Align(|w.payload| + 4) - (|w.payload| + 4)
  {
    Zeros(Align(|w.payload| + 4) - (|w.payload| + 4))
  }

  // Attributes one after the other, each padded to four bytes; the last one
  // need not be.
  function Encode(ws: seq<Wire>, padLast: bool): Data
    requires ValidWires(ws)
  {
    if ws == [] then []
    else if |ws| == 1 && !padLast then EncodeAttr(ws[0])
    else EncodeAttr(ws[0]) + Padding(ws[0]) + Encode(ws[1..], padLast)
  }

  function Plain(ws: seq<Wire>): seq<Attr> {
    if ws == [] then [] else [Attr(ws[0].typ, ws[0].payload)] + Plain(ws[1..])
  }

  lemma HeaderReads(w: Wire, rest: Data)
    requires ValidWire(w)
    ensures var d := EncodeAttr(w) + rest;
            && |d| >= 4 && Le16(d, 0) == |w.payload| + 4 && Strip(Le16(d, 2)) == w.typ
            && d[4..|w.payload| + 4] == w.payload && d[|w.payload| + 4..] == rest
  {
    var d, len, tf := EncodeAttr(w) + rest, PutLe16(|w.payload| + 4), PutLe16(TypeField(w));
    assert d[0] == len[0] && d[1] == len[1] && d[2] == tf[0] && d[3] == tf[1];
  }

  // Scanning undoes encoding, flags and padding included.
  lemma {:induction false} ScanReadsBack(ws: seq<Wire>, padLast: bool)
    requires ValidWires(ws)
    ensures ScanAttrs(Encode(ws, padLast)) == Plain(ws)
    decreases |ws|
  {
    if ws != [] {
      var w, d := ws[0], Encode(ws, padLast);
      assert w in ws && forall x | x in ws[1..] :: x in ws;
      if |ws| == 1 && !padLast {
        HeaderReads(w, []);
        NothingBefore(EncodeAttr(w));
        assert d[|w.payload| + 4..] == [];
        assert ws[1..] == [];
        ScanLone(w, d);
      } else {
        var rest := Encode(ws[1..], padLast);
        HeaderReads(w, Padding(w) + rest);
        Assoc(EncodeAttr(w), Padding(w), rest);
        assert d[Align(|w.payload| + 4)..] == d[|w.payload| + 4..][|Padding(w)|..] == rest;
        ScanReadsBack(ws[1..], padLast);
      }
    }
  }

  lemma ScanLone(w: Wire, d: Data)
    requires ValidWire(w) && |d| == |w.payload| + 4
    requires Le16(d, 0) == |d| && Strip(Le16(d, 2)) == w.typ && d[4..|d|] == w.payload
    ensures ScanAttrs(d) == [Attr(w.typ, w.payload)]
  {
    if Align(|d|) <= |d| {
      assert d[Align(|d|)..] == [];
    }
  }

  // w is the only attribute of its type.
  ghost predicate Sole(ws: seq<Wire>, t: nat, payload: Data) {
    exists i :: 0 <= i < |ws| && ws[i].typ == t && ws[i].payload == payload &&
                forall j | 0 <= j < |ws| && j != i :: ws[j].typ != t
  }

  ghost predicate Lacks(ws: seq<Wire>, t: nat) {
    forall j | 0 <= j < |ws| :: ws[j].typ != t
  }

  lemma {:induction false} PlainAt(ws: seq<Wire>)
    ensures |Plain(ws)| == |ws|
    ensures forall i | 0 <= i < |ws| :: Plain(ws)[i] == Attr(ws[i].typ, ws[i].payload)
  {
    if ws != [] {
      PlainAt(ws[1..]);
      forall i | 0 <= i < |ws|
        ensures Plain(ws)[i] == Attr(ws[i].typ, ws[i].payload)
      {
        if i > 0 { assert ws[1..][i - 1] == ws[i]; }
      }
    }
  }

  // Both ports read a sole attribute back wherever it stands in the list, and
  // miss one that is not there.
  lemma SoleReadsBack(ws: seq<Wire>, padLast: bool, t: nat, payload: Data)
    requires ValidWires(ws) && t < NLA_MAX_TYPE && Sole(ws, t, payload)
    ensures var d := Encode(ws, padLast);
            && t in GoAttrs(d) && GoAttrs(d)[t] == payload
            && t in CAttrs(d) && CAttrs(d)[t] == payload
  {
    ScanReadsBack(ws, padLast);
    PlainAt(ws);
    var i :| 0 <= i < |ws| && ws[i].typ == t && ws[i].payload == payload &&
             forall j | 0 <= j < |ws| && j != i :: ws[j].typ != t;
    FirstWinsAt(Plain(ws), t, i);
    LastWinsAt(Plain(ws), t, i);
  }

  lemma LacksReadsBack(ws: seq<Wire>, padLast: bool, t: nat)
    requires ValidWires(ws) && Lacks(ws, t)
    ensures var d := Encode(ws, padLast); t !in GoAttrs(d) && t !in CAttrs(d)
  {
    ScanReadsBack(ws, padLast);
    PlainAt(ws);
    Missing(Plain(ws), t);
  }
}
