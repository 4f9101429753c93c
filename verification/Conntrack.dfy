// Conntrack messages: tuples and TCP states out of nested attributes.
module Conntrack {
  import opened Bytes
  import opened Netlink

  const CTA_TUPLE_ORIG := 1
  const CTA_PROTOINFO := 4
  const CTA_TUPLE_IP := 1
  const CTA_TUPLE_PROTO := 2
  const CTA_IPV4_SRC := 1
  const CTA_IPV4_DST := 2
  const CTA_IPV6_SRC := 3
  const CTA_IPV6_DST := 4
  const CTA_PROTO_NUM := 1
  const CTA_PROTO_SRC_PORT := 2
  const CTA_PROTO_DST_PORT := 3
  const CTA_PROTOINFO_TCP := 1
  const CTA_PROTOINFO_TCP_STATE := 1

  datatype Tuple = Tuple(src: Data, dst: Data, sport: nat, dport: nat, proto: nat)

  datatype Parsed = NoTuple | Got(t: Tuple)

  // An address, the sixteen-byte form overriding the four-byte one; empty when
  // neither is there.
  function Address(m: AttrMap, v4: nat, v6: nat): Data {
    if v6 in m && |m[v6]| == 16 then m[v6]
    else if v4 in m && |m[v4]| == 4 then m[v4]
    else []
  }

  function Port(m: AttrMap, t: nat): nat {
    if t in m && |m[t]| >= 2 then Be16(m[t], 0) else 0
  }

  function Number(m: AttrMap): nat {
    if CTA_PROTO_NUM in m && |m[CTA_PROTO_NUM]| >= 1 then m[CTA_PROTO_NUM][0] as nat else 0
  }

  // parseTuple and parse_tuple differ only in how they index attributes.
  function ParseTuple(attrs: Data -> AttrMap, payload: Data, tupleAttr: nat): Parsed {
    var top := attrs(payload);
    if tupleAttr !in top then NoTuple
    else
      var ta := attrs(top[tupleAttr]);
      var ia := if CTA_TUPLE_IP in ta then attrs(ta[CTA_TUPLE_IP]) else map[];
      var pa := if CTA_TUPLE_PROTO in ta then attrs(ta[CTA_TUPLE_PROTO]) else map[];
      var t := Tuple(Address(ia, CTA_IPV4_SRC, CTA_IPV6_SRC), Address(ia, CTA_IPV4_DST, CTA_IPV6_DST),
                     Port(pa, CTA_PROTO_SRC_PORT), Port(pa, CTA_PROTO_DST_PORT),
                     Number(pa));
      if t.src == [] || t.dst == [] then NoTuple else Got(t)
  }

  function ParseTcpState(attrs: Data -> AttrMap, payload: Data): nat {
    var top := attrs(payload);
    if CTA_PROTOINFO !in top then 0
    else
      var pi := attrs(top[CTA_PROTOINFO]);
      if CTA_PROTOINFO_TCP !in pi then 0
      else
        var tcp := attrs(pi[CTA_PROTOINFO_TCP]);
        if CTA_PROTOINFO_TCP_STATE !in tcp || tcp[CTA_PROTOINFO_TCP_STATE] == [] then 0
        else tcp[CTA_PROTOINFO_TCP_STATE][0] as nat
  }

  // ---- How a kernel message carries a tuple ----

  predicate ValidTuple(t: Tuple) {
    && |t.src| == |t.dst| && |t.src| in {4, 16}
    && t.sport < 0x10000 && t.dport < 0x10000 && t.proto < 0x100
  }

  // The three lists of attributes, each in any order, with any flag bits and
  // with any attributes of other types between.
  datatype Message = Message(top: seq<Wire>, tuple: seq<Wire>, ip: seq<Wire>, proto: seq<Wire>, padLast: bool)

  // The kernel's attribute numbers are written out here.
  ghost predicate CarriesAddresses(ip: seq<Wire>, t: Tuple) {
    if |t.src| == 4 then
      Sole(ip, 1, t.src) && Sole(ip, 2, t.dst) && Lacks(ip, 3) && Lacks(ip, 4)
    else
      Sole(ip, 3, t.src) && Sole(ip, 4, t.dst)
  }

  ghost predicate CarriesPorts(proto: seq<Wire>, t: Tuple)
    requires ValidTuple(t)
  {
    Sole(proto, 1, [t.proto as byte]) && Sole(proto, 2, PutBe16(t.sport)) && Sole(proto, 3, PutBe16(t.dport))
  }

  ghost predicate Carries(m: Message, tupleAttr: nat, t: Tuple) {
    && ValidWires(m.top) && ValidWires(m.tuple) && ValidWires(m.ip) && ValidWires(m.proto)
    && ValidTuple(t) && CarriesAddresses(m.ip, t) && CarriesPorts(m.proto, t)
    && Sole(m.tuple, 1, Encode(m.ip, m.padLast))
    && Sole(m.tuple, 2, Encode(m.proto, m.padLast))
    && Sole(m.top, tupleAttr, Encode(m.tuple, m.padLast))
  }

  // attrs is one of the two ports' readings.
  ghost predicate IsPort(attrs: Data -> AttrMap) {
    (forall d :: attrs(d) == GoAttrs(d)) || (forall d :: attrs(d) == CAttrs(d))
  }

  lemma PortReadsSole(attrs: Data -> AttrMap, ws: seq<Wire>, padLast: bool, t: nat, payload: Data)
    requires IsPort(attrs) && ValidWires(ws) && t < NLA_MAX_TYPE && Sole(ws, t, payload)
    ensures var m := attrs(Encode(ws, padLast)); t in m && m[t] == payload
  {
    SoleReadsBack(ws, padLast, t, payload);
  }

  lemma PortMissesLacked(attrs: Data -> AttrMap, ws: seq<Wire>, padLast: bool, t: nat)
    requires IsPort(attrs) && ValidWires(ws) && Lacks(ws, t)
    ensures t !in attrs(Encode(ws, padLast))
  {
    LacksReadsBack(ws, padLast, t);
  }

  lemma AddressesReadBack(attrs: Data -> AttrMap, ip: seq<Wire>, padLast: bool, t: Tuple)
    requires IsPort(attrs) && ValidWires(ip) && ValidTuple(t) && CarriesAddresses(ip, t)
    ensures var m := attrs(Encode(ip, padLast));
            Address(m, CTA_IPV4_SRC, CTA_IPV6_SRC) == t.src && Address(m, CTA_IPV4_DST, CTA_IPV6_DST) == t.dst
  {
    if |t.src| == 4 {
      PortReadsSole(attrs, ip, padLast, CTA_IPV4_SRC, t.src);
      PortReadsSole(attrs, ip, padLast, CTA_IPV4_DST, t.dst);
      PortMissesLacked(attrs, ip, padLast, CTA_IPV6_SRC);
      PortMissesLacked(attrs, ip, padLast, CTA_IPV6_DST);
    } else {
      PortReadsSole(attrs, ip, padLast, CTA_IPV6_SRC, t.src);
      PortReadsSole(attrs, ip, padLast, CTA_IPV6_DST, t.dst);
    }
  }

  lemma PortsReadBack(attrs: Data -> AttrMap, proto: seq<Wire>, padLast: bool, t: Tuple)
    requires IsPort(attrs) && ValidWires(proto) && ValidTuple(t) && CarriesPorts(proto, t)
    ensures var m := attrs(Encode(proto, padLast));
            && Port(m, CTA_PROTO_SRC_PORT) == t.sport && Port(m, CTA_PROTO_DST_PORT) == t.dport
            && CTA_PROTO_NUM in m && m[CTA_PROTO_NUM] == [t.proto as byte]
  {
    PortReadsSole(attrs, proto, padLast, CTA_PROTO_NUM, [t.proto as byte]);
    PortReadsSole(attrs, proto, padLast, CTA_PROTO_SRC_PORT, PutBe16(t.sport));
    PortReadsSole(attrs, proto, padLast, CTA_PROTO_DST_PORT, PutBe16(t.dport));
  }

  // Three levels deep, in any order and with any flags: both ports read back
  // exactly the tuple sent, for IPv4 and IPv6 alike.
  lemma TupleReadsBack(attrs: Data -> AttrMap, m: Message, tupleAttr: nat, t: Tuple)
    requires IsPort(attrs) && tupleAttr < NLA_MAX_TYPE && Carries(m, tupleAttr, t)
    ensures ParseTuple(attrs, Encode(m.top, m.padLast), tupleAttr) == Got(t)
  {
    hide Address, Port, Encode, Sole, CarriesAddresses, CarriesPorts, GoAttrs, CAttrs;
    PortReadsSole(attrs, m.top, m.padLast, tupleAttr, Encode(m.tuple, m.padLast));
    PortReadsSole(attrs, m.tuple, m.padLast, CTA_TUPLE_IP, Encode(m.ip, m.padLast));
    PortReadsSole(attrs, m.tuple, m.padLast, CTA_TUPLE_PROTO, Encode(m.proto, m.padLast));
    AddressesReadBack(attrs, m.ip, m.padLast, t);
    PortsReadBack(attrs, m.proto, m.padLast, t);
  }

  // The TCP state, also three levels deep.
  lemma TcpStateReadsBack(attrs: Data -> AttrMap, top: seq<Wire>, info: seq<Wire>, tcp: seq<Wire>, padLast: bool, state: byte)
    requires IsPort(attrs) && ValidWires(top) && ValidWires(info) && ValidWires(tcp)
    requires Sole(tcp, 1, [state])
    requires Sole(info, 1, Encode(tcp, padLast))
    requires Sole(top, 4, Encode(info, padLast))
    ensures ParseTcpState(attrs, Encode(top, padLast)) == state as nat
  {
    hide Encode, Sole, GoAttrs, CAttrs;
    PortReadsSole(attrs, top, padLast, CTA_PROTOINFO, Encode(info, padLast));
    PortReadsSole(attrs, info, padLast, CTA_PROTOINFO_TCP, Encode(tcp, padLast));
    PortReadsSole(attrs, tcp, padLast, CTA_PROTOINFO_TCP_STATE, [state]);
  }

  // ---- The parsers, call by call ----

  lemma EmptyMap()
    ensures Address(map[], CTA_IPV4_SRC, CTA_IPV6_SRC) == [] && Address(map[], CTA_IPV4_DST, CTA_IPV6_DST) == []
    ensures Port(map[], CTA_PROTO_SRC_PORT) == 0 && Port(map[], CTA_PROTO_DST_PORT) == 0 && Number(map[]) == 0
  {
  }

  method GoParseTuple(payload: Data, tupleAttr: nat) returns (r: Parsed)
    ensures r == ParseTuple(GoAttrs, payload, tupleAttr)
  {
    hide GoAttrs, Address, Port;
    var top := ParseNLAttrs(payload);
    if tupleAttr !in top {
      return NoTuple;
    }
    var ta := ParseNLAttrs(top[tupleAttr]);
    EmptyMap();
    var t := Tuple([], [], 0, 0, 0);
    if CTA_TUPLE_IP in ta {
      var src, dst := GoAddresses(ta[CTA_TUPLE_IP]);
      t := t.(src := src, dst := dst);
    }
    if CTA_TUPLE_PROTO in ta {
      var proto, sport, dport := GoPorts(ta[CTA_TUPLE_PROTO]);
      t := t.(proto := proto, sport := sport, dport := dport);
    }
    if t.src == [] || t.dst == [] {
      return NoTuple;
    }
    return Got(t);
  }

  method GoAddresses(data: Data) returns (src: Data, dst: Data)
    ensures src == Address(GoAttrs(data), CTA_IPV4_SRC, CTA_IPV6_SRC)
    ensures dst == Address(GoAttrs(data), CTA_IPV4_DST, CTA_IPV6_DST)
  {
    hide GoAttrs;
    src, dst := [], [];
    var ia := ParseNLAttrs(data);
    if CTA_IPV4_SRC in ia && |ia[CTA_IPV4_SRC]| == 4 {
      src := ia[CTA_IPV4_SRC];
    }
    if CTA_IPV4_DST in ia && |ia[CTA_IPV4_DST]| == 4 {
      dst := ia[CTA_IPV4_DST];
    }
    if CTA_IPV6_SRC in ia && |ia[CTA_IPV6_SRC]| == 16 {
      src := ia[CTA_IPV6_SRC];
    }
    if CTA_IPV6_DST in ia && |ia[CTA_IPV6_DST]| == 16 {
      dst := ia[CTA_IPV6_DST];
    }
  }

  method GoPorts(data: Data) returns (proto: nat, sport: nat, dport: nat)
    ensures proto == Number(GoAttrs(data))
    ensures sport == Port(GoAttrs(data), CTA_PROTO_SRC_PORT) && dport == Port(GoAttrs(data), CTA_PROTO_DST_PORT)
  {
    hide GoAttrs;
    proto, sport, dport := 0, 0, 0;
    var pa := ParseNLAttrs(data);
    if CTA_PROTO_NUM in pa && |pa[CTA_PROTO_NUM]| >= 1 {
      proto := pa[CTA_PROTO_NUM][0] as nat;
    }
    if CTA_PROTO_SRC_PORT in pa && |pa[CTA_PROTO_SRC_PORT]| >= 2 {
      sport := Be16(pa[CTA_PROTO_SRC_PORT], 0);
    }
    if CTA_PROTO_DST_PORT in pa && |pa[CTA_PROTO_DST_PORT]| >= 2 {
      dport := Be16(pa[CTA_PROTO_DST_PORT], 0);
    }
  }

  method CParseTuple(payload: Data, tupleAttr: nat) returns (r: Parsed)
    ensures r == ParseTuple(CAttrs, payload, tupleAttr)
  {
    hide CAttrs, Address, Port;
    var top := ParseNla(payload);
    if tupleAttr >= NLA_MAX_TYPE || top[tupleAttr].Absent? {
      return NoTuple;
    }
    var ta := ParseNla(top[tupleAttr].val);
    EmptyMap();
    var t := Tuple([], [], 0, 0, 0);
    if ta[CTA_TUPLE_IP].Present? {
      var src, dst := CAddresses(ta[CTA_TUPLE_IP].val);
      t := t.(src := src, dst := dst);
    }
    if ta[CTA_TUPLE_PROTO].Present? {
      var proto, sport, dport := CPorts(ta[CTA_TUPLE_PROTO].val);
      t := t.(proto := proto, sport := sport, dport := dport);
    }
    if t.src == [] || t.dst == [] {
      return NoTuple;
    }
    return Got(t);
  }

  method CAddresses(data: Data) returns (src: Data, dst: Data)
    ensures src == Address(CAttrs(data), CTA_IPV4_SRC, CTA_IPV6_SRC)
    ensures dst == Address(CAttrs(data), CTA_IPV4_DST, CTA_IPV6_DST)
  {
    hide CAttrs;
    src, dst := [], [];
    var ia := ParseNla(data);
    if ia[CTA_IPV4_SRC].Present? && |ia[CTA_IPV4_SRC].val| == 4 {
      src := ia[CTA_IPV4_SRC].val;
    }
    if ia[CTA_IPV4_DST].Present? && |ia[CTA_IPV4_DST].val| == 4 {
      dst := ia[CTA_IPV4_DST].val;
    }
    if ia[CTA_IPV6_SRC].Present? && |ia[CTA_IPV6_SRC].val| == 16 {
      src := ia[CTA_IPV6_SRC].val;
    }
    if ia[CTA_IPV6_DST].Present? && |ia[CTA_IPV6_DST].val| == 16 {
      dst := ia[CTA_IPV6_DST].val;
    }
  }

  method CPorts(data: Data) returns (proto: nat, sport: nat, dport: nat)
    ensures proto == Number(CAttrs(data))
    ensures sport == Port(CAttrs(data), CTA_PROTO_SRC_PORT) && dport == Port(CAttrs(data), CTA_PROTO_DST_PORT)
  {
    hide CAttrs;
    proto, sport, dport := 0, 0, 0;
    var pa := ParseNla(data);
    if pa[CTA_PROTO_NUM].Present? && |pa[CTA_PROTO_NUM].val| >= 1 {
      proto := pa[CTA_PROTO_NUM].val[0] as nat;
    }
    if pa[CTA_PROTO_SRC_PORT].Present? && |pa[CTA_PROTO_SRC_PORT].val| >= 2 {
      sport := Be16(pa[CTA_PROTO_SRC_PORT].val, 0);
    }
    if pa[CTA_PROTO_DST_PORT].Present? && |pa[CTA_PROTO_DST_PORT].val| >= 2 {
      dport := Be16(pa[CTA_PROTO_DST_PORT].val, 0);
    }
  }

  method GoParseTcpState(payload: Data) returns (s: nat)
    ensures s == ParseTcpState(GoAttrs, payload)
  {
    var top := ParseNLAttrs(payload);
    if CTA_PROTOINFO !in top {
      return 0;
    }
    var pi := ParseNLAttrs(top[CTA_PROTOINFO]);
    if CTA_PROTOINFO_TCP !in pi {
      return 0;
    }
    var tcp := ParseNLAttrs(pi[CTA_PROTOINFO_TCP]);
    if CTA_PROTOINFO_TCP_STATE !in tcp || |tcp[CTA_PROTOINFO_TCP_STATE]| < 1 {
      return 0;
    }
    return tcp[CTA_PROTOINFO_TCP_STATE][0] as nat;
  }

  method CParseTcpState(payload: Data) returns (s: nat)
    ensures s == ParseTcpState(CAttrs, payload)
  {
    var top := ParseNla(payload);
    if top[CTA_PROTOINFO].Absent? {
      return 0;
    }
    var pi := ParseNla(top[CTA_PROTOINFO].val);
    if pi[CTA_PROTOINFO_TCP].Absent? {
      return 0;
    }
    var tcp := ParseNla(pi[CTA_PROTOINFO_TCP].val);
    if tcp[CTA_PROTOINFO_TCP_STATE].Absent? || |tcp[CTA_PROTOINFO_TCP_STATE].val| < 1 {
      return 0;
    }
    return tcp[CTA_PROTOINFO_TCP_STATE].val[0] as nat;
  }
}
