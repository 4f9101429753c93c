// Matching responses to the queries in flight.
module DnsPending {
  import opened Collections
  import opened Ledger
  import opened Bytes
  import opened DnsMessage
  import opened SlotArray
  import ProcCache

  const DNS_PORT := 53

  // A parsed packet, when it came, and for a query who owns its source port
  // and when that was known.
  datatype Packet = Packet(msg: Msg, src: nat, dst: nat, now: nat, owner: ProcCache.Owner, known: nat)

  datatype Query = Query(name: seq<byte>, qtype: nat, owner: ProcCache.Owner)

  datatype Pending = Pending(query: Query, sent: nat)

  datatype Emission = Emission(query: Query, answers: seq<Answer>, rcode: nat, latency: int)

  type Table = map<nat, Pending>

  predicate IsQuery(m: Msg) {
    m.flags / 0x8000 % 2 == 0
  }

  // Queries towards and responses from the DNS port.
  predicate Relevant(p: Packet) {
    if IsQuery(p.msg) then p.dst == DNS_PORT else p.src == DNS_PORT
  }

  // Go dates a query when it comes, C when its owner is known.
  function Asked(impl: Impl, p: Packet): Pending {
    Pending(Query(p.msg.question, p.msg.qtype, p.owner), if impl.Go? then p.now else p.known)
  }

  function Answered(q: Pending, p: Packet): Emission {
    Emission(q.query, p.msg.answers, p.msg.flags % 16, p.now - q.sent)
  }

  datatype State = State(pending: Table, out: seq<Emission>)

  // What the event loop does with one packet; wanted is the display filter.
  function Receive(impl: Impl, wanted: Query -> bool, s: State, p: Packet): State {
    var id := p.msg.id;
    if !Relevant(p) then s
    else if IsQuery(p.msg) then s.(pending := s.pending[id := Asked(impl, p)])
    else if id !in s.pending then s
    else State(s.pending - {id}, s.out + if wanted(s.pending[id].query) then [Answered(s.pending[id], p)] else [])
  }

  function Run(impl: Impl, wanted: Query -> bool, ps: seq<Packet>): State {
    if ps == [] then State(map[], []) else Receive(impl, wanted, Run(impl, wanted, ps[..|ps| - 1]), ps[|ps| - 1])
  }

  // ---- The run as a ledger ----

  function Kept(ps: seq<Packet>): seq<Packet> {
    if ps == [] then []
    else Kept(ps[..|ps| - 1]) + if Relevant(ps[|ps| - 1]) then [ps[|ps| - 1]] else []
  }

  function EventOf(impl: Impl, p: Packet): Event<nat, Pending> {
    if IsQuery(p.msg) then Open(p.msg.id, Asked(impl, p)) else Close(p.msg.id)
  }

  function Events(impl: Impl, ps: seq<Packet>): (es: seq<Event<nat, Pending>>)
    ensures |es| == |ps|
  {
    if ps == [] then [] else Events(impl, ps[..|ps| - 1]) + [EventOf(impl, ps[|ps| - 1])]
  }

  // What a list of matched queries shows, given the packets of the run.
  function Shown(wanted: Query -> bool, ps: seq<Packet>, cs: seq<Closing<nat, Pending>>): seq<Emission>
    requires forall c | c in cs :: c.closeAt < |ps|
  {
    if cs == [] then []
    else
      var c := cs[|cs| - 1];
      Shown(wanted, ps, cs[..|cs| - 1]) + if wanted(c.val.query) then [Answered(c.val, ps[c.closeAt])] else []
  }

  lemma {:induction false} ShownMorePackets(wanted: Query -> bool, ps: seq<Packet>, p: Packet, cs: seq<Closing<nat, Pending>>)
    requires forall c | c in cs :: c.closeAt < |ps|
    ensures Shown(wanted, ps + [p], cs) == Shown(wanted, ps, cs)
  {
    if cs != [] {
      assert cs[|cs| - 1] in cs;
      ShownMorePackets(wanted, ps, p, cs[..|cs| - 1]);
    }
  }

  lemma ShownMore(wanted: Query -> bool, ps: seq<Packet>, cs: seq<Closing<nat, Pending>>, c: Closing<nat, Pending>)
    requires forall x | x in cs + [c] :: x.closeAt < |ps|
    ensures forall x | x in cs :: x.closeAt < |ps|
    ensures c.closeAt < |ps|
    ensures Shown(wanted, ps, cs + [c]) ==
            Shown(wanted, ps, cs) + if wanted(c.val.query) then [Answered(c.val, ps[c.closeAt])] else []
  {
    assert c in cs + [c] && forall x | x in cs :: x in cs + [c];
    assert (cs + [c])[..|cs|] == cs;
  }

  lemma ClosingsInRun(es: seq<Event<nat, Pending>>)
    ensures forall c | c in Closings(es) :: c.closeAt < |es|
  {
    ClosingsAreLives(es);
  }

  lemma EventsMore(impl: Impl, ps: seq<Packet>, p: Packet)
    ensures Events(impl, ps + [p]) == Events(impl, ps) + [EventOf(impl, p)]
  {
    assert (ps + [p])[..|ps|] == ps;
  }

  lemma LedgerMore(es: seq<Event<nat, Pending>>, e: Event<nat, Pending>)
    ensures Replay(es + [e]) == Apply(Replay(es), e)
    ensures Closings(es + [e]) == Closings(es) +
              if e.Close? && e.key in Replay(es) then [Closing(e.key, Replay(es)[e.key], LastIndex(es, e.key), |es|)] else []
  {
    assert (es + [e])[..|es|] == es;
  }

  // The state is what the ledger of the packets kept says.
  ghost predicate Matches(impl: Impl, wanted: Query -> bool, s: State, ps: seq<Packet>) {
    ClosingsInRun(Events(impl, ps));
    s.pending == Replay(Events(impl, ps)) && s.out == Shown(wanted, ps, Closings(Events(impl, ps)))
  }

  // One more match shown, or none.
  lemma ShownStep(wanted: Query -> bool, ps: seq<Packet>, p: Packet, cs: seq<Closing<nat, Pending>>, more: seq<Closing<nat, Pending>>)
    requires (forall c | c in cs :: c.closeAt < |ps|) && (forall c | c in cs + more :: c.closeAt <= |ps|)
    requires |more| <= 1 && forall c | c in more :: c.closeAt == |ps|
    ensures Shown(wanted, ps + [p], cs + more) == Shown(wanted, ps, cs) +
              if more != [] && wanted(more[0].val.query) then [Answered(more[0].val, p)] else []
  {
    ShownMorePackets(wanted, ps, p, cs);
    if more == [] {
      NothingBefore(cs);
      NothingBefore(Shown(wanted, ps, cs));
    } else {
      assert more == [more[0]];
      ShownMore(wanted, ps + [p], cs, more[0]);
    }
  }

  // One relevant packet more.
  lemma KeptStep(impl: Impl, wanted: Query -> bool, s: State, ps: seq<Packet>, p: Packet)
    requires Relevant(p) && Matches(impl, wanted, s, ps)
    ensures Matches(impl, wanted, Receive(impl, wanted, s, p), ps + [p])
  {
    var es, e := Events(impl, ps), EventOf(impl, p);
    var cs := Closings(es);
    EventsMore(impl, ps, p);
    ClosingsInRun(es);
    ClosingsInRun(es + [e]);
    LedgerMore(es, e);
    hide Closings, Replay, Events, LastIndex, Shown;
    if e.Close? && e.key in s.pending {
      ShownStep(wanted, ps, p, cs, [Closing(e.key, s.pending[e.key], LastIndex(es, e.key), |es|)]);
    } else {
      ShownStep(wanted, ps, p, cs, []);
      NotThere(s.pending, p.msg.id);
    }
    NothingBefore(s.out);
  }

  lemma NotThere<K, V>(m: map<K, V>, k: K)
    ensures k !in m ==> m - {k} == m
  {
    if k !in m {
      SameMap(m - {k}, m);
    }
  }

  // Over every run, in order: one report for each query answered (an opening
  // and the next packet about its id, a response), carrying the query, type
  // and owner of the latest query with that id and the answers of the
  // response; no query is reported twice (ClosingsAreLives).
  lemma {:induction false} ReportsMatchQueries(impl: Impl, wanted: Query -> bool, ps: seq<Packet>)
    ensures Matches(impl, wanted, Run(impl, wanted, ps), Kept(ps))
  {
    if ps != [] {
      var before, p := ps[..|ps| - 1], ps[|ps| - 1];
      ReportsMatchQueries(impl, wanted, before);
      hide Matches, Relevant, Receive;
      if Relevant(p) {
        KeptStep(impl, wanted, Run(impl, wanted, before), Kept(before), p);
      } else {
        NothingBefore(Kept(before));
        Unmoved(impl, wanted, Run(impl, wanted, before), p);
      }
    }
  }

  lemma Unmoved(impl: Impl, wanted: Query -> bool, s: State, p: Packet)
    requires !Relevant(p)
    ensures Receive(impl, wanted, s, p) == s
  {
  }

  // ---- Which packets match, from the packets alone ----

  // A query towards port 53.
  predicate Asks(p: Packet) {
    p.msg.flags < 0x8000 && p.dst == 53
  }

  // A response from port 53.
  predicate Responds(p: Packet) {
    0x8000 <= p.msg.flags < 0x1_0000 && p.src == 53
  }

  // These are the packets kept.
  lemma KeptAreThese(p: Packet)
    requires p.msg.flags < 0x1_0000
    ensures Relevant(p) <==> Asks(p) || Responds(p)
    ensures Relevant(p) ==> (IsQuery(p.msg) <==> Asks(p)) && (!IsQuery(p.msg) <==> Responds(p))
  {
    assert IsQuery(p.msg) <==> p.msg.flags < 0x8000;
    hide IsQuery;
  }

  predicate Headers(ps: seq<Packet>) {
    forall p | p in ps :: p.msg.flags < 0x1_0000
  }

  // Packet i of ps asks under id and nothing about id follows.
  ghost predicate InFlight(ps: seq<Packet>, id: nat, i: nat) {
    && i < |ps| && Asks(ps[i]) && ps[i].msg.id == id
    && forall k | i < k < |ps| && ps[k].msg.id == id :: !Asks(ps[k]) && !Responds(ps[k])
  }

  lemma OneInFlight(ps: seq<Packet>, id: nat, i: nat, j: nat)
    requires InFlight(ps, id, i) && InFlight(ps, id, j)
    ensures i == j
  {
  }

  lemma InFlightMore(ps: seq<Packet>, p: Packet, id: nat, i: nat)
    ensures InFlight(ps + [p], id, i) <==>
            if p.msg.id == id && Asks(p) then i == |ps|
            else InFlight(ps, id, i) && !(p.msg.id == id && Responds(p))
  {
    var qs := ps + [p];
    assert qs[|ps|] == p && forall k | 0 <= k < |ps| :: qs[k] == ps[k];
    hide Asks, Responds;
    if i < |ps| && InFlight(qs, id, i) {
      assert forall k | i < k < |ps| :: qs[k] == ps[k];
    }
  }

  // What the packet asks for.
  function QueryOf(p: Packet): Query {
    Query(p.msg.question, p.msg.qtype, p.owner)
  }

  function SentAt(impl: Impl, p: Packet): nat {
    if impl.Go? then p.now else p.known
  }

  // The pending queries are those in flight.
  ghost predicate PendingLaw(impl: Impl, pending: Table, ps: seq<Packet>) {
    forall k: nat :: PendingFor(impl, pending, ps, k)
  }

  // What one more packet prints: a report of the query in flight under its id,
  // if it responds to one that is wanted.
  ghost predicate ReportLaw(impl: Impl, wanted: Query -> bool, ps: seq<Packet>, p: Packet, out: seq<Emission>) {
    if Responds(p) && exists i: nat :: InFlight(ps, p.msg.id, i) then
      forall i: nat | InFlight(ps, p.msg.id, i) ::
        out == if wanted(QueryOf(ps[i]))
               then [Emission(QueryOf(ps[i]), p.msg.answers, p.msg.flags % 16, p.now - SentAt(impl, ps[i]))]
               else []
    else out == []
  }

  lemma ReceiveLaw(impl: Impl, wanted: Query -> bool, s: State, p: Packet)
    requires p.msg.flags < 0x1_0000
    ensures var s', id := Receive(impl, wanted, s, p), p.msg.id;
            if Asks(p) then s' == s.(pending := s.pending[id := Pending(QueryOf(p), SentAt(impl, p))])
            else if Responds(p) && id in s.pending then
              var q := s.pending[id];
              && s'.pending == s.pending - {id}
              && s'.out == s.out + if wanted(q.query) then [Emission(q.query, p.msg.answers, p.msg.flags % 16, p.now - q.sent)] else []
            else s' == s
    ensures !(Asks(p) && Responds(p))
  {
    assert IsQuery(p.msg) <==> p.msg.flags < 0x8000;
    hide IsQuery;
  }

  // What is in flight under k after p.
  ghost predicate FlightLaw(ps: seq<Packet>, p: Packet, k: nat) {
    forall i: nat ::
      InFlight(ps + [p], k, i) <==>
      if p.msg.id == k && Asks(p) then i == |ps| else InFlight(ps, k, i) && !(p.msg.id == k && Responds(p))
  }

  lemma FlightMore(ps: seq<Packet>, p: Packet, k: nat)
    ensures FlightLaw(ps, p, k)
  {
    forall i: nat
      ensures InFlight(ps + [p], k, i) <==>
              if p.msg.id == k && Asks(p) then i == |ps| else InFlight(ps, k, i) && !(p.msg.id == k && Responds(p))
    {
      InFlightMore(ps, p, k, i);
    }
  }

  // What is pending under k is in flight.
  ghost predicate PendingFor(impl: Impl, pending: Table, ps: seq<Packet>, k: nat) {
    && (k in pending ==> exists i: nat :: InFlight(ps, k, i))
    && (forall i: nat | InFlight(ps, k, i) :: k in pending && pending[k] == Pending(QueryOf(ps[i]), SentAt(impl, ps[i])))
  }

  lemma PendingMore(impl: Impl, wanted: Query -> bool, s: State, ps: seq<Packet>, p: Packet, k: nat)
    requires PendingFor(impl, s.pending, ps, k) && p.msg.flags < 0x1_0000
    ensures PendingFor(impl, Receive(impl, wanted, s, p).pending, ps + [p], k)
  {
    ReceiveLaw(impl, wanted, s, p);
    FlightMore(ps, p, k);
    assert (ps + [p])[|ps|] == p && forall i | 0 <= i < |ps| :: (ps + [p])[i] == ps[i];
    assert forall i: nat | InFlight(ps, k, i) :: i < |ps|;
    hide Receive, Asks, Responds, InFlight, QueryOf;
    if k == p.msg.id && Asks(p) {
      assert InFlight(ps + [p], k, |ps|);
    } else if k in s.pending && !(k == p.msg.id && Responds(p)) {
      var i: nat :| InFlight(ps, k, i);
      assert InFlight(ps + [p], k, i);
    }
  }

  lemma PacketLaw(impl: Impl, wanted: Query -> bool, s: State, ps: seq<Packet>, p: Packet)
    requires PendingLaw(impl, s.pending, ps) && p.msg.flags < 0x1_0000
    ensures s.out <= Receive(impl, wanted, s, p).out
    ensures PendingLaw(impl, Receive(impl, wanted, s, p).pending, ps + [p])
    ensures ReportLaw(impl, wanted, ps, p, Receive(impl, wanted, s, p).out[|s.out|..])
  {
    hide Receive, InFlight, Asks, Responds;
    ReceiveLaw(impl, wanted, s, p);
    assert PendingFor(impl, s.pending, ps, p.msg.id);
    NothingBefore(s.out);
    hide PendingFor;
    forall k: nat
      ensures PendingFor(impl, Receive(impl, wanted, s, p).pending, ps + [p], k)
    {
      PendingMore(impl, wanted, s, ps, p, k);
    }
  }

  // Over every run, packet by packet: a response from port 53 whose id has a
  // query towards port 53 in flight gives one report if wanted, with the
  // question, type and owner of that query, the answers and code of the
  // response, and the time in between; no other packet gives any.
  lemma {:induction false} RunsReportLaw(impl: Impl, wanted: Query -> bool, ps: seq<Packet>)
    requires Headers(ps)
    ensures PendingLaw(impl, Run(impl, wanted, ps).pending, ps)
    ensures ps != [] ==>
              var before, p := ps[..|ps| - 1], ps[|ps| - 1];
              && Run(impl, wanted, before).out <= Run(impl, wanted, ps).out
              && ReportLaw(impl, wanted, before, p, Run(impl, wanted, ps).out[|Run(impl, wanted, before).out|..])
  {
    if ps != [] {
      var before, p := ps[..|ps| - 1], ps[|ps| - 1];
      assert p in ps && before + [p] == ps && forall q | q in before :: q in ps;
      RunsReportLaw(impl, wanted, before);
      hide Receive, PendingLaw, ReportLaw;
      PacketLaw(impl, wanted, Run(impl, wanted, before), before, p);
    }
  }

  // ---- What the dating changes ----

  // The same pending queries, and the same reports, up to when queries were
  // dated.
  ghost predicate AlikeButDated(a: State, b: State) {
    && a.pending.Keys == b.pending.Keys
    && (forall id | id in a.pending :: a.pending[id].query == b.pending[id].query)
    && |a.out| == |b.out|
    && forall i | 0 <= i < |a.out| :: a.out[i] == b.out[i].(latency := a.out[i].latency)
  }

  lemma ReceiveAlike(wanted: Query -> bool, a: State, b: State, p: Packet)
    requires AlikeButDated(a, b)
    ensures AlikeButDated(Receive(Go, wanted, a, p), Receive(C, wanted, b, p))
  {
  }

  // Over every run the ports report the same but for the latencies.
  lemma {:induction false} PortsReportAlike(wanted: Query -> bool, ps: seq<Packet>)
    ensures AlikeButDated(Run(Go, wanted, ps), Run(C, wanted, ps))
    ensures (forall p | p in ps :: p.known == p.now) ==> Run(Go, wanted, ps) == Run(C, wanted, ps)
  {
    if ps != [] {
      var before, p := ps[..|ps| - 1], ps[|ps| - 1];
      PortsReportAlike(wanted, before);
      ReceiveAlike(wanted, Run(Go, wanted, before), Run(C, wanted, before), p);
      assert p in ps && forall q | q in before :: q in ps;
    }
  }

  lemma OneMatch(impl: Impl, wanted: Query -> bool, q: Packet, r: Packet)
    requires Relevant(q) && IsQuery(q.msg) && Relevant(r) && !IsQuery(r.msg) && r.msg.id == q.msg.id
    requires wanted(Asked(impl, q).query)
    ensures Run(impl, wanted, [q, r]).out == [Answered(Asked(impl, q), r)]
  {
    assert [q, r][..1] == [q] && [q][..0] == [];
    hide Relevant, IsQuery;
    var none: State := State(map[], []);
    assert Run(impl, wanted, []) == none;
    assert Run(impl, wanted, [q]) == Receive(impl, wanted, none, q);
    assert Run(impl, wanted, [q, r]) == Receive(impl, wanted, Run(impl, wanted, [q]), r);
  }

  // A matched query is younger in C by the length of its lookup.
  lemma LatenciesDiffer(wanted: Query -> bool, q: Packet, r: Packet)
    requires Asks(q) && Responds(r) && r.msg.id == q.msg.id && wanted(QueryOf(q))
    ensures var g, c := Run(Go, wanted, [q, r]).out, Run(C, wanted, [q, r]).out;
            |g| == |c| == 1 && g[0].latency - c[0].latency == q.known - q.now
  {
    hide Run, Relevant, IsQuery;
    KeptAreThese(q);
    KeptAreThese(r);
    OneMatch(Go, wanted, q, r);
    OneMatch(C, wanted, q, r);
  }

  // ---- The two event loops ----

  class GoLoop {
    const wanted: Query -> bool
    var pending: Table
    var out: seq<Emission>

    constructor (wanted: Query -> bool)
      ensures this.wanted == wanted && State(pending, out) == Run(Go, wanted, [])
    {
      this.wanted, pending, out := wanted, map[], [];
    }

    method OnPacket(p: Packet)
      modifies this
      ensures State(pending, out) == Receive(Go, wanted, old(State(pending, out)), p)
    {
      var id, isQuery := p.msg.id, p.msg.flags / 0x8000 % 2 == 0;
      if isQuery && p.dst == DNS_PORT {
        pending := pending[id := Asked(Go, p)];
      } else if !isQuery && p.src == DNS_PORT {
        if id !in pending {
          return;
        }
        var ev := pending[id];
        pending := pending - {id};
        if wanted(ev.query) {
          out := out + [Answered(ev, p)];
        }
      }
    }
  }

  class CLoop {
    const wanted: Query -> bool
    const pending: array<Slot<Pending>>
    var out: seq<Emission>

    constructor (wanted: Query -> bool, ids: nat)
      ensures fresh(pending) && pending.Length == ids
      ensures this.wanted == wanted && State(Held(pending[..]), out) == Run(C, wanted, [])
    {
      this.wanted, out := wanted, [];
      pending := new Slot<Pending>[ids](_ => Empty);
      new;
      NothingHeld(pending[..]);
    }

    method OnPacket(p: Packet)
      requires p.msg.id < pending.Length
      modifies this, pending
      ensures State(Held(pending[..]), out) == Receive(C, wanted, old(State(Held(pending[..]), out)), p)
    {
      var id, isQuery := p.msg.id, p.msg.flags / 0x8000 % 2 == 0;
      if isQuery && p.dst == DNS_PORT {
        HeldSet(pending[..], id, Asked(C, p));
        pending[id] := Set(Asked(C, p));
      } else if !isQuery && p.src == DNS_PORT {
        var e := pending[id];
        if e.Set? {
          HeldClear(pending[..], id);
          pending[id] := Empty;
          if wanted(e.e.query) {
            out := out + [Answered(e.e, p)];
          }
        }
      }
    }
  }
}
