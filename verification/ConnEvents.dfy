// The connection tracer's handlers: what each conntrack message does to the
// connection database and which line it prints.
module ConnEvents {
  import opened Bytes
  import opened Netlink
  import opened Conntrack
  import opened Ledger
  import opened Collections

  const MSG_CT_NEW := 256
  const MSG_CT_DELETE := 258
  const NFGEN_MSG_SIZE := 4
  const TCP := 6
  const UDP := 17

  datatype Direction = Unknown | Outbound | Inbound

  datatype Owner = Owner(pid: int, comm: string, dir: Direction)

  const NOBODY := Owner(0, "", Unknown)

  // What a NEW fixes for the life of the connection; UPDATEs change only the
  // TCP state.
  datatype Opened = Opened(tuple: Tuple, owner: Owner, startAt: nat)

  datatype ConnEntry = ConnEntry(origin: Opened, tcpState: nat)

  type Key = string

  type ConnDB = map<Key, ConnEntry>

  datatype NlMsg = NlMsg(kind: nat, create: bool, data: Data)

  datatype Config = Config(watching: bool, outboundOnly: bool, ipv4Only: bool, ipv6Only: bool, showUpdate: bool, showClose: bool)

  // The two ports differ in how they index attributes and in which addresses
  // they take for IPv4.
  datatype Port = Port(attrs: Data -> AttrMap, is4: Data -> bool, key: Tuple -> Key)

  // What a handler reads about processes, sockets and time while it runs.
  datatype Env = Env(owner: Tuple -> Owner, watched: int -> bool, now: nat)

  datatype Line =
    | NewLine(tuple: Tuple, owner: Owner)
    | UpdateLine(tuple: Tuple, owner: Owner, tcpState: nat)
    | ClosedLine(tuple: Tuple, owner: Owner, elapsed: int)

  // What one message means before the database is looked at.
  datatype Action = Ignore | New(tuple: Tuple, state: nat) | Update(tuple: Tuple, state: nat) | Destroy(tuple: Tuple) | Drop(tuple: Tuple)

  function Decide(port: Port, cfg: Config, msg: NlMsg): Action {
    if msg.kind != MSG_CT_NEW && msg.kind != MSG_CT_DELETE then Ignore
    else if |msg.data| < NFGEN_MSG_SIZE then Ignore
    else
      var payload := msg.data[NFGEN_MSG_SIZE..];
      match ParseTuple(port.attrs, payload, CTA_TUPLE_ORIG)
      case NoTuple => Ignore
      case Got(t) =>
        if cfg.ipv4Only && !port.is4(t.src) then Ignore
        else if cfg.ipv6Only && port.is4(t.src) then Ignore
        else if t.proto != TCP && t.proto != UDP then Ignore
        else
          var state := if t.proto == TCP then ParseTcpState(port.attrs, payload) else 0;
          if msg.kind == MSG_CT_NEW && msg.create then New(t, state)
          else if msg.kind == MSG_CT_NEW then (if cfg.showUpdate then Update(t, state) else Ignore)
          else if cfg.showClose then Destroy(t)
          else Drop(t)
  }

  predicate Shows(cfg: Config, env: Env, owner: Owner) {
    && (cfg.watching ==> env.watched(owner.pid))
    && !(cfg.outboundOnly && owner.dir == Inbound)
  }

  // The database after one action, and the lines printed.
  function Step(key: Tuple -> Key, cfg: Config, env: Env, db: ConnDB, a: Action): (ConnDB, seq<Line>) {
    match a
    case Ignore => (db, [])
    case New(t, state) =>
      var owner := env.owner(t);
      if !Shows(cfg, env, owner) then (db, [])
      else (db[key(t) := ConnEntry(Opened(t, owner, env.now), state)], [NewLine(t, owner)])
    case Update(t, state) =>
      var k := key(t);
      var owner := if k in db then db[k].origin.owner else NOBODY;
      if !Shows(cfg, env, owner) then (db, [])
      else (if t.proto == TCP && k in db then db[k := db[k].(tcpState := state)] else db, [UpdateLine(t, owner, state)])
    case Destroy(t) =>
      var k := key(t);
      (db - {k},
       if k in db && (cfg.watching ==> env.watched(db[k].origin.owner.pid))
       then [ClosedLine(t, db[k].origin.owner, env.now - db[k].origin.startAt)]
       else [])
    case Drop(t) => (db - {key(t)}, [])
  }

  // ---- Runs ----

  datatype Call = Call(env: Env, action: Action)

  datatype Outcome = Outcome(db: ConnDB, lines: seq<Line>)

  function History(key: Tuple -> Key, cfg: Config, calls: seq<Call>): Outcome {
    if calls == [] then Outcome(map[], [])
    else
      var h, c := History(key, cfg, calls[..|calls| - 1]), calls[|calls| - 1];
      var (db, lines) := Step(key, cfg, c.env, h.db, c.action);
      Outcome(db, h.lines + lines)
  }

  // The ledger events of a run.  Which messages are accepted does not depend
  // on the database.
  function Accepted(key: Tuple -> Key, cfg: Config, calls: seq<Call>): seq<Event<Key, Opened>> {
    if calls == [] then []
    else Accepted(key, cfg, calls[..|calls| - 1]) + EventsOf(key, cfg, calls[|calls| - 1])
  }

  function EventsOf(key: Tuple -> Key, cfg: Config, c: Call): (es: seq<Event<Key, Opened>>)
    ensures |es| <= 1
  {
    match c.action
    case New(t, state) =>
      var owner := c.env.owner(t);
      if Shows(cfg, c.env, owner) then [Open(key(t), Opened(t, owner, c.env.now))] else []
    case Destroy(t) => [Close(key(t))]
    case Drop(t) => [Close(key(t))]
    case _ => []
  }

  // The call behind each event.
  function Sources(key: Tuple -> Key, cfg: Config, calls: seq<Call>): (cs: seq<Call>)
    ensures |cs| == |Accepted(key, cfg, calls)|
  {
    if calls == [] then []
    else
      var c := calls[|calls| - 1];
      Sources(key, cfg, calls[..|calls| - 1]) + if EventsOf(key, cfg, c) == [] then [] else [c]
  }

  function Openings(db: ConnDB): map<Key, Opened> {
    map k | k in db :: db[k].origin
  }

  // After every run the database holds exactly the connections with an
  // accepted NEW since their last DESTROY (HoldsLastOpened), with what that
  // NEW recorded.
  lemma {:induction false} DatabaseIsReplay(key: Tuple -> Key, cfg: Config, calls: seq<Call>)
    ensures Openings(History(key, cfg, calls).db) == Replay(Accepted(key, cfg, calls))
  {
    if calls != [] {
      var before, c := calls[..|calls| - 1], calls[|calls| - 1];
      DatabaseIsReplay(key, cfg, before);
      StepIsEvents(key, cfg, History(key, cfg, before).db, c);
      ReplayMore(Accepted(key, cfg, before), EventsOf(key, cfg, c));
    }
  }

  function Advance(m: map<Key, Opened>, es: seq<Event<Key, Opened>>): map<Key, Opened>
    requires |es| <= 1
  {
    if es == [] then m else Apply(m, es[0])
  }

  lemma StepIsEvents(key: Tuple -> Key, cfg: Config, db: ConnDB, c: Call)
    ensures Openings(Step(key, cfg, c.env, db, c.action).0) == Advance(Openings(db), EventsOf(key, cfg, c))
  {
    hide Shows;
    var after := Step(key, cfg, c.env, db, c.action).0;
    var want := Advance(Openings(db), EventsOf(key, cfg, c));
    assert after.Keys == want.Keys;
    assert forall k | k in after.Keys :: Openings(after)[k] == want[k];
  }

  // ---- CLOSED lines ----

  datatype Report = Report(key: Key, owner: Owner, elapsed: int)

  // The CLOSED lines of an output.
  function Reports(key: Tuple -> Key, lines: seq<Line>): seq<Report> {
    if lines == [] then []
    else
      var l := lines[|lines| - 1];
      Reports(key, lines[..|lines| - 1]) + if l.ClosedLine? then [Report(key(l.tuple), l.owner, l.elapsed)] else []
  }

  predicate Told(cfg: Config, closer: Call, c: Closing<Key, Opened>) {
    closer.action.Destroy? && (cfg.watching ==> closer.env.watched(c.val.owner.pid))
  }

  // The reports that a list of completed lives calls for: all those closed by
  // a displayed DESTROY whose process is watched at that moment.
  function ReportsOf(cfg: Config, sources: seq<Call>, cs: seq<Closing<Key, Opened>>): seq<Report>
    requires forall c | c in cs :: c.closeAt < |sources|
  {
    if cs == [] then []
    else
      var c := cs[|cs| - 1];
      var closer := sources[c.closeAt];
      ReportsOf(cfg, sources, cs[..|cs| - 1]) +
      if Told(cfg, closer, c) then [Report(c.key, c.val.owner, closer.env.now - c.val.startAt)] else []
  }

  lemma {:induction false} ReportsOfMoreSources(cfg: Config, sources: seq<Call>, more: seq<Call>, cs: seq<Closing<Key, Opened>>)
    requires forall c | c in cs :: c.closeAt < |sources|
    ensures ReportsOf(cfg, sources + more, cs) == ReportsOf(cfg, sources, cs)
  {
    if cs != [] {
      assert cs[|cs| - 1] in cs;
      ReportsOfMoreSources(cfg, sources, more, cs[..|cs| - 1]);
    }
  }

  lemma ClosingsInRun(run: seq<Event<Key, Opened>>)
    ensures forall c | c in Closings(run) :: c.closeAt < |run|
  {
    ClosingsAreLives(run);
  }

  // One more event closes at most one life.
  lemma ClosingsMore(run: seq<Event<Key, Opened>>, e: Event<Key, Opened>)
    ensures Closings(run + [e]) == Closings(run) +
              if e.Close? && e.key in Replay(run)
              then [Closing(e.key, Replay(run)[e.key], LastIndex(run, e.key), |run|)]
              else []
  {
    assert (run + [e])[..|run|] == run;
  }

  lemma ReportsMore(key: Tuple -> Key, lines: seq<Line>, l: Line)
    ensures Reports(key, lines + [l]) == Reports(key, lines) + if l.ClosedLine? then [Report(key(l.tuple), l.owner, l.elapsed)] else []
  {
    assert (lines + [l])[..|lines|] == lines;
  }

  lemma ReportsOfMore(cfg: Config, sources: seq<Call>, cs: seq<Closing<Key, Opened>>, c: Closing<Key, Opened>)
    requires forall x | x in cs + [c] :: x.closeAt < |sources|
    ensures forall x | x in cs :: x.closeAt < |sources|
    ensures ReportsOf(cfg, sources, cs + [c]) == ReportsOf(cfg, sources, cs) +
              if Told(cfg, sources[c.closeAt], c) then [Report(c.key, c.val.owner, sources[c.closeAt].env.now - c.val.startAt)] else []
  {
    assert c in cs + [c] && forall x | x in cs :: x in cs + [c];
    assert (cs + [c])[..|cs|] == cs;
  }

  // Over every run the CLOSED lines are exactly the completed lives that the
  // filters let through, in order: each has the pid, command and direction
  // recorded by the connection's latest accepted NEW and the time since it,
  // and no NEW is reported closed twice (ClosingsAreLives).
  lemma {:induction false} ClosedLinesReportLives(key: Tuple -> Key, cfg: Config, calls: seq<Call>)
    ensures var run, sources := Accepted(key, cfg, calls), Sources(key, cfg, calls);
            && (forall c | c in Closings(run) :: c.closeAt < |sources|)
            && Reports(key, History(key, cfg, calls).lines) == ReportsOf(cfg, sources, Closings(run))
  {
    ClosingsInRun(Accepted(key, cfg, calls));
    if calls != [] {
      var before, c := calls[..|calls| - 1], calls[|calls| - 1];
      ClosedLinesReportLives(key, cfg, before);
      DatabaseIsReplay(key, cfg, before);
      StepReports(key, cfg, History(key, cfg, before), Accepted(key, cfg, before), Sources(key, cfg, before), c);
    }
  }

  // The one report an action calls for.
  function Due(cfg: Config, m: map<Key, Opened>, es: seq<Event<Key, Opened>>, closer: Call): seq<Report>
    requires |es| <= 1
  {
    if es != [] && es[0].Close? && es[0].key in m && closer.action.Destroy? && (cfg.watching ==> closer.env.watched(m[es[0].key].owner.pid))
    then [Report(es[0].key, m[es[0].key].owner, closer.env.now - m[es[0].key].startAt)]
    else []
  }

  lemma StepTellsDue(key: Tuple -> Key, cfg: Config, db: ConnDB, c: Call, lines: seq<Line>)
    ensures Reports(key, lines + Step(key, cfg, c.env, db, c.action).1) ==
            Reports(key, lines) + Due(cfg, Openings(db), EventsOf(key, cfg, c), c)
  {
    var more := Step(key, cfg, c.env, db, c.action).1;
    hide Shows, Reports;
    assert lines + [] == lines;
    if more != [] {
      assert more == [more[0]];
      ReportsMore(key, lines, more[0]);
    }
  }

  lemma DueIsToldClosing(cfg: Config, run: seq<Event<Key, Opened>>, sources: seq<Call>, e: Event<Key, Opened>, c: Call)
    requires |sources| == |run| && forall x | x in Closings(run) :: x.closeAt < |run|
    ensures forall x | x in Closings(run + [e]) :: x.closeAt < |run| + 1
    ensures ReportsOf(cfg, sources + [c], Closings(run + [e])) ==
            ReportsOf(cfg, sources, Closings(run)) + Due(cfg, Replay(run), [e], c)
  {
    hide ReportsOf, LastIndex, Replay, Closings;
    var past, m := Closings(run), Replay(run);
    ClosingsInRun(run + [e]);
    ClosingsMore(run, e);
    ReportsOfMoreSources(cfg, sources, [c], past);
    if e.Close? && e.key in m {
      ReportsOfMore(cfg, sources + [c], past, Closing(e.key, m[e.key], LastIndex(run, e.key), |run|));
    } else {
      NothingBefore(past);
      NothingBefore(ReportsOf(cfg, sources, past));
    }
  }

  lemma StepReports(key: Tuple -> Key, cfg: Config, h: Outcome, run: seq<Event<Key, Opened>>, sources: seq<Call>, c: Call)
    requires |sources| == |run| && Openings(h.db) == Replay(run)
    requires forall x | x in Closings(run) :: x.closeAt < |run|
    requires Reports(key, h.lines) == ReportsOf(cfg, sources, Closings(run))
    ensures var es := EventsOf(key, cfg, c);
            var sources2, run2 := sources + (if es == [] then [] else [c]), run + es;
            && (forall x | x in Closings(run2) :: x.closeAt < |sources2|)
            && Reports(key, h.lines + Step(key, cfg, c.env, h.db, c.action).1) == ReportsOf(cfg, sources2, Closings(run2))
  {
    var es := EventsOf(key, cfg, c);
    StepTellsDue(key, cfg, h.db, c, h.lines);
    hide Step, EventsOf, Reports, ReportsOf, Closings, Replay, Openings;
    if es == [] {
      NothingBefore(run);
      NothingBefore(sources);
      NothingBefore(Reports(key, h.lines));
    } else {
      assert es == [es[0]];
      DueIsToldClosing(cfg, run, sources, es[0], c);
    }
  }

  // ---- TCP states: the same argument about a second ledger ----

  function StatesOf(key: Tuple -> Key, cfg: Config, db: ConnDB, c: Call): (es: seq<Event<Key, nat>>)
    ensures |es| <= 1
  {
    match c.action
    case Ignore => []
    case New(t, state) => if Shows(cfg, c.env, c.env.owner(t)) then [Open(key(t), state)] else []
    case Update(t, state) =>
      if t.proto == TCP && key(t) in db && Shows(cfg, c.env, db[key(t)].origin.owner) then [Open(key(t), state)] else []
    case Destroy(t) => [Close(key(t))]
    case Drop(t) => [Close(key(t))]
  }

  function StateRun(key: Tuple -> Key, cfg: Config, calls: seq<Call>): seq<Event<Key, nat>> {
    if calls == [] then []
    else
      var before := calls[..|calls| - 1];
      StateRun(key, cfg, before) + StatesOf(key, cfg, History(key, cfg, before).db, calls[|calls| - 1])
  }

  function States(db: ConnDB): map<Key, nat> {
    map k | k in db :: db[k].tcpState
  }

  // The TCP state on record is the one in the latest NEW or displayed UPDATE
  // of a live connection.
  lemma {:induction false} StatesAreLatest(key: Tuple -> Key, cfg: Config, calls: seq<Call>)
    ensures States(History(key, cfg, calls).db) == Replay(StateRun(key, cfg, calls))
  {
    if calls != [] {
      var before, c := calls[..|calls| - 1], calls[|calls| - 1];
      StatesAreLatest(key, cfg, before);
      var db := History(key, cfg, before).db;
      hide Step, StatesOf, States, Replay;
      StepIsState(key, cfg, db, c);
      ReplayMore(StateRun(key, cfg, before), StatesOf(key, cfg, db, c));
    }
  }

  lemma StepIsState(key: Tuple -> Key, cfg: Config, db: ConnDB, c: Call)
    ensures var es, after := StatesOf(key, cfg, db, c), Step(key, cfg, c.env, db, c.action).0;
            States(after) == if es == [] then States(db) else Apply(States(db), es[0])
  {
    hide Shows;
    var es, after := StatesOf(key, cfg, db, c), Step(key, cfg, c.env, db, c.action).0;
    var want := if es == [] then States(db) else Apply(States(db), es[0]);
    assert after.Keys == want.Keys;
    assert forall k | k in after.Keys :: States(after)[k] == want[k];
  }

  // ---- The two ports ----

  // To4: also an IPv4 address in its sixteen-byte form.
  predicate GoIs4(ip: Data) {
    |ip| == 4 || (|ip| == 16 && (forall i | 0 <= i < 10 :: ip[i] == 0) && ip[10] == 255 && ip[11] == 255)
  }

  predicate CIs4(ip: Data) {
    |ip| == 4
  }

  function GoPort(key: Tuple -> Key): Port {
    Port(GoAttrs, GoIs4, key)
  }

  function CPort(key: Tuple -> Key): Port {
    Port(CAttrs, CIs4, key)
  }

  // An encoded tuple, and an encoded TCP state, each nested three deep.
  ghost predicate TellsTuple(payload: Data, t: Tuple) {
    exists m: Message :: Carries(m, 1, t) && payload == Encode(m.top, m.padLast)
  }

  datatype StateMessage = StateMessage(top: seq<Wire>, info: seq<Wire>, tcp: seq<Wire>, state: byte, padLast: bool)

  ghost predicate CarriesState(s: StateMessage) {
    && ValidWires(s.top) && ValidWires(s.info) && ValidWires(s.tcp)
    && Sole(s.tcp, 1, [s.state])
    && Sole(s.info, 1, Encode(s.tcp, s.padLast))
    && Sole(s.top, 4, Encode(s.info, s.padLast))
  }

  ghost predicate TellsState(payload: Data, state: nat) {
    exists s: StateMessage :: CarriesState(s) && s.state as nat == state && payload == Encode(s.top, s.padLast)
  }

  // What the kernel sends: a tuple and, for TCP, a state.
  ghost predicate WellFormed(msg: NlMsg, t: Tuple) {
    && |msg.data| >= 4 && TellsTuple(msg.data[4..], t)
    && (t.proto == 6 ==> exists state: nat :: TellsState(msg.data[4..], state))
  }

  // Whether the message is one the handlers look at.
  predicate Handled(cfg: Config, msg: NlMsg, t: Tuple) {
    && (msg.kind == MSG_CT_DELETE || (msg.kind == MSG_CT_NEW && (msg.create || cfg.showUpdate)))
    && t.proto in {TCP, UDP}
  }

  // On what the kernel sends, the two ports take the same action except for
  // an IPv4 address in sixteen bytes under exactly one address filter.
  lemma PortsDecideAlike(key: Tuple -> Key, cfg: Config, msg: NlMsg, t: Tuple)
    requires WellFormed(msg, t)
    ensures Decide(GoPort(key), cfg, msg) == Decide(CPort(key), cfg, msg) <==>
            !(cfg.ipv4Only != cfg.ipv6Only && Handled(cfg, msg, t) && |t.src| == 16 && GoIs4(t.src))
  {
    hide Encode, Sole, ParseTuple, ParseTcpState, GoAttrs, CAttrs, TellsTuple, TellsState;
    TupleRecognised(GoAttrs, msg.data[NFGEN_MSG_SIZE..], t);
    TupleRecognised(CAttrs, msg.data[NFGEN_MSG_SIZE..], t);
    if t.proto == TCP {
      var state: nat :| TellsState(msg.data[NFGEN_MSG_SIZE..], state);
      StateRecognised(GoAttrs, msg.data[NFGEN_MSG_SIZE..], state);
      StateRecognised(CAttrs, msg.data[NFGEN_MSG_SIZE..], state);
    }
  }

  lemma TupleRecognised(attrs: Data -> AttrMap, payload: Data, t: Tuple)
    requires IsPort(attrs) && TellsTuple(payload, t)
    ensures ParseTuple(attrs, payload, 1) == Got(t)
  {
    hide Encode, Sole, ParseTuple;
    var m: Message :| Carries(m, 1, t) && payload == Encode(m.top, m.padLast);
    TupleReadsBack(attrs, m, 1, t);
  }

  lemma StateRecognised(attrs: Data -> AttrMap, payload: Data, state: nat)
    requires IsPort(attrs) && TellsState(payload, state)
    ensures ParseTcpState(attrs, payload) == state
  {
    hide Encode, Sole, ParseTcpState;
    var s: StateMessage :| CarriesState(s) && s.state as nat == state && payload == Encode(s.top, s.padLast);
    TcpStateReadsBack(attrs, s.top, s.info, s.tcp, s.padLast, s.state);
  }

  // ---- The exception occurs ----

  // ::ffff:0.0.0.0
  const MAPPED: Data := [0, 0, 0, 0, 0, 0, 0, 0, 0, 0, 255, 255, 0, 0, 0, 0]
  const MAPPED_TUPLE := Tuple(MAPPED, MAPPED, 1, 2, UDP)

  function Attribute(t: nat, payload: Data): Wire {
    Wire(t, false, false, payload)
  }

  const IP_WIRES := [Attribute(CTA_IPV6_SRC, MAPPED), Attribute(CTA_IPV6_DST, MAPPED)]
  const PROTO_WIRES := [Attribute(CTA_PROTO_NUM, [17]), Attribute(CTA_PROTO_SRC_PORT, PutBe16(1)), Attribute(CTA_PROTO_DST_PORT, PutBe16(2))]

  // Room for so many attributes of at most n bytes each.
  function Room(count: nat, n: nat): nat {
    if count == 0 then 0 else n + 8 + Room(count - 1, n)
  }

  lemma {:induction false} EncodeSize(ws: seq<Wire>, n: nat)
    requires ValidWires(ws) && forall w | w in ws :: |w.payload| <= n
    ensures |Encode(ws, true)| <= Room(|ws|, n)
  {
    if ws != [] {
      assert ws[0] in ws;
      EncodeSize(ws[1..], n);
    }
  }

  lemma FirstIsSole(ws: seq<Wire>, i: nat)
    requires i < |ws| && forall j | 0 <= j < |ws| && j != i :: ws[j].typ != ws[i].typ
    ensures Sole(ws, ws[i].typ, ws[i].payload)
  {
  }

  lemma InnerAttributes()
    ensures ValidWires(IP_WIRES) && |Encode(IP_WIRES, true)| <= 48 && CarriesAddresses(IP_WIRES, MAPPED_TUPLE)
    ensures ValidWires(PROTO_WIRES) && |Encode(PROTO_WIRES, true)| <= 48 && CarriesPorts(PROTO_WIRES, MAPPED_TUPLE)
  {
    EncodeSize(IP_WIRES, 16);
    EncodeSize(PROTO_WIRES, 2);
    FirstIsSole(IP_WIRES, 0);
    FirstIsSole(IP_WIRES, 1);
    FirstIsSole(PROTO_WIRES, 0);
    FirstIsSole(PROTO_WIRES, 1);
    FirstIsSole(PROTO_WIRES, 2);
    hide Encode, Sole, PutBe16;
  }

  lemma MappedMessage() returns (m: Message)
    ensures Carries(m, CTA_TUPLE_ORIG, MAPPED_TUPLE) && m.padLast
  {
    InnerAttributes();
    hide Encode, Sole, CarriesAddresses, CarriesPorts;
    var tuple := [Attribute(CTA_TUPLE_IP, Encode(IP_WIRES, true)), Attribute(CTA_TUPLE_PROTO, Encode(PROTO_WIRES, true))];
    EncodeSize(tuple, 48);
    var top := [Attribute(CTA_TUPLE_ORIG, Encode(tuple, true))];
    FirstIsSole(tuple, 0);
    FirstIsSole(tuple, 1);
    FirstIsSole(top, 0);
    m := Message(top, tuple, IP_WIRES, PROTO_WIRES, true);
  }

  lemma UdpWellFormed(m: Message, t: Tuple, msg: NlMsg)
    requires Carries(m, CTA_TUPLE_ORIG, t) && t.proto == UDP
    requires |msg.data| >= NFGEN_MSG_SIZE && msg.data[NFGEN_MSG_SIZE..] == Encode(m.top, m.padLast)
    ensures WellFormed(msg, t)
  {
    hide Encode, Sole;
  }

  // Under -4, a NEW about such an address is taken by Go and ignored by C.
  lemma PortsDisagree(key: Tuple -> Key, cfg: Config) returns (msg: NlMsg)
    requires cfg.ipv4Only && !cfg.ipv6Only
    ensures WellFormed(msg, MAPPED_TUPLE)
    ensures Decide(GoPort(key), cfg, msg) != Decide(CPort(key), cfg, msg)
  {
    var m := MappedMessage();
    hide Carries, Encode, WellFormed, Decide;
    assert ValidWires(m.top) by { CarriedIsValid(m, MAPPED_TUPLE); }
    var payload := Encode(m.top, m.padLast);
    msg := NlMsg(MSG_CT_NEW, true, [0, 0, 0, 0] + payload);
    assert msg.data[NFGEN_MSG_SIZE..] == payload;
    UdpWellFormed(m, MAPPED_TUPLE, msg);
    PortsDecideAlike(key, cfg, msg, MAPPED_TUPLE);
  }

  lemma CarriedIsValid(m: Message, t: Tuple)
    requires Carries(m, CTA_TUPLE_ORIG, t)
    ensures ValidWires(m.top)
  {
  }
}
