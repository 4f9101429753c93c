// What a conntrack message does, from its kind, its create bit and the tuple
// it carries alone, and what a run of them prints.
module ConnLaws {
  import opened Bytes
  import opened Collections
  import opened Ledger
  import opened Netlink
  import opened Conntrack
  import opened ConnEvents
  import opened NlFraming
  import opened ConnDispatch

  // A message as the kernel sends it: the tuple and, for TCP, the state.
  ghost predicate Sends(msg: NlMsg, t: Tuple, state: nat) {
    && |msg.data| >= 4 && TellsTuple(msg.data[4..], t)
    && (t.proto == 6 ==> TellsState(msg.data[4..], state)) && (t.proto != 6 ==> state == 0)
  }

  // TCP or UDP, and of an address family that was asked for.
  predicate Admitted(port: Port, cfg: Config, t: Tuple) {
    && (t.proto == 6 || t.proto == 17)
    && (cfg.ipv4Only ==> port.is4(t.src)) && (cfg.ipv6Only ==> !port.is4(t.src))
  }

  // Four bytes are an IPv4 address.  Of sixteen, only Go takes some for one:
  // those that open with ten zeros and two bytes 255.
  lemma FamilyLaw(key: Tuple -> Key, a: Data)
    ensures |a| == 4 ==> GoPort(key).is4(a) && CPort(key).is4(a)
    ensures |a| == 16 ==>
              && !CPort(key).is4(a)
              && (GoPort(key).is4(a) <==> a[..12] == [0, 0, 0, 0, 0, 0, 0, 0, 0, 0, 255, 255])
  {
    if |a| == 16 {
      var front := a[..12];
      if GoIs4(a) {
        forall i | 0 <= i < 12
          ensures front[i] == [0, 0, 0, 0, 0, 0, 0, 0, 0, 0, 255, 255][i]
        {
          assert front[i] == a[i];
        }
      }
    }
  }

  predicate Watched(cfg: Config, env: Env, owner: Owner) {
    cfg.watching ==> env.watched(owner.pid)
  }

  predicate Passes(cfg: Config, env: Env, owner: Owner) {
    Watched(cfg, env, owner) && (cfg.outboundOnly ==> owner.dir != Inbound)
  }

  lemma Recognised(port: Port, msg: NlMsg, t: Tuple, state: nat)
    requires IsPort(port.attrs) && Sends(msg, t, state)
    ensures |msg.data| >= 4 && (t.proto != 6 ==> state == 0)
    ensures ParseTuple(port.attrs, msg.data[4..], 1) == Got(t)
    ensures t.proto == 6 ==> ParseTcpState(port.attrs, msg.data[4..]) == state
  {
    hide TellsTuple, TellsState, ParseTuple, ParseTcpState, IsPort;
    TupleRecognised(port.attrs, msg.data[4..], t);
    if t.proto == 6 {
      StateRecognised(port.attrs, msg.data[4..], state);
    }
  }

  // A message of kind 256 with the create bit opens its connection, or reopens
  // it, and prints it; of kind 256 without the bit shows an update, if updates
  // are shown, with the owner on record, and sets the state of a known TCP
  // connection; of kind 258 removes the connection and prints how long it
  // lasted if closes are shown, it was known and its owner is watched.
  ghost predicate Lawful(port: Port, cfg: Config, env: Env, db: ConnDB, msg: NlMsg, t: Tuple, state: nat, db': ConnDB, lines: seq<Line>) {
    var k := port.key(t);
    if !Admitted(port, cfg, t) || (msg.kind != 256 && msg.kind != 258) then db' == db && lines == []
    else if msg.kind == 256 && msg.create then
      var owner := env.owner(t);
      if Passes(cfg, env, owner)
      then db' == db[k := ConnEntry(Opened(t, owner, env.now), state)] && lines == [NewLine(t, owner)]
      else db' == db && lines == []
    else if msg.kind == 256 then
      var owner := if k in db then db[k].origin.owner else Owner(0, "", Unknown);
      if cfg.showUpdate && Passes(cfg, env, owner)
      then db' == (if k in db && t.proto == 6 then db[k := db[k].(tcpState := state)] else db)
           && lines == [UpdateLine(t, owner, state)]
      else db' == db && lines == []
    else
      && db' == db - {k}
      && lines == if cfg.showClose && k in db && Watched(cfg, env, db[k].origin.owner)
                  then [ClosedLine(t, db[k].origin.owner, env.now - db[k].origin.startAt)]
                  else []
  }

  // The action that stands for it.
  function ActionLaw(port: Port, cfg: Config, msg: NlMsg, t: Tuple, state: nat): Action {
    if !Admitted(port, cfg, t) || (msg.kind != 256 && msg.kind != 258) then Ignore
    else if msg.kind == 256 && msg.create then New(t, state)
    else if msg.kind == 256 then (if cfg.showUpdate then Update(t, state) else Ignore)
    else if cfg.showClose then Destroy(t)
    else Drop(t)
  }

  lemma Decided(port: Port, cfg: Config, msg: NlMsg, t: Tuple, state: nat)
    requires IsPort(port.attrs) && Sends(msg, t, state)
    ensures Decide(port, cfg, msg) == ActionLaw(port, cfg, msg, t, state)
  {
    hide ParseTuple, ParseTcpState, GoAttrs, CAttrs, Sends, IsPort;
    Recognised(port, msg, t, state);
  }

  // Every such message, in either port.
  lemma MessageLaw(port: Port, cfg: Config, env: Env, db: ConnDB, msg: NlMsg, t: Tuple, state: nat)
    requires IsPort(port.attrs) && Sends(msg, t, state)
    ensures var (db', lines) := Step(port.key, cfg, env, db, Decide(port, cfg, msg));
            Lawful(port, cfg, env, db, msg, t, state, db', lines)
  {
    hide Decide, Sends, IsPort, Admitted;
    Decided(port, cfg, msg, t, state);
  }

  // The bit in the flags of the header.
  lemma CreateBit(kind: nat, high: nat, create: bool, low: nat, data: Data)
    requires low < 0x400
    ensures MsgOf(Frame(kind, high * 0x800 + (if create then 0x400 else 0) + low, data)) == NlMsg(kind, create, data)
  {
    var bit := if create then 1 else 0;
    var flags := high * 0x800 + bit * 0x400 + low;
    assert flags == (2 * high + bit) * 0x400 + low;
    assert flags / 0x400 == 2 * high + bit;
  }

  // ---- Runs of such messages ----

  datatype Item = Item(msg: NlMsg, t: Tuple, state: nat)

  ghost predicate AllSent(items: seq<Item>) {
    forall x | x in items :: Sends(x.msg, x.t, x.state)
  }

  // The handler calls for a list of messages, the i-th with what env(i) reads.
  function RunOf(port: Port, cfg: Config, env: nat -> Env, items: seq<Item>): (cs: seq<Call>)
    ensures |cs| == |items|
  {
    if items == [] then []
    else
      var n := |items| - 1;
      RunOf(port, cfg, env, items[..n]) + [Call(env(n), Decide(port, cfg, items[n].msg))]
  }

  // The openings and closings that the messages stand for,
  function EventsLaw(port: Port, cfg: Config, env: nat -> Env, items: seq<Item>): seq<Event<Key, Opened>> {
    if items == [] then []
    else
      var n := |items| - 1;
      EventsLaw(port, cfg, env, items[..n]) + EventLaw(port, cfg, env(n), items[n])
  }

  function EventLaw(port: Port, cfg: Config, env: Env, x: Item): (es: seq<Event<Key, Opened>>)
    ensures |es| <= 1
  {
    var owner := env.owner(x.t);
    if !Admitted(port, cfg, x.t) then []
    else if x.msg.kind == 256 && x.msg.create && Passes(cfg, env, owner) then [Open(port.key(x.t), Opened(x.t, owner, env.now))]
    else if x.msg.kind == 258 then [Close(port.key(x.t))]
    else []
  }

  // and what was read when each came.
  function EnvsLaw(port: Port, cfg: Config, env: nat -> Env, items: seq<Item>): (envs: seq<Env>)
    ensures |envs| == |EventsLaw(port, cfg, env, items)|
  {
    if items == [] then []
    else
      var n := |items| - 1;
      EnvsLaw(port, cfg, env, items[..n]) + if EventLaw(port, cfg, env(n), items[n]) == [] then [] else [env(n)]
  }

  // The reports that completed lives call for.
  function ReportsLaw(cfg: Config, envs: seq<Env>, cs: seq<Closing<Key, Opened>>): seq<Report>
    requires forall c | c in cs :: c.closeAt < |envs|
  {
    if cs == [] then []
    else
      var c := cs[|cs| - 1];
      var env := envs[c.closeAt];
      ReportsLaw(cfg, envs, cs[..|cs| - 1]) +
      if cfg.showClose && Watched(cfg, env, c.val.owner) then [Report(c.key, c.val.owner, env.now - c.val.startAt)] else []
  }

  // A call and the event it gives, in the model and by the law.
  lemma CallLaw(port: Port, cfg: Config, env: Env, x: Item)
    requires IsPort(port.attrs) && Sends(x.msg, x.t, x.state)
    ensures var c := Call(env, Decide(port, cfg, x.msg));
            && EventsOf(port.key, cfg, c) == EventLaw(port, cfg, env, x)
            && (x.msg.kind == 258 && Admitted(port, cfg, x.t) ==> (c.action.Destroy? <==> cfg.showClose))
  {
    hide Decide, Sends, IsPort, Admitted;
    Decided(port, cfg, x.msg, x.t, x.state);
  }

  // A source of a closing event, as the law has it.
  ghost predicate SourceLaw(cfg: Config, e: Event<Key, Opened>, c: Call, env: Env) {
    c.env == env && (e.Close? ==> (c.action.Destroy? <==> cfg.showClose))
  }

  ghost predicate SourcesLaw(cfg: Config, run: seq<Event<Key, Opened>>, sources: seq<Call>, envs: seq<Env>) {
    |run| == |sources| == |envs| && forall i | 0 <= i < |run| :: SourceLaw(cfg, run[i], sources[i], envs[i])
  }

  lemma SourcesLawMore(cfg: Config, run: seq<Event<Key, Opened>>, sources: seq<Call>, envs: seq<Env>, es: seq<Event<Key, Opened>>, c: Call, env: Env)
    requires SourcesLaw(cfg, run, sources, envs) && |es| <= 1 && (es != [] ==> SourceLaw(cfg, es[0], c, env))
    ensures SourcesLaw(cfg, run + es, sources + (if es == [] then [] else [c]), envs + (if es == [] then [] else [env]))
  {
    hide SourceLaw;
  }

  lemma {:induction false} RunLaw(port: Port, cfg: Config, env: nat -> Env, items: seq<Item>)
    requires IsPort(port.attrs) && AllSent(items)
    ensures var cs, run := RunOf(port, cfg, env, items), EventsLaw(port, cfg, env, items);
            && Accepted(port.key, cfg, cs) == run
            && SourcesLaw(cfg, run, Sources(port.key, cfg, cs), EnvsLaw(port, cfg, env, items))
  {
    hide Decide, EventsOf, EventLaw, Sends, IsPort, SourceLaw, SourcesLaw;
    if items == [] {
      assert SourcesLaw(cfg, [], [], []) by { NoSources(cfg); }
    } else {
      var n := |items| - 1;
      var before, c := RunOf(port, cfg, env, items[..n]), Call(env(n), Decide(port, cfg, items[n].msg));
      assert (before + [c])[..n] == before;
      RunLaw(port, cfg, env, items[..n]);
      LastCallLaw(port, cfg, env(n), items[n], c);
      SourcesLawMore(cfg, EventsLaw(port, cfg, env, items[..n]), Sources(port.key, cfg, before), EnvsLaw(port, cfg, env, items[..n]),
                     EventLaw(port, cfg, env(n), items[n]), c, env(n));
    }
  }

  lemma NoSources(cfg: Config)
    ensures SourcesLaw(cfg, [], [], [])
  {
  }

  lemma LastCallLaw(port: Port, cfg: Config, env: Env, x: Item, c: Call)
    requires IsPort(port.attrs) && Sends(x.msg, x.t, x.state) && c == Call(env, Decide(port, cfg, x.msg))
    ensures EventsOf(port.key, cfg, c) == EventLaw(port, cfg, env, x)
    ensures EventLaw(port, cfg, env, x) != [] ==> SourceLaw(cfg, EventLaw(port, cfg, env, x)[0], c, env)
  {
    hide Decide, EventsOf, Sends, IsPort, Admitted, Passes;
    CallLaw(port, cfg, env, x);
  }

  lemma {:induction false} ReportsBySources(cfg: Config, run: seq<Event<Key, Opened>>, sources: seq<Call>, envs: seq<Env>, cs: seq<Closing<Key, Opened>>)
    requires SourcesLaw(cfg, run, sources, envs)
    requires forall c | c in cs :: c.closeAt < |run| && run[c.closeAt].Close?
    ensures ReportsOf(cfg, sources, cs) == ReportsLaw(cfg, envs, cs)
  {
    if cs != [] {
      var c := cs[|cs| - 1];
      assert c in cs && SourceLaw(cfg, run[c.closeAt], sources[c.closeAt], envs[c.closeAt]);
      ReportsBySources(cfg, run, sources, envs, cs[..|cs| - 1]);
    }
  }

  // Over every run of such messages, in either port: the database holds the
  // connections opened since they were last closed, and the CLOSED lines are
  // the completed lives, if closes are shown, of owners watched at their end,
  // each with the owner its opening found and the time in between.
  lemma RunsLaw(port: Port, cfg: Config, env: nat -> Env, items: seq<Item>)
    requires IsPort(port.attrs) && AllSent(items)
    ensures var h, run := History(port.key, cfg, RunOf(port, cfg, env, items)), EventsLaw(port, cfg, env, items);
            && Openings(h.db) == Replay(run)
            && (forall c | c in Closings(run) :: c.closeAt < |run|)
            && Reports(port.key, h.lines) == ReportsLaw(cfg, EnvsLaw(port, cfg, env, items), Closings(run))
  {
    var cs, run := RunOf(port, cfg, env, items), EventsLaw(port, cfg, env, items);
    RunLaw(port, cfg, env, items);
    DatabaseIsReplay(port.key, cfg, cs);
    ClosedLinesReportLives(port.key, cfg, cs);
    ClosingsAreLives(run);
    hide Closings, Replay, ReportsOf, ReportsLaw, Sources, EnvsLaw, EventsLaw, Accepted, RunOf, Reports, History;
    forall c | c in Closings(run)
      ensures c.closeAt < |run| && run[c.closeAt].Close?
    {
      assert Life(run, c);
    }
    ReportsBySources(cfg, run, Sources(port.key, cfg, cs), EnvsLaw(port, cfg, env, items), Closings(run));
  }

  // ---- Buffers ----

  function FramesOfItems(frames: seq<Frame>, items: seq<Item>): bool
    requires |frames| == |items|
  {
    forall i | 0 <= i < |frames| :: items[i].msg == MsgOf(frames[i])
  }

  lemma {:induction false} CallsAreRun(key: Tuple -> Key, cfg: Config, env: nat -> Env, frames: seq<Frame>, items: seq<Item>, i: nat)
    requires |frames| == |items| && FramesOfItems(frames, items) && i <= |frames|
    ensures RunOf(CPort(key), cfg, env, items[..i]) + Calls(key, cfg, env, i, frames[i..]) ==
            RunOf(CPort(key), cfg, env, items)
    decreases |frames| - i
  {
    hide Decide;
    if i < |frames| {
      CallsAreRun(key, cfg, env, frames, items, i + 1);
      var before := RunOf(CPort(key), cfg, env, items[..i]);
      assert items[..i + 1][..i] == items[..i];
      assert frames[i..][0] == frames[i] && frames[i..][1..] == frames[i + 1..];
      Assoc(before, [Call(env(i), Decide(CPort(key), cfg, MsgOf(frames[i])))], Calls(key, cfg, env, i + 1, frames[i + 1..]));
    } else {
      assert items[..i] == items && frames[i..] == [];
      NothingBefore(RunOf(CPort(key), cfg, env, items));
    }
  }

  // So for what arrives in buffers.
  lemma BuffersLaw(key: Tuple -> Key, cfg: Config, env: nat -> Env, frames: seq<Frame>, items: seq<Item>)
    requires |frames| == |items| && FramesOfItems(frames, items) && AllSent(items)
    ensures var h, run := Deliver(key, cfg, env, 0, Outcome(map[], []), frames), EventsLaw(CPort(key), cfg, env, items);
            && Openings(h.db) == Replay(run)
            && (forall c | c in Closings(run) :: c.closeAt < |run|)
            && Reports(key, h.lines) == ReportsLaw(cfg, EnvsLaw(CPort(key), cfg, env, items), Closings(run))
  {
    CallsAreRun(key, cfg, env, frames, items, 0);
    assert items[..0] == [] && frames[0..] == frames;
    NothingBefore(Calls(key, cfg, env, 0, frames));
    DeliveryContinuesRun(key, cfg, env, 0, [], frames);
    RunsLaw(CPort(key), cfg, env, items);
  }
}
