// From a receive buffer of the process connector to exec and exit events.
module ExecDispatch {
  import opened Bytes
  import opened ExecEvents
  import opened Collections
  import opened Framing
  import opened NlFraming
  import opened ProbeTable
  import opened ExecTracer

  const CN_IDX_PROC := 1
  const CN_VAL_PROC := 1
  const CN_MSG_SIZE := 20
  const PROC_EVT_HDR := 16
  const PROC_EVENT_EXEC := 2
  const PROC_EVENT_EXIT := 0x8000_0000

  datatype Notice = Other | Execs(data: Data, tsNs: nat) | Exits(data: Data, tsNs: nat)

  function Le64(d: Data, off: nat): nat
    requires off + 8 <= |d|
  {
    Le32(d, off) + Le32(d, off + 4) * 0x1_0000_0000
  }

  // What the payload of one netlink message announces.
  function NoticeOf(d: Data): Notice {
    if |d| < CN_MSG_SIZE + PROC_EVT_HDR then Other
    else if Le32(d, 0) != CN_IDX_PROC || Le32(d, 4) != CN_VAL_PROC then Other
    else
      var what, tsNs := Le32(d, CN_MSG_SIZE), Le64(d, CN_MSG_SIZE + 8);
      var ev := d[CN_MSG_SIZE + PROC_EVT_HDR..];
      if what == PROC_EVENT_EXEC then Execs(ev, tsNs)
      else if what == PROC_EVENT_EXIT then Exits(ev, tsNs)
      else Other
  }

  ghost predicate Walkable(env: Env, n: Notice) {
    n.Execs? ==> CanWalk(env, n.data)
  }

  function Perform(cfg: Config, env: Env, db: PidDB, n: Notice): (o: Outcome)
    requires Walkable(env, n)
    ensures |o.events| <= 1
  {
    match n
    case Other => Outcome([], [])
    case Execs(data, tsNs) => OnExec(cfg, env, db, data, tsNs)
    case Exits(data, tsNs) => OnExit(cfg, db, data, tsNs)
  }

  datatype State = State(db: PidDB, lines: seq<Line>)

  function After(cfg: Config, env: Env, s: State, n: Notice): State
    requires Walkable(env, n)
  {
    var o := Perform(cfg, env, s.db, n);
    State(Advance(s.db, o.events), s.lines + o.lines)
  }

  // Every announced exec can be walked up from when it is handled; the k-th is
  // handled with what env(i + k) reads.
  ghost predicate AllWalkable(env: nat -> Env, i: nat, ns: seq<Notice>) {
    forall k | 0 <= k < |ns| :: Walkable(env(i + k), ns[k])
  }

  // The state after a list of announcements.
  function Deliver(cfg: Config, env: nat -> Env, i: nat, s: State, ns: seq<Notice>): State
    requires AllWalkable(env, i, ns)
    decreases |ns|
  {
    if ns == [] then s
    else
      WalkableRest(env, i, ns);
      Deliver(cfg, env, i + 1, After(cfg, env(i), s, ns[0]), ns[1..])
  }

  lemma WalkableRest(env: nat -> Env, i: nat, ns: seq<Notice>)
    requires AllWalkable(env, i, ns) && ns != []
    ensures Walkable(env(i), ns[0]) && AllWalkable(env, i + 1, ns[1..])
  {
    assert Walkable(env(i + 0), ns[0]);
    forall k | 0 <= k < |ns| - 1
      ensures Walkable(env(i + 1 + k), ns[1..][k])
    {
      assert Walkable(env(i + (k + 1)), ns[k + 1]);
    }
  }

  // At no time are there more entries than the table has slots.
  ghost predicate Fits(cfg: Config, env: nat -> Env, i: nat, s: State, ns: seq<Notice>, capacity: nat)
    requires AllWalkable(env, i, ns)
    decreases |ns|
  {
    if ns == [] then true
    else
      WalkableRest(env, i, ns);
      var next := After(cfg, env(i), s, ns[0]);
      |next.db| <= capacity && Fits(cfg, env, i + 1, next, ns[1..], capacity)
  }

  function Notices(frames: seq<Frame>): seq<Notice> {
    if frames == [] then [] else [NoticeOf(frames[0].data)] + Notices(frames[1..])
  }

  // ---- What the kernel sends ----

  // An announcement on the wire: who sends it, what happened and when; two
  // stretches of the header carry other things (sequence numbers and length,
  // and the processor).
  datatype Wire = Wire(idx: nat, val: nat, what: nat, counters: Data, cpu: Data, tsNs: nat, data: Data)

  predicate ValidWire(w: Wire) {
    && w.idx < 0x1_0000_0000 && w.val < 0x1_0000_0000 && w.what < 0x1_0000_0000
    && |w.counters| == 12 && |w.cpu| == 4 && w.tsNs < U64
  }

  function Encode(w: Wire): (d: Data)
    requires ValidWire(w)
    ensures |d| == CN_MSG_SIZE + PROC_EVT_HDR + |w.data|
  {
    PutLe32(w.idx) + (PutLe32(w.val) + (w.counters +
      (PutLe32(w.what) + (w.cpu +
        (PutLe32(w.tsNs % 0x1_0000_0000) + (PutLe32(w.tsNs / 0x1_0000_0000) + w.data))))))
  }

  // What it announces: an exec or an exit of the process connector, or nothing
  // of interest.
  function Meant(w: Wire): Notice {
    if w.idx != 1 || w.val != 1 then Other
    else if w.what == 2 then Execs(w.data, w.tsNs)
    else if w.what == 0x8000_0000 then Exits(w.data, w.tsNs)
    else Other
  }

  lemma FieldsStand(w: Wire)
    requires ValidWire(w)
    ensures var d := Encode(w);
            && Stands(d, 0, PutLe32(w.idx)) && Stands(d, 4, PutLe32(w.val))
            && Stands(d, 20, PutLe32(w.what))
            && Stands(d, 28, PutLe32(w.tsNs % 0x1_0000_0000)) && Stands(d, 32, PutLe32(w.tsNs / 0x1_0000_0000))
            && Stands(d, 36, w.data)
  {
    var d := Encode(w);
    var t7 := PutLe32(w.tsNs / 0x1_0000_0000) + w.data;
    var t6 := PutLe32(w.tsNs % 0x1_0000_0000) + t7;
    var t5 := w.cpu + t6;
    var t4 := PutLe32(w.what) + t5;
    var t3 := w.counters + t4;
    var t2 := PutLe32(w.val) + t3;
    assert Stands(d, 0, PutLe32(w.idx) + t2);
    hide PutLe32, Stands, Encode;
    StandsAppend(d, 0, PutLe32(w.idx), t2);
    StandsAppend(d, 4, PutLe32(w.val), t3);
    StandsAppend(d, 8, w.counters, t4);
    StandsAppend(d, 20, PutLe32(w.what), t5);
    StandsAppend(d, 24, w.cpu, t6);
    StandsAppend(d, 28, PutLe32(w.tsNs % 0x1_0000_0000), t7);
    StandsAppend(d, 32, PutLe32(w.tsNs / 0x1_0000_0000), w.data);
  }

  lemma NoticeReadsBack(w: Wire)
    requires ValidWire(w)
    ensures NoticeOf(Encode(w)) == Meant(w)
  {
    var d, lo, hi := Encode(w), w.tsNs % 0x1_0000_0000, w.tsNs / 0x1_0000_0000;
    assert lo + hi * 0x1_0000_0000 == w.tsNs && hi < 0x1_0000_0000;
    FieldsStand(w);
    hide PutLe32, Le32, Stands, Encode;
    StandsLe32(d, 0, w.idx);
    StandsLe32(d, 4, w.val);
    StandsLe32(d, 20, w.what);
    StandsLe32(d, 28, lo);
    StandsLe32(d, 32, hi);
    StandsTail(d, 36, w.data);
  }

  lemma StandsTail(d: Data, off: nat, s: Data)
    requires Stands(d, off, s) && off + |s| == |d|
    ensures d[off..] == s
  {
  }

  // Messages as sent, each announcing what ws says.
  predicate Announces(ms: seq<Sent>, ws: seq<Wire>) {
    && |ms| == |ws| && AllValid(ms)
    && forall i | 0 <= i < |ws| :: ValidWire(ws[i]) && ms[i].frame.data == Encode(ws[i])
  }

  function AllMeant(ws: seq<Wire>): seq<Notice> {
    if ws == [] then [] else [Meant(ws[0])] + AllMeant(ws[1..])
  }

  // The events of a buffer are exactly those the kernel sent, in order, even
  // in front of a malformed message.
  lemma BufferReadsBack(ms: seq<Sent>, ws: seq<Wire>, tail: Data)
    requires Announces(ms, ws)
    ensures Notices(Frames(Batch(ms) + tail)) == AllMeant(ws) + Notices(Frames(tail))
  {
    BatchReadsBack(ms, tail);
    NoticesReadBack(ms, ws, Frames(tail));
  }

  lemma {:induction false} NoticesReadBack(ms: seq<Sent>, ws: seq<Wire>, rest: seq<Frame>)
    requires Announces(ms, ws)
    ensures Notices(FramesOf(ms) + rest) == AllMeant(ws) + Notices(rest)
  {
    hide ValidWire, ValidSent, Encode, NoticeOf;
    if ms == [] {
      NothingBefore(rest);
      NothingBefore(Notices(rest));
    } else {
      NoticeReadsBack(ws[0]);
      NoticesReadBack(ms[1..], ws[1..], rest);
      HeadFirst(FramesOf(ms), rest);
      Assoc([Meant(ws[0])], AllMeant(ws[1..]), Notices(rest));
    }
  }

  // ---- dispatchNlMsg ----

  // What is left in d leads from s to the goal, and fits the table.
  ghost predicate Ahead(cfg: Config, env: nat -> Env, i: nat, s: State, capacity: nat, d: Data, goal: State) {
    var rest := Notices(Frames(d));
    && AllWalkable(env, i, rest)
    && Fits(cfg, env, i, s, rest, capacity)
    && Deliver(cfg, env, i, s, rest) == goal
  }

  lemma Turn(cfg: Config, env: nat -> Env, i: nat, s: State, capacity: nat, d: Data, f: Frame, next: nat, goal: State)
    requires CutNl(d) == Take(f, next) && Ahead(cfg, env, i, s, capacity, d, goal)
    ensures Walkable(env(i), NoticeOf(f.data))
    ensures |After(cfg, env(i), s, NoticeOf(f.data)).db| <= capacity
    ensures Ahead(cfg, env, i + 1, After(cfg, env(i), s, NoticeOf(f.data)), capacity, From(d, next), goal)
  {
    FramesStep(d);
    hide CutNl, Frames, NoticeOf, Perform, Walkable, From;
    var all, rest := Notices(Frames(d)), Notices(Frames(From(d, next)));
    assert all == [NoticeOf(f.data)] + rest;
    WalkableRest(env, i, all);
    assert all[1..] == rest;
  }

  lemma Start(cfg: Config, env: nat -> Env, s: State, capacity: nat, d: Data)
    requires AllWalkable(env, 0, Notices(Frames(d)))
    requires Fits(cfg, env, 0, s, Notices(Frames(d)), capacity)
    ensures Ahead(cfg, env, 0, s, capacity, d, Deliver(cfg, env, 0, s, Notices(Frames(d))))
  {
  }

  lemma Done(cfg: Config, env: nat -> Env, i: nat, s: State, capacity: nat, d: Data, goal: State)
    requires CutNl(d) == Stop && Ahead(cfg, env, i, s, capacity, d, goal)
    ensures s == goal
  {
    FramesStep(d);
  }

  // One message: the handlers over the C table.
  method Handle(t: CTracer, env: Env, d: Data)
    requires t.Valid() && Walkable(env, NoticeOf(d))
    requires |After(t.cfg, env, State(t.db.Map(), t.lines), NoticeOf(d)).db| <= t.db.slots.Length
    modifies t, t.db, t.db.slots
    ensures t.Valid()
    ensures State(t.db.Map(), t.lines) == After(t.cfg, env, old(State(t.db.Map(), t.lines)), NoticeOf(d))
  {
    hide OnExec, OnExit, CTracer.Valid, Table.Map;
    if |d| >= CN_MSG_SIZE + PROC_EVT_HDR && Le32(d, 0) == CN_IDX_PROC && Le32(d, 4) == CN_VAL_PROC {
      var what, tsNs := Le32(d, CN_MSG_SIZE), Le64(d, CN_MSG_SIZE + 8);
      var ev := d[CN_MSG_SIZE + PROC_EVT_HDR..];
      if what == PROC_EVENT_EXEC {
        t.HandleExec(env, ev, tsNs);
      } else if what == PROC_EVENT_EXIT {
        t.HandleExit(ev, tsNs);
      }
    }
    if NoticeOf(d).Other? {
      NothingBefore(t.lines);
    }
  }

  // The i-th message is handled with what env(i) reads.
  method DispatchNlMsg(t: CTracer, env: nat -> Env, data: Data)
    requires t.Valid() && AllWalkable(env, 0, Notices(Frames(data)))
    requires Fits(t.cfg, env, 0, State(t.db.Map(), t.lines), Notices(Frames(data)), t.db.slots.Length)
    modifies t, t.db, t.db.slots
    ensures t.Valid()
    ensures State(t.db.Map(), t.lines) == Deliver(t.cfg, env, 0, old(State(t.db.Map(), t.lines)), Notices(Frames(data)))
  {
    hide NoticeOf, Perform, CTracer.Valid, Table.Map, Frames, Deliver, Fits, AllWalkable, Ahead, After;
    ghost var goal := Deliver(t.cfg, env, 0, State(t.db.Map(), t.lines), Notices(Frames(data)));
    var off: nat := 0;
    var i: nat := 0;
    assert data[0..] == data;
    Start(t.cfg, env, State(t.db.Map(), t.lines), t.db.slots.Length, data);
    while |data| - off >= NLMSG_HDR_SIZE
      invariant off <= |data| && t.Valid()
      invariant Ahead(t.cfg, env, i, State(t.db.Map(), t.lines), t.db.slots.Length, data[off..], goal)
      decreases |data| - off
    {
      var d := data[off..];
      var len := Le32(d, 0);
      if len < NLMSG_HDR_SIZE || len > |d| {
        break;
      }
      var adv := Align(len);
      Turn(t.cfg, env, i, State(t.db.Map(), t.lines), t.db.slots.Length, d,
           Frame(Le16(d, 4), Le16(d, 6), d[NLMSG_HDR_SIZE..len]), adv, goal);
      Handle(t, env(i), d[NLMSG_HDR_SIZE..len]);
      i := i + 1;
      if adv > |d| {
        Done(t.cfg, env, i, State(t.db.Map(), t.lines), t.db.slots.Length, [], goal);
        return;
      }
      assert From(d, adv) == data[off + adv..];
      off := off + adv;
    }
    Done(t.cfg, env, i, State(t.db.Map(), t.lines), t.db.slots.Length, data[off..], goal);
  }
}
