// The exec tracer's exec and exit handlers: which database event each accepts
// and which lines it prints, as functions of the database before the call.
module ExecEvents {
  import opened Bytes
  import opened Ancestry
  import opened Ledger
  import opened Collections

  datatype PidEntry = PidEntry(depth: int, startNs: nat, cmdline: string)

  const NEW_ENTRY := PidEntry(0, 0, "")

  datatype Status = ExitStatus(code: nat) | Signal(sig: nat)

  datatype Line =
    | Execed(pid: Pid, depth: int, cmdline: string)
    | Started(pid: Pid, depth: int)
    | Ended(pid: Pid, depth: int, cmdline: string, elapsedNs: nat, status: Status)

  type PidDB = map<Pid, PidEntry>

  datatype Config = Config(roots: seq<Pid>, showExit: bool)

  // What a handler reads about processes while it runs.  described: whether a
  // command line or a name can be read; without, printExec prints nothing.
  datatype Env = Env(parent: ParentFn, firstArg: Pid -> string, described: Pid -> bool)

  datatype Outcome = Outcome(events: seq<Event<Pid, PidEntry>>, lines: seq<Line>)

  function Depths(db: PidDB): map<Pid, int> {
    map p | p in db :: db[p].depth
  }

  function EventPid(data: seq<byte>): Pid
    requires |data| >= 4
  {
    Int32(Le32(data, 0))
  }

  function WaitStatus(exitCode: nat): Status {
    if exitCode % 128 == 0 then ExitStatus(exitCode / 256 % 256) else Signal(exitCode % 128)
  }

  ghost predicate CanWalk(env: Env, data: seq<byte>) {
    |data| >= 8 ==> Grounded(env.parent, EventPid(data))
  }

  function OnExec(cfg: Config, env: Env, db: PidDB, data: seq<byte>, tsNs: nat): (o: Outcome)
    requires CanWalk(env, data)
    ensures |o.events| <= 1
  {
    if |data| < 8 then Outcome([], [])
    else
      var pid := EventPid(data);
      var d := PidDepth(env.parent, cfg.roots, Depths(db), pid);
      if d < 0 then Outcome([], [])
      else
        Outcome(
          [Open(pid, PidEntry(d, tsNs, env.firstArg(pid)))],
          (if cfg.showExit && pid in db && db[pid].cmdline != "" then [Execed(pid, db[pid].depth, db[pid].cmdline)] else [])
          + (if env.described(pid) then [Started(pid, d)] else []))
  }

  const U64: nat := 0x1_0000_0000_0000_0000

  function OnExit(cfg: Config, db: PidDB, data: seq<byte>, tsNs: nat): (o: Outcome)
    ensures |o.events| <= 1
  {
    if |data| < 24 then Outcome([], [])
    else
      var pid := EventPid(data);
      Outcome(
        [Close(pid)],
        if cfg.showExit && pid in db
        then [Ended(pid, db[pid].depth, db[pid].cmdline, (tsNs - db[pid].startNs) % U64, WaitStatus(Le32(data, 8)))]
        else [])
  }

  // A handler accepts at most one event.
  function Advance(db: PidDB, events: seq<Event<Pid, PidEntry>>): PidDB
    requires |events| <= 1
  {
    if events == [] then db else Apply(db, events[0])
  }

  // ---- A history of handler calls, each with what it read ----

  datatype Call =
    | Exec(env: Env, data: seq<byte>, tsNs: nat)
    | Exit(data: seq<byte>, tsNs: nat)

  ghost predicate Callable(calls: seq<Call>) {
    forall c | c in calls && c.Exec? :: CanWalk(c.env, c.data)
  }

  function Answer(cfg: Config, db: PidDB, c: Call): (o: Outcome)
    requires Callable([c])
    ensures |o.events| <= 1
  {
    match c
    case Exec(env, data, ts) => assert c in [c]; OnExec(cfg, env, db, data, ts)
    case Exit(data, ts) => OnExit(cfg, db, data, ts)
  }

  // Everything a history accepts and prints, from an empty database.
  function History(cfg: Config, calls: seq<Call>): Outcome
    requires Callable(calls)
  {
    if calls == [] then Outcome([], [])
    else
      var h, c := History(cfg, calls[..|calls| - 1]), calls[|calls| - 1];
      var o := Answer(cfg, Replay(h.events), c);
      Outcome(h.events + o.events, h.lines + o.lines)
  }

  // The call behind each accepted event.
  function Sources(cfg: Config, calls: seq<Call>): (cs: seq<Call>)
    requires Callable(calls)
    ensures |cs| == |History(cfg, calls).events|
  {
    if calls == [] then []
    else
      var before, c := calls[..|calls| - 1], calls[|calls| - 1];
      Sources(cfg, before) + if Answer(cfg, Replay(History(cfg, before).events), c).events == [] then [] else [c]
  }

  // A printed exit, with the time since the entry was opened.
  datatype Report = Report(pid: Pid, depth: int, cmdline: string, elapsedNs: nat, status: Status)

  // The exit lines of an output.
  function Reports(lines: seq<Line>): seq<Report> {
    if lines == [] then []
    else
      var rest, l := Reports(lines[..|lines| - 1]), lines[|lines| - 1];
      if l.Ended? then rest + [Report(l.pid, l.depth, l.cmdline, l.elapsedNs, l.status)] else rest
  }

  // Only an exit event closes an entry.
  ghost predicate Closers(sources: seq<Call>, cs: seq<Closing<Pid, PidEntry>>) {
    forall c | c in cs :: c.closeAt < |sources| && sources[c.closeAt].Exit? && |sources[c.closeAt].data| >= 24
  }

  function ReportOf(c: Closing<Pid, PidEntry>, closer: Call): Report
    requires closer.Exit? && |closer.data| >= 24
  {
    Report(c.key, c.val.depth, c.val.cmdline, (closer.tsNs - c.val.startNs) % U64, WaitStatus(Le32(closer.data, 8)))
  }

  function ReportsOf(sources: seq<Call>, cs: seq<Closing<Pid, PidEntry>>): seq<Report>
    requires Closers(sources, cs)
  {
    if cs == [] then []
    else
      var c := cs[|cs| - 1];
      ReportsOf(sources, cs[..|cs| - 1]) + [ReportOf(c, sources[c.closeAt])]
  }

  lemma {:induction false} ReportsAppend(a: seq<Line>, b: seq<Line>)
    ensures Reports(a + b) == Reports(a) + Reports(b)
  {
    if b == [] {
      assert a + b == a;
    } else {
      assert (a + b)[..|a + b| - 1] == a + b[..|b| - 1];
      ReportsAppend(a, b[..|b| - 1]);
    }
  }

  lemma {:induction false} NoReports(lines: seq<Line>)
    requires forall l | l in lines :: !l.Ended?
    ensures Reports(lines) == []
  {
    if lines != [] {
      NoReports(lines[..|lines| - 1]);
    }
  }

  lemma {:induction false} ReportsOfMore(sources: seq<Call>, more: seq<Call>, cs: seq<Closing<Pid, PidEntry>>)
    requires Closers(sources, cs)
    ensures Closers(sources + more, cs) && ReportsOf(sources + more, cs) == ReportsOf(sources, cs)
  {
    if cs != [] {
      assert cs[|cs| - 1] in cs;
      ReportsOfMore(sources, more, cs[..|cs| - 1]);
    }
  }

  // What one call prints of exits, given the database before it.
  function Due(cfg: Config, db: PidDB, c: Call): seq<Report>
    requires Callable([c])
  {
    if cfg.showExit && c.Exit? && |c.data| >= 24 && EventPid(c.data) in db then
      var pid := EventPid(c.data);
      [Report(pid, db[pid].depth, db[pid].cmdline, (c.tsNs - db[pid].startNs) % U64, WaitStatus(Le32(c.data, 8)))]
    else []
  }

  lemma CallTellsDue(cfg: Config, db: PidDB, c: Call)
    requires Callable([c])
    ensures Reports(Answer(cfg, db, c).lines) == Due(cfg, db, c)
  {
    assert c in [c];
    var lines := Answer(cfg, db, c).lines;
    if c.Exec? {
      NoReports(lines);
    } else if lines != [] {
      assert lines == [lines[0]] && lines[..0] == [];
    }
  }

  // What one call adds to the closings.
  lemma ClosingsMore(run: seq<Event<Pid, PidEntry>>, e: Event<Pid, PidEntry>)
    ensures Closings(run + [e]) == Closings(run) +
              if e.Close? && e.key in Replay(run)
              then [Closing(e.key, Replay(run)[e.key], LastIndex(run, e.key), |run|)]
              else []
  {
    assert (run + [e])[..|run|] == run;
  }

  ghost predicate Told(cfg: Config, h: Outcome, sources: seq<Call>) {
    && |sources| == |h.events| && Closers(sources, Closings(h.events))
    && Reports(h.lines) == if cfg.showExit then ReportsOf(sources, Closings(h.events)) else []
  }

  // An accepted event is an exec's opening or an exit's closing; what is due
  // is the report of that closing.
  lemma EventOfCall(cfg: Config, db: PidDB, c: Call, openAt: nat, closeAt: nat)
    requires Callable([c])
    ensures var es := Answer(cfg, db, c).events;
            && (es == [] || es[0].Open? ==> Due(cfg, db, c) == [])
            && (es != [] && es[0].Close? ==>
                  && c.Exit? && |c.data| >= 24
                  && (es[0].key !in db ==> Due(cfg, db, c) == [])
                  && (es[0].key in db ==>
                        Due(cfg, db, c) ==
                        if cfg.showExit then [ReportOf(Closing(es[0].key, db[es[0].key], openAt, closeAt), c)] else []))
  {
    assert c in [c];
    hide EventPid, WaitStatus, PidDepth, Le32;
  }

  // One more event and the reports it calls for.
  lemma TellEvent(cfg: Config, h: Outcome, sources: seq<Call>, c: Call, e: Event<Pid, PidEntry>, due: seq<Report>)
    requires |sources| == |h.events| && Closers(sources, Closings(h.events))
    requires e.Close? ==> c.Exit? && |c.data| >= 24
    requires due == if e.Close? && e.key in Replay(h.events)
                    then [ReportOf(Closing(e.key, Replay(h.events)[e.key], LastIndex(h.events, e.key), |h.events|), c)]
                    else []
    ensures Closers(sources + [c], Closings(h.events + [e]))
    ensures ReportsOf(sources + [c], Closings(h.events + [e])) == ReportsOf(sources, Closings(h.events)) + due
  {
    ClosingsMore(h.events, e);
    ReportsOfMore(sources, [c], Closings(h.events));
    hide Replay, Closings, LastIndex, ReportsOf, ReportOf;
    if e.Close? && e.key in Replay(h.events) {
      OneMoreReport(sources + [c], Closings(h.events),
                    Closing(e.key, Replay(h.events)[e.key], LastIndex(h.events, e.key), |h.events|));
    } else {
      NothingBefore(Closings(h.events));
      NothingBefore(ReportsOf(sources, Closings(h.events)));
    }
  }

  lemma TellMore(cfg: Config, h: Outcome, sources: seq<Call>, c: Call)
    requires Callable([c]) && Told(cfg, h, sources)
    ensures var o := Answer(cfg, Replay(h.events), c);
            Told(cfg, Outcome(h.events + o.events, h.lines + o.lines), sources + if o.events == [] then [] else [c])
  {
    var db := Replay(h.events);
    var o := Answer(cfg, db, c);
    ReportsAppend(h.lines, o.lines);
    CallTellsDue(cfg, db, c);
    if o.events == [] {
      EventOfCall(cfg, db, c, 0, 0);
      NothingBefore(h.events);
      NothingBefore(sources);
      NothingBefore(Reports(h.lines));
    } else {
      TellAccepted(cfg, h, sources, c, o);
    }
  }

  lemma TellAccepted(cfg: Config, h: Outcome, sources: seq<Call>, c: Call, o: Outcome)
    requires Callable([c]) && Told(cfg, h, sources) && o == Answer(cfg, Replay(h.events), c) && o.events != []
    requires Reports(h.lines + o.lines) == Reports(h.lines) + Due(cfg, Replay(h.events), c)
    ensures Told(cfg, Outcome(h.events + o.events, h.lines + o.lines), sources + [c])
  {
    var db, e := Replay(h.events), o.events[0];
    assert o.events == [e];
    EventOfCall(cfg, db, c, LastIndex(h.events, e.key), |h.events|);
    hide Answer, Due, Replay, Closings, LastIndex, Reports, ReportsOf, ReportOf, Closers;
    var due := if e.Close? && e.key in db
               then [ReportOf(Closing(e.key, db[e.key], LastIndex(h.events, e.key), |h.events|), c)] else [];
    TellEvent(cfg, h, sources, c, e, due);
  }

  lemma OneMoreReport(sources: seq<Call>, cs: seq<Closing<Pid, PidEntry>>, c: Closing<Pid, PidEntry>)
    requires Closers(sources, cs)
    requires c.closeAt < |sources| && sources[c.closeAt].Exit? && |sources[c.closeAt].data| >= 24
    ensures Closers(sources, cs + [c])
    ensures ReportsOf(sources, cs + [c]) == ReportsOf(sources, cs) + [ReportOf(c, sources[c.closeAt])]
  {
    assert (cs + [c])[..|cs|] == cs;
  }

  // Over every history the exit lines are exactly the completed lives of the
  // accepted events, in order: each reports the depth, command and start
  // recorded by the latest exec of that pid and the time and exit code of its
  // exit; every exit of a traced process is reported, and no exec is reported
  // twice (ClosingsAreLives).
  lemma {:induction false} ExitLinesReportLives(cfg: Config, calls: seq<Call>)
    requires Callable(calls)
    ensures Told(cfg, History(cfg, calls), Sources(cfg, calls))
  {
    if calls != [] {
      var before, c := calls[..|calls| - 1], calls[|calls| - 1];
      ExitLinesReportLives(cfg, before);
      assert Callable([c]);
      hide Told, Answer;
      TellMore(cfg, History(cfg, before), Sources(cfg, before), c);
    }
  }

  // An opening event comes from an exec of that pid, at the time and with the
  // first argument on record.
  ghost predicate OpenedBy(e: Event<Pid, PidEntry>, c: Call) {
    e.Open? ==>
      && c.Exec? && |c.data| >= 8 && EventPid(c.data) == e.key
      && e.val.startNs == c.tsNs && e.val.cmdline == c.env.firstArg(e.key)
  }

  lemma {:induction false} OpeningsAreExecs(cfg: Config, calls: seq<Call>, i: nat)
    requires Callable(calls) && i < |History(cfg, calls).events|
    ensures OpenedBy(History(cfg, calls).events[i], Sources(cfg, calls)[i])
  {
    var before, c := calls[..|calls| - 1], calls[|calls| - 1];
    var n := |History(cfg, before).events|;
    assert Callable([c]);
    if i < n {
      OpeningsAreExecs(cfg, before, i);
    } else {
      assert c in [c];
      hide EventPid, PidDepth;
    }
  }

  // ---- What an event means ----

  // A pid on the wire.
  function PidBytes(pid: Pid): seq<byte>
    requires -0x8000_0000 <= pid < 0x8000_0000
  {
    PutLe32(if pid >= 0 then pid else pid + 0x1_0000_0000)
  }

  lemma PidReadsBack(pid: Pid, more: seq<byte>)
    requires -0x8000_0000 <= pid < 0x8000_0000
    ensures EventPid(PidBytes(pid) + more) == pid
  {
    var v := if pid >= 0 then pid else pid + 0x1_0000_0000;
    StandsInFront(PidBytes(pid), more);
    StandsLe32(PidBytes(pid) + more, 0, v);
  }

  // How the kernel codes the end of a process.
  datatype Ending = Exited(code: byte) | Killed(sig: nat, core: bool)

  predicate ValidEnd(e: Ending) {
    e.Killed? ==> 0 < e.sig < 128
  }

  function WaitCode(e: Ending): (c: nat)
    requires ValidEnd(e)
    ensures c < 0x10000
  {
    match e
    case Exited(code) => code as nat * 256
    case Killed(sig, core) => sig + if core then 128 else 0
  }

  lemma WaitStatusReadsBack(e: Ending)
    requires ValidEnd(e)
    ensures WaitStatus(WaitCode(e)) == if e.Exited? then ExitStatus(e.code as nat) else Signal(e.sig)
  {
    match e {
      case Exited(code) =>
        var c := code as nat;
        assert c * 256 % 128 == 0 && c * 256 / 256 == c && c % 256 == c;
      case Killed(sig, core) =>
        assert (sig + 128) % 128 == sig && sig % 128 == sig;
    }
  }

  // An exit event as sent.
  function ExitBytes(pid: Pid, tgid: seq<byte>, e: Ending, more: seq<byte>): (d: seq<byte>)
    requires -0x8000_0000 <= pid < 0x8000_0000 && |tgid| == 4 && ValidEnd(e)
  {
    PidBytes(pid) + (tgid + (PutLe32(WaitCode(e)) + more))
  }

  lemma ExitReadsBack(pid: Pid, tgid: seq<byte>, e: Ending, more: seq<byte>)
    requires -0x8000_0000 <= pid < 0x8000_0000 && |tgid| == 4 && ValidEnd(e)
    ensures var d := ExitBytes(pid, tgid, e, more);
            && EventPid(d) == pid
            && WaitStatus(Le32(d, 8)) == if e.Exited? then ExitStatus(e.code as nat) else Signal(e.sig)
  {
    var d, tail := ExitBytes(pid, tgid, e, more), PutLe32(WaitCode(e)) + more;
    PidReadsBack(pid, tgid + tail);
    assert Stands(d, 0, PidBytes(pid) + (tgid + tail));
    hide PutLe32, Stands, Le32;
    StandsAppend(d, 0, PidBytes(pid), tgid + tail);
    StandsAppend(d, 4, tgid, tail);
    StandsAppend(d, 8, PutLe32(WaitCode(e)), more);
    StandsLe32(d, 8, WaitCode(e));
    WaitStatusReadsBack(e);
  }

  // The exit of a traced process removes its entry and, if exits are shown,
  // prints its depth, its command, the time since it was opened and how it
  // ended; that of any other process changes and prints nothing.
  lemma ExitLaw(cfg: Config, db: PidDB, pid: Pid, tgid: seq<byte>, e: Ending, more: seq<byte>, tsNs: nat)
    requires -0x8000_0000 <= pid < 0x8000_0000 && |tgid| == 4 && ValidEnd(e) && |more| >= 12 && tsNs < U64
    ensures var o := OnExit(cfg, db, ExitBytes(pid, tgid, e, more), tsNs);
            && Advance(db, o.events) == db - {pid}
            && (!cfg.showExit || pid !in db ==> o.lines == [])
            && (cfg.showExit && pid in db && db[pid].startNs <= tsNs ==>
                  o.lines == [Ended(pid, db[pid].depth, db[pid].cmdline, tsNs - db[pid].startNs,
                                    if e.Exited? then ExitStatus(e.code as nat) else Signal(e.sig))])
  {
    ExitReadsBack(pid, tgid, e, more);
    hide EventPid, Le32, WaitStatus, PutLe32;
    if pid in db && db[pid].startNs <= tsNs {
      NoWrap(tsNs - db[pid].startNs);
    }
  }

  // Events too short to be such are passed over.
  lemma ShortEventsLaw(cfg: Config, env: Env, db: PidDB, data: seq<byte>, tsNs: nat)
    ensures |data| < 24 ==> OnExit(cfg, db, data, tsNs) == Outcome([], [])
    ensures |data| < 8 ==> OnExec(cfg, env, db, data, tsNs) == Outcome([], [])
  {
  }

  lemma NoWrap(n: nat)
    requires n < U64
    ensures n % U64 == n
  {
  }
}
