// The polling exec tracer of macOS: what one tick over a pid snapshot may do
// to the database and the output, and what that means for whole runs.
module DarwinExec {
  import opened Ancestry
  import opened Collections

  datatype MacEntry = MacEntry(depth: int, argv0: string)

  // An entry for a process not known to stand below a root.
  const UNTRACED := MacEntry(-1, "")

  type MacDB = map<Pid, MacEntry>

  // The calls of the printing routines.  The one for an exec prints nothing
  // about a process whose command line and path can no longer be read.
  datatype Call = Started(pid: Pid, depth: int, shown: bool) | Ended(pid: Pid, depth: int, argv0: string)

  // What bsdInfo and the argv lookup answer during one tick; a negative parent
  // is a process that cannot be inspected.  described: whether there is a
  // command line or a path when the exec is to be printed.
  datatype Info = Info(parent: ParentFn, argv0: Pid -> string, described: Pid -> bool)

  datatype State = State(db: MacDB, calls: seq<Call>)

  function Depths(db: MacDB): map<Pid, int> {
    map p | p in db :: db[p].depth
  }

  predicate Traced(db: MacDB, p: Pid) {
    p in db && db[p].depth >= 0
  }

  ghost predicate CanWalk(info: Info, pids: seq<Pid>) {
    forall p | p in pids && info.parent(p) >= 0 :: Grounded(SelfParentIsTop(info.parent), p)
  }

  // A pid of the snapshot: a known one is trusted, a new one is recorded and
  // reported when it stands below a root.
  function Arrive(roots: seq<Pid>, info: Info, s: State, pid: Pid): State
    requires info.parent(pid) >= 0 ==> Grounded(SelfParentIsTop(info.parent), pid)
  {
    if pid in s.db then s
    else if info.parent(pid) < 0 then s.(db := s.db[pid := UNTRACED])
    else
      var d := DarwinPidDepth(info.parent, roots, Depths(s.db), pid);
      State(s.db[pid := MacEntry(d, info.argv0(pid))],
            if d >= 0 then s.calls + [Started(pid, d, info.described(pid))] else s.calls)
  }

  function Arrivals(roots: seq<Pid>, info: Info, s: State, pids: seq<Pid>): State
    requires CanWalk(info, pids)
  {
    if pids == [] then s
    else Arrive(roots, info, Arrivals(roots, info, s, pids[..|pids| - 1]), pids[|pids| - 1])
  }

  function EndCall(db: MacDB, p: Pid): Call
    requires p in db
  {
    Ended(p, db[p].depth, db[p].argv0)
  }

  // The calls for processes leaving one after the other; exits says whether
  // exits are shown.
  function Departures(exits: bool, db: MacDB, gone: seq<Pid>): seq<Call>
    requires forall p | p in gone :: p in db
  {
    if gone == [] then []
    else
      var p := gone[|gone| - 1];
      Departures(exits, db, gone[..|gone| - 1]) + if exits && db[p].depth >= 0 then [EndCall(db, p)] else []
  }

  ghost function SetOf(pids: seq<Pid>): set<Pid> {
    set p | p in pids
  }

  ghost predicate NoRepeats(pids: seq<Pid>) {
    forall i, j | 0 <= i < j < |pids| :: pids[i] != pids[j]
  }

  // A tick: the arrivals, then the departure of `gone`, each a vanished
  // process and each leaving once.
  ghost predicate Tick(exits: bool, roots: seq<Pid>, info: Info, s: State, pids: seq<Pid>, gone: seq<Pid>, s': State)
    requires CanWalk(info, pids)
  {
    var m := Arrivals(roots, info, s, pids);
    && NoRepeats(gone)
    && (forall p | p in gone :: p in m.db && p !in pids)
    && s'.db == m.db - SetOf(gone)
    && s'.calls == m.calls + Departures(exits, m.db, gone)
  }

  // ---- One tick ----

  lemma {:induction false} ArrivalsKeepKnown(roots: seq<Pid>, info: Info, s: State, pids: seq<Pid>)
    requires CanWalk(info, pids)
    ensures var m := Arrivals(roots, info, s, pids);
            && m.db.Keys == s.db.Keys + SetOf(pids)
            && forall p | p in s.db :: m.db[p] == s.db[p]
  {
    if pids != [] {
      var before := pids[..|pids| - 1];
      ArrivalsKeepKnown(roots, info, s, before);
      assert SetOf(pids) == SetOf(before) + {pids[|pids| - 1]};
    }
  }

  // After a tick in which everything that vanished departs, the database's
  // keys are the snapshot, and conversely.
  lemma KeysAreSnapshot(exits: bool, roots: seq<Pid>, info: Info, s: State, pids: seq<Pid>, gone: seq<Pid>, s': State)
    requires CanWalk(info, pids) && Tick(exits, roots, info, s, pids, gone, s')
    ensures s'.db.Keys == SetOf(pids) <==> SetOf(gone) == s.db.Keys - SetOf(pids)
    ensures forall p | p in s'.db && p in s.db :: s'.db[p] == s.db[p]
  {
    ArrivalsKeepKnown(roots, info, s, pids);
    var m := Arrivals(roots, info, s, pids);
    forall p | p in SetOf(gone)
      ensures p in s.db.Keys + SetOf(pids) && p !in SetOf(pids)
    {
      assert p in gone && p in m.db.Keys;
    }
    WhatIsLeft(s.db.Keys, SetOf(pids), SetOf(gone));
    assert s'.db.Keys == m.db.Keys - SetOf(gone);
  }

  lemma WhatIsLeft<T>(known: set<T>, listed: set<T>, gone: set<T>)
    requires forall p | p in gone :: p in known + listed && p !in listed
    ensures known + listed - gone == listed <==> gone == known - listed
  {
    if known + listed - gone == listed {
      forall p | p in known - listed
        ensures p in gone
      {
        assert p !in known + listed - gone;
      }
    }
  }

  // ---- Alternation ----

  datatype Phase = Idle | Running | Broken

  // Reads the calls about p and checks that they alternate, exec first.
  function PhaseAfter(calls: seq<Call>, p: Pid): Phase {
    if calls == [] then Idle
    else
      var before, l := PhaseAfter(calls[..|calls| - 1], p), calls[|calls| - 1];
      if l.pid != p then before
      else if l.Started? && before == Idle then Running
      else if l.Ended? && before == Running then Idle
      else Broken
  }

  // No pid's calls ever break the alternation, and a pid is between its exec
  // line and its exit line exactly while the database traces it.
  ghost predicate Alternates(s: State) {
    forall p :: PhaseAfter(s.calls, p) == if Traced(s.db, p) then Running else Idle
  }

  lemma PhaseStep(calls: seq<Call>, l: Call)
    ensures forall p | p != l.pid :: PhaseAfter(calls + [l], p) == PhaseAfter(calls, p)
    ensures l.Started? && PhaseAfter(calls, l.pid) == Idle ==> PhaseAfter(calls + [l], l.pid) == Running
    ensures l.Ended? && PhaseAfter(calls, l.pid) == Running ==> PhaseAfter(calls + [l], l.pid) == Idle
  {
    assert (calls + [l])[..|calls|] == calls;
  }

  lemma RecordingAlternates(s: State, pid: Pid, e: MacEntry, shown: bool)
    requires Alternates(s) && pid !in s.db
    ensures Alternates(State(s.db[pid := e], if e.depth >= 0 then s.calls + [Started(pid, e.depth, shown)] else s.calls))
  {
    assert !Traced(s.db, pid);
    PhaseStep(s.calls, Started(pid, e.depth, shown));
  }

  lemma ArriveAlternates(roots: seq<Pid>, info: Info, s: State, pid: Pid)
    requires info.parent(pid) >= 0 ==> Grounded(SelfParentIsTop(info.parent), pid)
    requires Alternates(s)
    ensures Alternates(Arrive(roots, info, s, pid))
  {
    if pid !in s.db {
      RecordingAlternates(s, pid, Arrive(roots, info, s, pid).db[pid], info.described(pid));
    }
  }

  lemma {:induction false} ArrivalsAlternate(roots: seq<Pid>, info: Info, s: State, pids: seq<Pid>)
    requires CanWalk(info, pids) && Alternates(s)
    ensures Alternates(Arrivals(roots, info, s, pids))
  {
    if pids != [] {
      ArrivalsAlternate(roots, info, s, pids[..|pids| - 1]);
      ArriveAlternates(roots, info, Arrivals(roots, info, s, pids[..|pids| - 1]), pids[|pids| - 1]);
    }
  }

  lemma DepartureAlternates(s: State, p: Pid, l: Call)
    requires Alternates(s) && p in s.db && l.pid == p && l.Ended?
    ensures Alternates(State(s.db - {p}, if s.db[p].depth >= 0 then s.calls + [l] else s.calls))
  {
    assert Traced(s.db, p) <==> s.db[p].depth >= 0;
    PhaseStep(s.calls, l);
  }

  lemma {:induction false} DeparturesAlternate(s: State, gone: seq<Pid>)
    requires Alternates(s) && NoRepeats(gone) && forall p | p in gone :: p in s.db
    ensures Alternates(State(s.db - SetOf(gone), s.calls + Departures(true, s.db, gone)))
  {
    hide Alternates, PhaseAfter;
    if gone == [] {
      SameMap(s.db - SetOf(gone), s.db);
      NothingBefore(s.calls);
    } else {
      var before, p := gone[..|gone| - 1], gone[|gone| - 1];
      var told := Departures(true, s.db, before);
      DeparturesAlternate(s, before);
      assert p !in SetOf(before);
      SameMap(s.db - SetOf(gone), s.db - SetOf(before) - {p});
      DepartureAlternates(State(s.db - SetOf(before), s.calls + told), p, EndCall(s.db, p));
      NothingBefore(told);
      Assoc(s.calls, told, [EndCall(s.db, p)]);
    }
  }

  lemma TickAlternates(roots: seq<Pid>, info: Info, s: State, pids: seq<Pid>, gone: seq<Pid>, s': State)
    requires CanWalk(info, pids) && Tick(true, roots, info, s, pids, gone, s') && Alternates(s)
    ensures Alternates(s')
  {
    ArrivalsAlternate(roots, info, s, pids);
    DeparturesAlternate(Arrivals(roots, info, s, pids), gone);
  }

  // ---- Whole runs ----

  datatype Poll = Poll(info: Info, pids: seq<Pid>, gone: seq<Pid>)

  // A seeded database reports nothing about the processes it found.
  ghost predicate Seeded(s: State) {
    s.calls == [] && forall p | p in s.db :: s.db[p].depth == -1
  }

  ghost predicate IsRun(exits: bool, roots: seq<Pid>, states: seq<State>, polls: seq<Poll>) {
    && |states| == |polls| + 1 && Seeded(states[0])
    && forall i | 0 <= i < |polls| ::
         && CanWalk(polls[i].info, polls[i].pids)
         && Tick(exits, roots, polls[i].info, states[i], polls[i].pids, polls[i].gone, states[i + 1])
  }

  // Over every run that shows exits, the calls about each pid strictly
  // alternate, exec first.
  lemma {:induction false} RunsAlternate(roots: seq<Pid>, states: seq<State>, polls: seq<Poll>, i: nat)
    requires IsRun(true, roots, states, polls) && i < |states|
    ensures Alternates(states[i])
  {
    if i > 0 {
      RunsAlternate(roots, states, polls, i - 1);
      var poll := polls[i - 1];
      TickAlternates(roots, poll.info, states[i - 1], poll.pids, poll.gone, states[i]);
    }
  }

  // ---- What is printed ----

  predicate Prints(l: Call) {
    l.Started? ==> l.shown
  }

  function Printed(calls: seq<Call>): seq<Call> {
    if calls == [] then []
    else Printed(calls[..|calls| - 1]) + if Prints(calls[|calls| - 1]) then [calls[|calls| - 1]] else []
  }

  // The last call about p is an exec that was printed.
  predicate LastShown(calls: seq<Call>, p: Pid) {
    calls != [] &&
    var l := calls[|calls| - 1];
    if l.pid == p then l.Started? && l.shown else LastShown(calls[..|calls| - 1], p)
  }

  // Some exit of p was printed although its exec had not been.
  predicate Orphaned(calls: seq<Call>, p: Pid) {
    calls != [] &&
    var before, l := calls[..|calls| - 1], calls[|calls| - 1];
    Orphaned(before, p) || (l.pid == p && l.Ended? && !LastShown(before, p))
  }

  predicate AllShown(calls: seq<Call>, p: Pid) {
    forall l | l in calls && l.pid == p :: Prints(l)
  }

  lemma {:induction false} PrintedPhase(calls: seq<Call>, p: Pid)
    requires PhaseAfter(calls, p) != Broken
    ensures PhaseAfter(Printed(calls), p) ==
            if Orphaned(calls, p) then Broken
            else if PhaseAfter(calls, p) == Running && LastShown(calls, p) then Running else Idle
    ensures PhaseAfter(calls, p) == Idle ==> !LastShown(calls, p)
  {
    if calls != [] {
      var before, l := calls[..|calls| - 1], calls[|calls| - 1];
      PrintedPhase(before, p);
      if Prints(l) {
        assert (Printed(before) + [l])[..|Printed(before)|] == Printed(before);
      } else {
        NothingBefore(Printed(before));
      }
    }
  }

  lemma {:induction false} ShownIffNotOrphaned(calls: seq<Call>, p: Pid)
    requires PhaseAfter(calls, p) != Broken
    ensures AllShown(calls, p) <==> !Orphaned(calls, p) && (PhaseAfter(calls, p) == Running ==> LastShown(calls, p))
  {
    if calls != [] {
      var before, l := calls[..|calls| - 1], calls[|calls| - 1];
      ShownIffNotOrphaned(before, p);
      PrintedPhase(before, p);
      assert calls == before + [l];
      assert AllShown(calls, p) <==> AllShown(before, p) && (l.pid == p ==> Prints(l));
    }
  }

  // Over every run that shows exits, the lines printed about p alternate, exec
  // first, if and only if no exit of p was printed without its exec;
  lemma LinesAlternateIffNotOrphaned(roots: seq<Pid>, states: seq<State>, polls: seq<Poll>, i: nat, p: Pid)
    requires IsRun(true, roots, states, polls) && i < |states|
    ensures PhaseAfter(Printed(states[i].calls), p) != Broken <==> !Orphaned(states[i].calls, p)
  {
    RunsAlternate(roots, states, polls, i);
    PrintedPhase(states[i].calls, p);
  }

  // and they are in step with the database, p between its exec and its exit
  // line exactly while it is traced, if and only if every traced arrival of p
  // could be described.
  lemma LinesInStepIffDescribed(roots: seq<Pid>, states: seq<State>, polls: seq<Poll>, i: nat, p: Pid)
    requires IsRun(true, roots, states, polls) && i < |states|
    ensures PhaseAfter(Printed(states[i].calls), p) == (if Traced(states[i].db, p) then Running else Idle)
            <==> AllShown(states[i].calls, p)
  {
    RunsAlternate(roots, states, polls, i);
    PrintedPhase(states[i].calls, p);
    ShownIffNotOrphaned(states[i].calls, p);
  }

  // Process 2, a child of root 1 that can be inspected but not described.
  const SHY := Info(p => if p == 2 then 1 else if p == 1 then 0 else -1, p => "", p => p != 2)

  const SHY_CAME := State(map[2 := MacEntry(0, "")], [Started(2, 0, false)])
  const SHY_LEFT := State(map[], [Started(2, 0, false), Ended(2, 0, "")])

  lemma ShyCanWalk(pids: seq<Pid>)
    requires pids == [2] || pids == []
    ensures CanWalk(SHY, pids)
  {
    var parent := SelfParentIsTop(SHY.parent);
    assert EndsWithin(parent, 1, 0) && EndsWithin(parent, 2, 1);
  }

  lemma ShyComes()
    ensures CanWalk(SHY, [2]) && Tick(true, [1], SHY, State(map[], []), [2], [], SHY_CAME)
  {
    ShyCanWalk([2]);
    var s: State := State(map[], []);
    assert [2][..0] == [] && Arrivals([1], SHY, s, []) == s;
    assert Arrive([1], SHY, s, 2) == SHY_CAME;
    SameMap(SHY_CAME.db - SetOf([]), SHY_CAME.db);
  }

  lemma ShyGoes()
    ensures CanWalk(SHY, []) && Tick(true, [1], SHY, SHY_CAME, [], [2], SHY_LEFT)
  {
    ShyCanWalk([]);
    assert Arrivals([1], SHY, SHY_CAME, []) == SHY_CAME;
    assert [2][..0] == [] && Departures(true, SHY_CAME.db, []) == [];
    assert Departures(true, SHY_CAME.db, [2]) == [Ended(2, 0, "")];
    SameMap(SHY_CAME.db - SetOf([2]), map[]);
  }

  // It comes in one poll and is gone in the next: an exit line without an exec
  // line.
  lemma ExitWithoutExec()
    ensures IsRun(true, [1], [State(map[], []), SHY_CAME, SHY_LEFT], [Poll(SHY, [2], []), Poll(SHY, [], [2])])
    ensures Printed(SHY_LEFT.calls) == [Ended(2, 0, "")] && PhaseAfter(Printed(SHY_LEFT.calls), 2) == Broken
  {
    ShyComes();
    ShyGoes();
    hide Tick;
    var calls := SHY_LEFT.calls;
    assert calls[..1] == SHY_CAME.calls && SHY_CAME.calls[..0] == [];
    assert Printed(SHY_CAME.calls) == [];
    assert [Ended(2, 0, "")][..0] == [];
  }

  // The exec calls of an output.
  function Starts(calls: seq<Call>): seq<Call> {
    if calls == [] then []
    else Starts(calls[..|calls| - 1]) + if calls[|calls| - 1].Started? then [calls[|calls| - 1]] else []
  }

  lemma {:induction false} StartsAppend(a: seq<Call>, b: seq<Call>)
    ensures Starts(a + b) == Starts(a) + Starts(b)
  {
    if b == [] {
      NothingBefore(a);
      NothingBefore(Starts(a));
    } else {
      assert (a + b)[..|a + b| - 1] == a + b[..|b| - 1];
      StartsAppend(a, b[..|b| - 1]);
    }
  }

  lemma {:induction false} ArrivalsIgnoreLines(roots: seq<Pid>, info: Info, s: State, t: State, pids: seq<Pid>)
    requires CanWalk(info, pids) && s.db == t.db && t.calls == Starts(s.calls)
    ensures var m, n := Arrivals(roots, info, s, pids), Arrivals(roots, info, t, pids);
            m.db == n.db && n.calls == Starts(m.calls)
  {
    if pids != [] {
      var before, pid := pids[..|pids| - 1], pids[|pids| - 1];
      ArrivalsIgnoreLines(roots, info, s, t, before);
      hide Arrive, Starts;
      ArriveIgnoresLines(roots, info, Arrivals(roots, info, s, before), Arrivals(roots, info, t, before), pid);
    }
  }

  lemma ArriveIgnoresLines(roots: seq<Pid>, info: Info, s: State, t: State, pid: Pid)
    requires info.parent(pid) >= 0 ==> Grounded(SelfParentIsTop(info.parent), pid)
    requires s.db == t.db && t.calls == Starts(s.calls)
    ensures var m, n := Arrive(roots, info, s, pid), Arrive(roots, info, t, pid);
            m.db == n.db && n.calls == Starts(m.calls)
  {
    var call := Started(pid, Arrive(roots, info, s, pid).db[pid].depth, info.described(pid));
    StartsAppend(s.calls, [call]);
    assert Starts([call]) == [call];
    hide Starts;
  }

  lemma {:induction false} DeparturesEnd(exits: bool, db: MacDB, gone: seq<Pid>)
    requires forall p | p in gone :: p in db
    ensures Starts(Departures(exits, db, gone)) == [] && (!exits ==> Departures(exits, db, gone) == [])
  {
    if gone != [] {
      var p := gone[|gone| - 1];
      DeparturesEnd(exits, db, gone[..|gone| - 1]);
      NothingBefore(Departures(exits, db, gone[..|gone| - 1]));
      StartsAppend(Departures(exits, db, gone[..|gone| - 1]), [EndCall(db, p)]);
      assert Starts([EndCall(db, p)]) == [];
    }
  }

  // A run that hides exits keeps the same database and prints the exec calls
  // of the run that shows them, and nothing else.
  lemma {:induction false} HidingExitsKeepsStarts(roots: seq<Pid>, states: seq<State>, quiet: seq<State>, polls: seq<Poll>, i: nat)
    requires IsRun(true, roots, states, polls) && IsRun(false, roots, quiet, polls)
    requires states[0] == quiet[0] && i < |states|
    ensures quiet[i].db == states[i].db && quiet[i].calls == Starts(states[i].calls)
  {
    if i > 0 {
      HidingExitsKeepsStarts(roots, states, quiet, polls, i - 1);
      var s, t, poll := states[i - 1], quiet[i - 1], polls[i - 1];
      assert Tick(true, roots, poll.info, s, poll.pids, poll.gone, states[i - 1 + 1]);
      assert Tick(false, roots, poll.info, t, poll.pids, poll.gone, quiet[i - 1 + 1]);
      ArrivalsIgnoreLines(roots, poll.info, s, t, poll.pids);
      var m, n := Arrivals(roots, poll.info, s, poll.pids), Arrivals(roots, poll.info, t, poll.pids);
      DeparturesEnd(true, m.db, poll.gone);
      DeparturesEnd(false, n.db, poll.gone);
      StartsAppend(m.calls, Departures(true, m.db, poll.gone));
      NothingBefore(n.calls);
    }
  }

  // Nothing is printed about p, and p is at most an entry of unknown depth.
  ghost predicate Silent(s: State, p: Pid) {
    (p in s.db ==> s.db[p].depth == -1) && forall l | l in s.calls :: l.pid != p
  }

  // p leaves a snapshot and is in a later one.
  ghost predicate Returns(polls: seq<Poll>, i: nat, p: Pid)
    requires i <= |polls|
  {
    exists a, b :: 0 <= a < b < i && p !in polls[a].pids && p in polls[b].pids
  }

  // Nothing is ever printed about a process found at seed time, not even when
  // it vanishes, until its pid has left a snapshot and come back.
  lemma {:induction false} SeededStaySilent(exits: bool, roots: seq<Pid>, states: seq<State>, polls: seq<Poll>, i: nat, p: Pid)
    requires IsRun(exits, roots, states, polls) && i < |states|
    requires p in states[0].db && !Returns(polls, i, p)
    ensures Silent(states[i], p)
    ensures (forall j | 0 <= j < i :: p in polls[j].pids) ==> p in states[i].db
  {
    if i > 0 {
      var s, poll := states[i - 1], polls[i - 1];
      SeededStaySilent(exits, roots, states, polls, i - 1, p);
      assert Tick(exits, roots, poll.info, s, poll.pids, poll.gone, states[i - 1 + 1]);
      assert p in poll.pids ==> p in s.db by {
        assert p in poll.pids ==> forall a | 0 <= a < i - 1 :: p in polls[a].pids;
      }
      TickSilent(exits, roots, poll.info, s, poll.pids, poll.gone, states[i], p);
    }
  }

  lemma TickSilent(exits: bool, roots: seq<Pid>, info: Info, s: State, pids: seq<Pid>, gone: seq<Pid>, s': State, p: Pid)
    requires CanWalk(info, pids) && Tick(exits, roots, info, s, pids, gone, s')
    requires Silent(s, p) && (p in pids ==> p in s.db)
    ensures Silent(s', p) && (p in pids ==> p in s'.db)
  {
    ArrivalsKeepKnown(roots, info, s, pids);
    ArrivalsSilentAbout(roots, info, s, pids, p);
    DeparturesNamed(exits, Arrivals(roots, info, s, pids).db, gone);
  }

  lemma {:induction false} ArrivalsSilentAbout(roots: seq<Pid>, info: Info, s: State, pids: seq<Pid>, p: Pid)
    requires CanWalk(info, pids) && (p in s.db || p !in pids) && forall l | l in s.calls :: l.pid != p
    ensures forall l | l in Arrivals(roots, info, s, pids).calls :: l.pid != p
  {
    if pids != [] {
      ArrivalsSilentAbout(roots, info, s, pids[..|pids| - 1], p);
      ArrivalsKeepKnown(roots, info, s, pids[..|pids| - 1]);
    }
  }

  lemma {:induction false} DeparturesNamed(exits: bool, db: MacDB, gone: seq<Pid>)
    requires forall p | p in gone :: p in db
    ensures forall l | l in Departures(exits, db, gone) :: l.pid in gone && db[l.pid].depth >= 0
  {
    if gone != [] {
      DeparturesNamed(exits, db, gone[..|gone| - 1]);
    }
  }

  // ---- Depths ----

  ghost predicate TrueDepth(roots: seq<Pid>, info: Info, p: Pid, d: int) {
    info.parent(p) >= 0 && IsDepth(SelfParentIsTop(info.parent), roots, p, d)
  }

  // Among the proper ancestors of every process of the snapshot that can be
  // inspected, the depths on record are true.
  ghost predicate AncestorsTrue(roots: seq<Pid>, info: Info, db: MacDB, pids: seq<Pid>)
    requires CanWalk(info, pids)
  {
    forall p | p in pids && info.parent(p) >= 0 :: SoundAbove(SelfParentIsTop(info.parent), roots, Known(Depths(db)), p)
  }

  lemma {:induction false} OneMoreTrue(parent: ParentFn, roots: seq<Pid>, cache: map<Pid, int>, q: Pid, d: int, pid: Pid)
    requires Grounded(parent, pid) && SoundAbove(parent, roots, cache, pid)
    requires d >= 0 && IsDepth(parent, roots, q, d)
    ensures SoundAbove(parent, roots, cache[q := d], pid)
    decreases Height(parent, pid)
  {
    if parent(pid) > 0 {
      ParentIsLower(parent, pid);
      OneMoreTrue(parent, roots, cache, q, d, parent(pid));
    }
  }

  lemma RecordKnown(db: MacDB, pid: Pid, e: MacEntry)
    requires pid !in db
    ensures Known(Depths(db[pid := e])) == if e.depth >= 0 then Known(Depths(db))[pid := e.depth] else Known(Depths(db))
  {
  }

  lemma ArriveKeepsTrue(roots: seq<Pid>, info: Info, s: State, pid: Pid, pids: seq<Pid>)
    requires CanWalk(info, pids) && pid in pids && AncestorsTrue(roots, info, s.db, pids)
    ensures var s' := Arrive(roots, info, s, pid);
            && AncestorsTrue(roots, info, s'.db, pids)
            && (s'.calls != s.calls ==>
                  pid !in s.db && s'.calls == s.calls + [Started(pid, s'.db[pid].depth, info.described(pid))] && TrueDepth(roots, info, pid, s'.db[pid].depth))
  {
    if pid !in s.db {
      var e := Arrive(roots, info, s, pid).db[pid];
      RecordKnown(s.db, pid, e);
      if e.depth >= 0 {
        var parent, cache := SelfParentIsTop(info.parent), Known(Depths(s.db));
        DarwinDepthIsPidDepth(info.parent, roots, Depths(s.db), pid);
        PidDepthIsDepth(parent, roots, cache, pid);
        forall p | p in pids && info.parent(p) >= 0
          ensures SoundAbove(parent, roots, cache[pid := e.depth], p)
        {
          OneMoreTrue(parent, roots, cache, pid, e.depth, p);
        }
      }
    }
  }

  // The calls that b has more than a all report true depths.
  ghost predicate ReportsTrue(roots: seq<Pid>, info: Info, a: seq<Call>, b: seq<Call>) {
    a <= b && forall i | |a| <= i < |b| && b[i].Started? :: TrueDepth(roots, info, b[i].pid, b[i].depth)
  }

  // The arrivals of a tick are recorded and reported at their true depth.
  lemma {:induction false} ArrivalsTrueDepths(roots: seq<Pid>, info: Info, s: State, pids: seq<Pid>, n: nat)
    requires CanWalk(info, pids) && n <= |pids| && AncestorsTrue(roots, info, s.db, pids)
    ensures var m := Arrivals(roots, info, s, pids[..n]);
            && AncestorsTrue(roots, info, m.db, pids)
            && ReportsTrue(roots, info, s.calls, m.calls)
            && forall p | p in m.db && p !in s.db && m.db[p].depth >= 0 :: TrueDepth(roots, info, p, m.db[p].depth)
  {
    if n > 0 {
      assert pids[..n][..n - 1] == pids[..n - 1];
      ArrivalsTrueDepths(roots, info, s, pids, n - 1);
      ArriveReportsTrue(roots, info, Arrivals(roots, info, s, pids[..n - 1]), pids[n - 1], pids);
      hide Arrive, TrueDepth, AncestorsTrue;
    }
  }

  lemma ArriveReportsTrue(roots: seq<Pid>, info: Info, s: State, pid: Pid, pids: seq<Pid>)
    requires CanWalk(info, pids) && pid in pids && AncestorsTrue(roots, info, s.db, pids)
    ensures var s' := Arrive(roots, info, s, pid);
            && AncestorsTrue(roots, info, s'.db, pids)
            && ReportsTrue(roots, info, s.calls, s'.calls)
            && s'.db.Keys == s.db.Keys + {pid} && (forall p | p in s.db :: s'.db[p] == s.db[p])
            && (pid !in s.db && s'.db[pid].depth >= 0 ==> TrueDepth(roots, info, pid, s'.db[pid].depth))
  {
    ArriveKeepsTrue(roots, info, s, pid, pids);
  }

  // ---- Depths over runs ----

  // The parent of a process that can be inspected is listed and can be
  // inspected too.
  ghost predicate ParentsListed(info: Info, pids: seq<Pid>) {
    forall p | p in pids && SelfParentIsTop(info.parent)(p) > 0 ::
      info.parent(p) in pids && info.parent(info.parent(p)) >= 0
  }

  // As long as its pid stays in the snapshots, a process keeps its depth: the
  // tracer trusts known pids to be the same process with the same parent.
  ghost predicate Steady(roots: seq<Pid>, polls: seq<Poll>) {
    forall a, b, p, d | 0 <= a < b < |polls| && Stays(polls, a, b + 1, p) && polls[b].info.parent(p) >= 0 &&
                        TrueDepth(roots, polls[a].info, p, d) ::
      TrueDepth(roots, polls[b].info, p, d)
  }

  ghost predicate Stays(polls: seq<Poll>, a: nat, b: nat, p: Pid)
    requires b <= |polls|
  {
    forall c | a <= c < b :: p in polls[c].pids
  }

  // d was the depth of p in some poll, and p has been listed since.
  ghost predicate Recorded(roots: seq<Pid>, polls: seq<Poll>, i: nat, p: Pid, d: int)
    requires i <= |polls|
  {
    exists a :: 0 <= a < i && Stays(polls, a, i, p) && TrueDepth(roots, polls[a].info, p, d)
  }

  ghost predicate TrustedRun(exits: bool, roots: seq<Pid>, states: seq<State>, polls: seq<Poll>) {
    && IsRun(exits, roots, states, polls) && Steady(roots, polls)
    && forall i | 0 <= i < |polls| ::
         ParentsListed(polls[i].info, polls[i].pids) && states[i + 1].db.Keys == SetOf(polls[i].pids)
  }

  lemma {:induction false} ListedSoundAbove(roots: seq<Pid>, info: Info, db: MacDB, pids: seq<Pid>, p: Pid)
    requires CanWalk(info, pids) && ParentsListed(info, pids) && p in pids && info.parent(p) >= 0
    requires forall q | q in pids && info.parent(q) >= 0 && Traced(db, q) :: TrueDepth(roots, info, q, db[q].depth)
    ensures SoundAbove(SelfParentIsTop(info.parent), roots, Known(Depths(db)), p)
    decreases Height(SelfParentIsTop(info.parent), p)
  {
    var parent := SelfParentIsTop(info.parent);
    if parent(p) > 0 {
      ParentIsLower(parent, p);
      ListedSoundAbove(roots, info, db, pids, parent(p));
    }
  }

  lemma RecordedIsTrue(roots: seq<Pid>, polls: seq<Poll>, i: nat, p: Pid, d: int)
    requires i < |polls| && Steady(roots, polls) && Recorded(roots, polls, i, p, d)
    requires p in polls[i].pids && polls[i].info.parent(p) >= 0
    ensures TrueDepth(roots, polls[i].info, p, d)
  {
    var a :| 0 <= a < i && Stays(polls, a, i, p) && TrueDepth(roots, polls[a].info, p, d);
    assert Stays(polls, a, i + 1, p);
  }

  lemma RecordedLater(roots: seq<Pid>, polls: seq<Poll>, i: nat, p: Pid, d: int)
    requires i < |polls| && p in polls[i].pids
    requires Recorded(roots, polls, i, p, d) || TrueDepth(roots, polls[i].info, p, d)
    ensures Recorded(roots, polls, i + 1, p, d)
  {
    if Recorded(roots, polls, i, p, d) {
      var a :| 0 <= a < i && Stays(polls, a, i, p) && TrueDepth(roots, polls[a].info, p, d);
      assert Stays(polls, a, i + 1, p);
    } else {
      assert Stays(polls, i, i + 1, p);
    }
  }

  ghost predicate AllRecorded(roots: seq<Pid>, polls: seq<Poll>, i: nat, db: MacDB)
    requires i <= |polls|
  {
    forall p | Traced(db, p) :: Recorded(roots, polls, i, p, db[p].depth)
  }

  // In such a run, what is recorded of the ancestors of listed processes is
  // true in the next poll.
  lemma TrustedAncestors(exits: bool, roots: seq<Pid>, states: seq<State>, polls: seq<Poll>, i: nat)
    requires TrustedRun(exits, roots, states, polls) && i < |polls| && AllRecorded(roots, polls, i, states[i].db)
    ensures AncestorsTrue(roots, polls[i].info, states[i].db, polls[i].pids)
  {
    var s, info, pids := states[i], polls[i].info, polls[i].pids;
    assert ParentsListed(info, pids);
    forall q | q in pids && info.parent(q) >= 0 && Traced(s.db, q)
      ensures TrueDepth(roots, info, q, s.db[q].depth)
    {
      RecordedIsTrue(roots, polls, i, q, s.db[q].depth);
    }
    forall p | p in pids && info.parent(p) >= 0
      ensures SoundAbove(SelfParentIsTop(info.parent), roots, Known(Depths(s.db)), p)
    {
      ListedSoundAbove(roots, info, s.db, pids, p);
    }
  }

  lemma TickReportsTrue(exits: bool, roots: seq<Pid>, states: seq<State>, polls: seq<Poll>, i: nat)
    requires TrustedRun(exits, roots, states, polls) && i < |polls| && AllRecorded(roots, polls, i, states[i].db)
    ensures ReportsTrue(roots, polls[i].info, states[i].calls, states[i + 1].calls)
    ensures AllRecorded(roots, polls, i + 1, states[i + 1].db)
  {
    var s, s', info, pids, gone := states[i], states[i + 1], polls[i].info, polls[i].pids, polls[i].gone;
    assert Tick(exits, roots, info, s, pids, gone, s') && ParentsListed(info, pids);
    TrustedAncestors(exits, roots, states, polls, i);
    ArrivalsTrueDepths(roots, info, s, pids, |pids|);
    assert pids[..|pids|] == pids;
    var m := Arrivals(roots, info, s, pids);
    ArrivalsKeepKnown(roots, info, s, pids);
    EndsReportNothing(exits, roots, info, s.calls, m, gone);
    forall p | Traced(s'.db, p)
      ensures Recorded(roots, polls, i + 1, p, s'.db[p].depth)
    {
      assert p in s'.db.Keys && s'.db.Keys == SetOf(pids) && s'.db[p] == m.db[p];
      assert p in s.db ==> Traced(s.db, p);
      RecordedLater(roots, polls, i, p, s'.db[p].depth);
    }
  }

  lemma EndsReportNothing(exits: bool, roots: seq<Pid>, info: Info, before: seq<Call>, m: State, gone: seq<Pid>)
    requires (forall p | p in gone :: p in m.db) && ReportsTrue(roots, info, before, m.calls)
    ensures ReportsTrue(roots, info, before, m.calls + Departures(exits, m.db, gone))
  {
    DeparturesAreEnds(exits, m.db, gone);
    var ends := Departures(exits, m.db, gone);
    var all := m.calls + ends;
    assert forall i | |m.calls| <= i < |all| :: all[i] in ends;
    assert forall i | 0 <= i < |m.calls| :: all[i] == m.calls[i];
  }

  lemma {:induction false} DeparturesAreEnds(exits: bool, db: MacDB, gone: seq<Pid>)
    requires forall p | p in gone :: p in db
    ensures forall l | l in Departures(exits, db, gone) :: l.Ended?
  {
    if gone != [] {
      DeparturesAreEnds(exits, db, gone[..|gone| - 1]);
    }
  }

  // Over every run in which known pids deserve that trust, every exec line
  // reports the depth of its process in the process tree of that poll.
  lemma {:induction false} RunsReportTrueDepths(exits: bool, roots: seq<Pid>, states: seq<State>, polls: seq<Poll>, i: nat)
    requires TrustedRun(exits, roots, states, polls) && i <= |polls|
    ensures AllRecorded(roots, polls, i, states[i].db)
    ensures i < |polls| ==> ReportsTrue(roots, polls[i].info, states[i].calls, states[i + 1].calls)
  {
    hide AllRecorded, ReportsTrue;
    if i > 0 {
      RunsReportTrueDepths(exits, roots, states, polls, i - 1);
      TickReportsTrue(exits, roots, states, polls, i - 1);
    } else {
      SeededRecorded(roots, polls, states[0]);
    }
    if i < |polls| {
      TickReportsTrue(exits, roots, states, polls, i);
    }
  }

  lemma SeededRecorded(roots: seq<Pid>, polls: seq<Poll>, s: State)
    requires Seeded(s)
    ensures AllRecorded(roots, polls, 0, s.db)
  {
  }
}
