// What the polling tracer records and reports of each process, from the
// process tree and the snapshots alone.
module DarwinLaws {
  import opened Ancestry
  import opened Collections
  import opened DarwinExec

  // k parent steps lead from p to a watched root, for some k.
  ghost predicate Below(roots: seq<Pid>, info: Info, p: Pid) {
    exists k: nat :: RootAt(SelfParentIsTop(info.parent), roots, p, k)
  }

  // The entry of a process when it is first listed.
  ghost predicate EntryOf(roots: seq<Pid>, info: Info, p: Pid, e: MacEntry) {
    if info.parent(p) >= 0
    then IsDepth(SelfParentIsTop(info.parent), roots, p, e.depth) && e.argv0 == info.argv0(p)
    else e == MacEntry(-1, "")
  }

  // Whether its exec is reported.
  ghost predicate Reported(roots: seq<Pid>, info: Info, p: Pid) {
    info.parent(p) >= 0 && Below(roots, info, p)
  }

  lemma BelowHasDepth(roots: seq<Pid>, info: Info, p: Pid, d: int)
    requires IsDepth(SelfParentIsTop(info.parent), roots, p, d)
    ensures Below(roots, info, p) <==> d >= 0
    ensures !Below(roots, info, p) <==> d == -1
  {
  }

  // A listed process that is not known is recorded so, and reported if and
  // only if it stands below a root; a known one changes nothing.
  lemma ArriveLaw(roots: seq<Pid>, info: Info, s: State, pid: Pid)
    requires info.parent(pid) >= 0 ==>
               Grounded(SelfParentIsTop(info.parent), pid) &&
               SoundAbove(SelfParentIsTop(info.parent), roots, Known(Depths(s.db)), pid)
    ensures var s' := Arrive(roots, info, s, pid);
            if pid in s.db then s' == s
            else
              && s'.db.Keys == s.db.Keys + {pid} && (forall q | q in s.db :: s'.db[q] == s.db[q])
              && EntryOf(roots, info, pid, s'.db[pid])
              && s'.calls == s.calls +
                 if Reported(roots, info, pid) then [Started(pid, s'.db[pid].depth, info.described(pid))] else []
  {
    if pid !in s.db && info.parent(pid) >= 0 {
      var parent, d := SelfParentIsTop(info.parent), Arrive(roots, info, s, pid).db[pid].depth;
      DarwinDepthIsPidDepth(info.parent, roots, Depths(s.db), pid);
      PidDepthIsDepth(parent, roots, Known(Depths(s.db)), pid);
      BelowHasDepth(roots, info, pid, d);
    }
    NothingBefore(s.calls);
  }

  // The calls that b has more than a.
  ghost function Fresh(a: seq<Call>, b: seq<Call>): seq<Call>
    requires a <= b
  {
    b[|a|..]
  }

  // Among the new calls there is one for the exec of p exactly if it is to be
  // reported, and then it is this one.
  ghost predicate ExecCalled(roots: seq<Pid>, info: Info, calls: seq<Call>, p: Pid, e: MacEntry) {
    && (Reported(roots, info, p) <==> Started(p, e.depth, info.described(p)) in calls)
    && forall l | l in calls && l.pid == p && l.Started? :: l == Started(p, e.depth, info.described(p))
  }

  ghost predicate ArrivedWell(roots: seq<Pid>, info: Info, s: State, m: State, p: Pid) {
    && s.calls <= m.calls && p in m.db
    && EntryOf(roots, info, p, m.db[p]) && ExecCalled(roots, info, Fresh(s.calls, m.calls), p, m.db[p])
  }

  lemma {:induction false} ArrivalsLaw(roots: seq<Pid>, info: Info, s: State, pids: seq<Pid>, n: nat)
    requires CanWalk(info, pids) && n <= |pids| && AncestorsTrue(roots, info, s.db, pids)
    ensures var m := Arrivals(roots, info, s, pids[..n]);
            && s.calls <= m.calls && (forall l | l in Fresh(s.calls, m.calls) :: l.pid in pids[..n] && l.pid !in s.db)
            && forall p | p in pids[..n] && p !in s.db :: ArrivedWell(roots, info, s, m, p)
  {
    if n > 0 {
      assert pids[..n][..n - 1] == pids[..n - 1] && pids[..n] == pids[..n - 1] + [pids[n - 1]];
      ArrivalsLaw(roots, info, s, pids, n - 1);
      ArrivalsTrueDepths(roots, info, s, pids, n - 1);
      ArrivalsKeepKnown(roots, info, s, pids[..n - 1]);
      OneMoreArrival(roots, info, s, Arrivals(roots, info, s, pids[..n - 1]), pids, n);
    }
  }

  lemma OneMoreArrival(roots: seq<Pid>, info: Info, s: State, m: State, pids: seq<Pid>, n: nat)
    requires CanWalk(info, pids) && 0 < n <= |pids| && AncestorsTrue(roots, info, m.db, pids)
    requires s.calls <= m.calls && m.db.Keys == s.db.Keys + SetOf(pids[..n - 1])
    requires forall l | l in Fresh(s.calls, m.calls) :: l.pid in pids[..n - 1] && l.pid !in s.db
    requires forall p | p in pids[..n - 1] && p !in s.db :: ArrivedWell(roots, info, s, m, p)
    ensures var m' := Arrive(roots, info, m, pids[n - 1]);
            && s.calls <= m'.calls && (forall l | l in Fresh(s.calls, m'.calls) :: l.pid in pids[..n] && l.pid !in s.db)
            && forall p | p in pids[..n] && p !in s.db :: ArrivedWell(roots, info, s, m', p)
  {
    var pid := pids[n - 1];
    var m' := Arrive(roots, info, m, pid);
    ArriveLaw(roots, info, m, pid);
    hide Arrive, AncestorsTrue, EntryOf, Reported;
    assert pids[..n] == pids[..n - 1] + [pid];
    if pid !in m.db {
      var more := if Reported(roots, info, pid) then [Started(pid, m'.db[pid].depth, info.described(pid))] else [];
      assert Fresh(s.calls, m'.calls) == Fresh(s.calls, m.calls) + more;
      assert forall l | l in Fresh(s.calls, m.calls) :: l.pid != pid;
      assert ArrivedWell(roots, info, s, m', pid);
      forall p | p in pids[..n - 1] && p !in s.db
        ensures ArrivedWell(roots, info, s, m', p)
      {
        assert ArrivedWell(roots, info, s, m, p) && p != pid;
      }
    }
  }

  // ---- Over runs ----

  // In a run in which known pids deserve their trust, every process first
  // listed in a poll is recorded at its depth in that poll's tree and reported
  // if and only if it stands below a root.
  lemma RunsRecordArrivals(exits: bool, roots: seq<Pid>, states: seq<State>, polls: seq<Poll>, i: nat, p: Pid)
    requires TrustedRun(exits, roots, states, polls) && i < |polls|
    requires p in polls[i].pids && p !in states[i].db
    ensures ArrivedWell(roots, polls[i].info, states[i], states[i + 1], p)
  {
    var s, s', info, pids, gone := states[i], states[i + 1], polls[i].info, polls[i].pids, polls[i].gone;
    assert Tick(exits, roots, info, s, pids, gone, s');
    RunsReportTrueDepths(exits, roots, states, polls, i);
    TrustedAncestors(exits, roots, states, polls, i);
    ArrivalsLaw(roots, info, s, pids, |pids|);
    assert pids[..|pids|] == pids;
    var m := Arrivals(roots, info, s, pids);
    DeparturesAreEnds(exits, m.db, gone);
    assert ArrivedWell(roots, info, s, m, p);
    assert p in s'.db && s'.db[p] == m.db[p];
    StillArrivedWell(roots, info, s, m, s', Departures(exits, m.db, gone), p);
  }

  lemma StillArrivedWell(roots: seq<Pid>, info: Info, s: State, m: State, s': State, ends: seq<Call>, p: Pid)
    requires ArrivedWell(roots, info, s, m, p) && p in s'.db && s'.db[p] == m.db[p]
    requires s'.calls == m.calls + ends && forall l | l in ends :: l.Ended?
    ensures ArrivedWell(roots, info, s, s', p)
  {
    assert Fresh(s.calls, s'.calls) == Fresh(s.calls, m.calls) + ends;
  }

  // ---- Exits ----

  // The calls of tick i.
  ghost function TickCalls(states: seq<State>, i: nat): seq<Call>
    requires i + 1 < |states|
  {
    if states[i].calls <= states[i + 1].calls then Fresh(states[i].calls, states[i + 1].calls) else []
  }

  // p was first listed in poll b, with this entry, and known since.
  ghost predicate CameAt(states: seq<State>, polls: seq<Poll>, b: nat, i: nat, p: Pid, e: MacEntry)
    requires i < |states| == |polls| + 1
  {
    && b < i && p in polls[b].pids && p !in states[b].db
    && (forall c | b < c <= i :: p in states[c].db && states[c].db[p] == e)
    && e.argv0 == polls[b].info.argv0(p)
    && Started(p, e.depth, polls[b].info.described(p)) in TickCalls(states, b)
  }

  lemma {:induction false} ArrivalsTellDepth(roots: seq<Pid>, info: Info, s: State, pids: seq<Pid>, p: Pid)
    requires CanWalk(info, pids)
    ensures var m := Arrivals(roots, info, s, pids);
            && s.calls <= m.calls
            && (p in m.db && p !in s.db && m.db[p].depth >= 0 ==>
                  m.db[p].argv0 == info.argv0(p) && Started(p, m.db[p].depth, info.described(p)) in Fresh(s.calls, m.calls))
            && forall l | l in Fresh(s.calls, m.calls) :: l.Started?
  {
    if pids != [] {
      var before, pid := pids[..|pids| - 1], pids[|pids| - 1];
      ArrivalsTellDepth(roots, info, s, before, p);
      ArrivalsKeepKnown(roots, info, s, before);
      var m := Arrivals(roots, info, s, before);
      ArriveTells(roots, info, m, pid);
      FreshAppend(s.calls, m.calls, Arrive(roots, info, m, pid).calls);
      hide Arrive, Fresh;
    }
  }

  lemma ArriveTells(roots: seq<Pid>, info: Info, s: State, pid: Pid)
    requires info.parent(pid) >= 0 ==> Grounded(SelfParentIsTop(info.parent), pid)
    ensures var s' := Arrive(roots, info, s, pid);
            && s.calls <= s'.calls
            && s'.db.Keys == s.db.Keys + {pid} && (forall q | q in s.db :: s'.db[q] == s.db[q])
            && (pid !in s.db && s'.db[pid].depth >= 0 ==> s'.db[pid].argv0 == info.argv0(pid))
            && Fresh(s.calls, s'.calls) ==
               if pid !in s.db && s'.db[pid].depth >= 0 then [Started(pid, s'.db[pid].depth, info.described(pid))] else []
  {
    hide DarwinPidDepth;
  }

  lemma FreshAppend(a: seq<Call>, b: seq<Call>, c: seq<Call>)
    requires a <= b <= c
    ensures a <= c && Fresh(a, c) == Fresh(a, b) + Fresh(b, c)
  {
  }

  lemma {:induction false} DeparturesTell(exits: bool, db: MacDB, gone: seq<Pid>, l: Call)
    requires forall p | p in gone :: p in db
    ensures l in Departures(exits, db, gone) <==>
            exits && l.Ended? && l.pid in gone && db[l.pid].depth >= 0 && l == Ended(l.pid, db[l.pid].depth, db[l.pid].argv0)
  {
    if gone != [] {
      DeparturesTell(exits, db, gone[..|gone| - 1], l);
      assert l.pid in gone <==> l.pid in gone[..|gone| - 1] || l.pid == gone[|gone| - 1];
    }
  }

  // One tick: who ends, and with what; and where new entries come from.
  lemma TickTells(exits: bool, roots: seq<Pid>, info: Info, s: State, pids: seq<Pid>, gone: seq<Pid>, s': State, p: Pid, l: Call)
    requires CanWalk(info, pids) && Tick(exits, roots, info, s, pids, gone, s') && l.pid == p && l.Ended?
    ensures s.calls <= s'.calls
    ensures l in Fresh(s.calls, s'.calls) <==>
            exits && p in s.db && p !in s'.db && s.db[p].depth >= 0 && l == Ended(p, s.db[p].depth, s.db[p].argv0)
    ensures Traced(s'.db, p) && p !in s.db ==>
              p in pids && s'.db[p].argv0 == info.argv0(p) && Started(p, s'.db[p].depth, info.described(p)) in Fresh(s.calls, s'.calls)
    ensures p in s.db && p in s'.db ==> s'.db[p] == s.db[p]
  {
    var m := Arrivals(roots, info, s, pids);
    ArrivalsKeepKnown(roots, info, s, pids);
    ArrivalsTellDepth(roots, info, s, pids, p);
    DeparturesTell(exits, m.db, gone, l);
    assert Fresh(s.calls, s'.calls) == Fresh(s.calls, m.calls) + Departures(exits, m.db, gone);
    hide Arrivals, Departures, CanWalk;
    assert p in SetOf(gone) <==> p in gone;
    assert p in m.db.Keys <==> p in s.db.Keys + SetOf(pids);
  }

  lemma {:induction false} TracedCame(exits: bool, roots: seq<Pid>, states: seq<State>, polls: seq<Poll>, i: nat, p: Pid)
    returns (b: nat)
    requires IsRun(exits, roots, states, polls) && i < |states| && Traced(states[i].db, p)
    ensures CameAt(states, polls, b, i, p, states[i].db[p])
  {
    var s, poll := states[i - 1], polls[i - 1];
    assert Tick(exits, roots, poll.info, s, poll.pids, poll.gone, states[i - 1 + 1]);
    TickTells(exits, roots, poll.info, s, poll.pids, poll.gone, states[i], p, Ended(p, 0, ""));
    if p in s.db {
      b := TracedCame(exits, roots, states, polls, i - 1, p);
    } else {
      b := i - 1;
    }
  }

  // Over every run, the exit calls of a tick are exactly those of the traced
  // processes that leave the database in it, if exits are shown; and each
  // carries the depth of the exec call it closes and the command read then.
  lemma RunsReportExits(exits: bool, roots: seq<Pid>, states: seq<State>, polls: seq<Poll>, i: nat, l: Call)
    requires IsRun(exits, roots, states, polls) && i < |polls| && l.Ended?
    ensures l in TickCalls(states, i) <==>
            && exits && Traced(states[i].db, l.pid) && l.pid !in states[i + 1].db
            && exists b: nat :: CameAt(states, polls, b, i, l.pid, MacEntry(l.depth, l.argv0))
  {
    var s, s', poll, p := states[i], states[i + 1], polls[i], l.pid;
    assert Tick(exits, roots, poll.info, s, poll.pids, poll.gone, s');
    TickTells(exits, roots, poll.info, s, poll.pids, poll.gone, s', p, l);
    if Traced(s.db, p) {
      var b := TracedCame(exits, roots, states, polls, i, p);
      forall c: nat | CameAt(states, polls, c, i, p, MacEntry(l.depth, l.argv0))
        ensures s.db[p] == MacEntry(l.depth, l.argv0)
      {
      }
    }
  }
}
