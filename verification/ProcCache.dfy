// Which process owns a UDP port: a cache of answers with a two-second life on
// top of a cached socket listing with a two-second life.
module ProcCache {

  type Port = nat
  type Time = nat

  datatype Owner = Owner(pid: int, name: string)

  const NOBODY := Owner(0, "?")

  // A listing of all sockets.  The listing taken at time t is world(t).
  type Listing = map<Port, Owner>
  type World = Time -> Listing

  const TTL := 2000
  const MAX_ENTRIES := 1024

  function Answer(l: Listing, port: Port): Owner {
    if port in l then l[port] else NOBODY
  }

  datatype Entry = Entry(owner: Owner, born: Time)

  type Entries = map<Port, Entry>

  datatype Snapshot = Never | Taken(listing: Listing, born: Time)

  datatype State = State(entries: Entries, snap: Snapshot)

  const FRESH := State(map[], Never)

  // One lookup reads the clock up to five times: to judge the entry, to judge
  // the listing (which is when a new one is taken), to date the listing, to
  // date the entry, and to sweep.
  datatype Query = Query(port: Port, asked: Time, judged: Time, listed: Time, stored: Time, swept: Time)

  predicate InOrder(q: Query) {
    q.asked <= q.judged <= q.listed <= q.stored <= q.swept
  }

  predicate IsFresh(es: Entries, port: Port, now: Time) {
    port in es && now - es[port].born < TTL
  }

  // pidForUDPPort
  function Refresh(world: World, snap: Snapshot, q: Query): Snapshot {
    if snap.Never? || q.judged - snap.born > TTL then Taken(world(q.judged), q.listed) else snap
  }

  function Swept(es: Entries, now: Time): Entries {
    map p | p in es && now - es[p].born <= TTL * 4 :: es[p]
  }

  function Sweep(es: Entries, now: Time): Entries {
    if |es| > MAX_ENTRIES then Swept(es, now) else es
  }

  // lookup, with and without the sweep.
  function Lookup(world: World, s: State, q: Query, sweeping: bool): (State, Owner) {
    if IsFresh(s.entries, q.port, q.asked) then (s, s.entries[q.port].owner)
    else
      var snap := Refresh(world, s.snap, q);
      var owner := if snap.Taken? then Answer(snap.listing, q.port) else NOBODY;
      var es := s.entries[q.port := Entry(owner, q.stored)];
      (State(if sweeping then Sweep(es, q.swept) else es, snap), owner)
  }

  // The state after a run and the answer to each query.
  datatype Result = Result(s: State, answers: seq<Owner>)

  function Run(world: World, qs: seq<Query>, sweeping: bool): (r: Result)
    ensures |r.answers| == |qs|
  {
    if qs == [] then Result(FRESH, [])
    else
      var r := Run(world, qs[..|qs| - 1], sweeping);
      var (s, owner) := Lookup(world, r.s, qs[|qs| - 1], sweeping);
      Result(s, r.answers + [owner])
  }

  // The clock never goes back, and no lookup takes longer than d.
  predicate Timed(qs: seq<Query>, d: nat) {
    && (forall i | 0 <= i < |qs| :: InOrder(qs[i]) && qs[i].swept - qs[i].asked <= d)
    && (forall i, j | 0 <= i < j < |qs| :: qs[i].swept <= qs[j].asked)
  }

  // No later than now.
  ghost predicate BornBy(s: State, now: Time) {
    && (forall p | p in s.entries :: s.entries[p].born <= now)
    && (s.snap.Taken? ==> s.snap.born <= now)
  }

  // ---- Staleness ----

  // The owner was listed for the port at some time in [from, to].
  ghost predicate ListedWithin(world: World, port: Port, owner: Owner, from: int, to: Time) {
    exists t: Time :: from <= t <= to && owner == Answer(world(t), port)
  }

  ghost predicate SnapshotSound(world: World, snap: Snapshot, d: nat) {
    snap.Taken? ==> exists t: Time :: snap.born - d <= t <= snap.born && snap.listing == world(t)
  }

  ghost predicate Sound(world: World, s: State, d: nat) {
    && SnapshotSound(world, s.snap, d)
    && forall p | p in s.entries :: ListedWithin(world, p, s.entries[p].owner, s.entries[p].born - TTL - 2 * d, s.entries[p].born)
  }

  lemma RefreshSound(world: World, snap: Snapshot, q: Query, d: nat) returns (at: Time)
    requires InOrder(q) && q.swept - q.asked <= d && SnapshotSound(world, snap, d)
    requires snap.Taken? ==> snap.born <= q.asked
    ensures var now := Refresh(world, snap, q);
            && now.Taken? && SnapshotSound(world, now, d) && now.born <= q.stored
            && now.listing == world(at) && q.stored - TTL - 2 * d <= at <= q.stored
            && q.asked - TTL - d <= at
  {
    if snap.Never? || q.judged - snap.born > TTL {
      at := q.judged;
    } else {
      at :| snap.born - d <= at <= snap.born && snap.listing == world(at);
    }
  }

  lemma Wider(world: World, port: Port, owner: Owner, from: int, to: Time, from2: int, to2: Time)
    requires ListedWithin(world, port, owner, from, to) && from2 <= from && to <= to2
    ensures ListedWithin(world, port, owner, from2, to2)
  {
    var t: Time :| from <= t <= to && owner == Answer(world(t), port);
  }

  lemma LookupSound(world: World, s: State, q: Query, sweeping: bool, d: nat)
    requires InOrder(q) && q.swept - q.asked <= d && Sound(world, s, d) && BornBy(s, q.asked)
    ensures var (after, owner) := Lookup(world, s, q, sweeping);
            && Sound(world, after, d) && BornBy(after, q.swept)
            && ListedWithin(world, q.port, owner, q.asked - 2 * TTL - 2 * d + 1, q.swept)
  {
    hide ListedWithin, Refresh, SnapshotSound;
    if IsFresh(s.entries, q.port, q.asked) {
      var e := s.entries[q.port];
      Wider(world, q.port, e.owner, e.born - TTL - 2 * d, e.born, q.asked - 2 * TTL - 2 * d + 1, q.swept);
    } else {
      var at := RefreshSound(world, s.snap, q, d);
      var owner := Answer(world(at), q.port);
      assert ListedWithin(world, q.port, owner, at, at) by { ListedAt(world, q.port, at); }
      Wider(world, q.port, owner, at, at, q.stored - TTL - 2 * d, q.stored);
      Wider(world, q.port, owner, at, at, q.asked - 2 * TTL - 2 * d + 1, q.swept);
    }
  }

  lemma ListedAt(world: World, port: Port, at: Time)
    ensures ListedWithin(world, port, Answer(world(at), port), at, at)
  {
  }

  // When a run ended.
  function End(qs: seq<Query>): Time {
    if qs == [] then 0 else qs[|qs| - 1].swept
  }

  lemma TimedLast(qs: seq<Query>, d: nat)
    requires Timed(qs, d) && qs != []
    ensures var n := |qs| - 1;
            Timed(qs[..n], d) && End(qs[..n]) <= qs[n].asked && InOrder(qs[n]) && qs[n].swept - qs[n].asked <= d
  {
  }

  ghost predicate AllRecent(world: World, qs: seq<Query>, answers: seq<Owner>, d: nat) {
    && |answers| == |qs|
    && forall i | 0 <= i < |qs| ::
         ListedWithin(world, qs[i].port, answers[i], qs[i].asked - 2 * TTL - 2 * d + 1, qs[i].swept)
  }

  // Every answer of every run was in a listing taken less than four seconds,
  // and twice the length of a lookup, before it was asked for.
  lemma {:induction false} AnswersAreRecent(world: World, qs: seq<Query>, sweeping: bool, d: nat)
    requires Timed(qs, d)
    ensures var r := Run(world, qs, sweeping);
            Sound(world, r.s, d) && BornBy(r.s, End(qs)) && AllRecent(world, qs, r.answers, d)
  {
    hide Timed, Sound, ListedWithin, Lookup;
    if qs == [] {
      assert Sound(world, FRESH, d) by { NothingStored(world, d); }
    } else {
      var n := |qs| - 1;
      TimedLast(qs, d);
      AnswersAreRecent(world, qs[..n], sweeping, d);
      LookupSound(world, Run(world, qs[..n], sweeping).s, qs[n], sweeping, d);
    }
  }

  lemma NothingStored(world: World, d: nat)
    ensures Sound(world, FRESH, d)
  {
  }

  // With the clock read once per lookup: a listing less than four seconds old.
  lemma AnswersUnderFourSeconds(world: World, qs: seq<Query>, sweeping: bool, i: nat) returns (t: Time)
    requires Timed(qs, 0) && i < |qs|
    ensures t <= qs[i].asked && qs[i].asked - t < 4000
    ensures Run(world, qs, sweeping).answers[i] == Answer(world(t), qs[i].port)
  {
    AnswersAreRecent(world, qs, sweeping, 0);
    assert InOrder(qs[i]);
    t :| qs[i].asked - 2 * TTL + 1 <= t <= qs[i].swept && Run(world, qs, sweeping).answers[i] == Answer(world(t), qs[i].port);
  }

  const RESOLVER := Owner(42, "resolver")

  // Port 5 had an owner only at time 0.
  function BriefOwner(t: Time): Listing {
    if t == 0 then map[5 := RESOLVER] else map[]
  }

  // The first listing takes d; an entry is made from it just in time, in a
  // lookup that takes d; and the entry is used just in time.
  function SlowRun(d: nat): seq<Query> {
    [Query(7, 0, 0, d, d, d),
     Query(5, d + TTL, d + TTL, d + TTL, 2 * d + TTL, 2 * d + TTL),
     Query(5, 2 * d + 2 * TTL - 1, 2 * d + 2 * TTL - 1, 2 * d + 2 * TTL - 1, 2 * d + 2 * TTL - 1, 2 * d + 2 * TTL - 1)]
  }

  // The bound of AnswersAreRecent is attained for every length of lookups: the
  // last answer was only in a listing as old as the bound allows.
  lemma BoundIsAttained(d: nat)
    ensures Timed(SlowRun(d), d)
    ensures Run(BriefOwner, SlowRun(d), true).answers[2] == RESOLVER
    ensures forall t: Time :: Answer(BriefOwner(t), 5) == RESOLVER <==> t == SlowRun(d)[2].asked - 2 * TTL - 2 * d + 1
  {
    var a, b, c := SlowRun(d)[0], SlowRun(d)[1], SlowRun(d)[2];
    var snap := Taken(BriefOwner(0), d);
    var s1 := State(map[7 := Entry(NOBODY, d)], snap);
    var s2 := State(s1.entries[5 := Entry(RESOLVER, 2 * d + TTL)], snap);
    assert Lookup(BriefOwner, FRESH, a, true) == (s1, NOBODY);
    assert Lookup(BriefOwner, s1, b, true) == (s2, RESOLVER);
    assert Lookup(BriefOwner, s2, c, true) == (s2, RESOLVER);
    hide Lookup;
    RunMore(BriefOwner, [], a, true);
    RunMore(BriefOwner, [a], b, true);
    RunMore(BriefOwner, [a, b], c, true);
    assert [] + [a] == [a] && [a] + [b] == [a, b] && [a, b] + [c] == [a, b, c];
  }

  // Every answer was in a listing less than four seconds old.
  ghost predicate Prompt(world: World, qs: seq<Query>) {
    AllRecent(world, qs, Run(world, qs, true).answers, 0)
  }

  // Four seconds are kept in every run of lookups no longer than d if and only
  // if lookups take no time.
  lemma PromptIffInstant(d: nat)
    ensures (forall world, qs | Timed(qs, d) :: Prompt(world, qs)) <==> d == 0
  {
    if d == 0 {
      forall world, qs | Timed(qs, d)
        ensures Prompt(world, qs)
      {
        AnswersAreRecent(world, qs, true, 0);
      }
    } else {
      BoundIsAttained(d);
      hide Run, Timed;
      assert !Prompt(BriefOwner, SlowRun(d));
    }
  }

  lemma RunMore(world: World, qs: seq<Query>, q: Query, sweeping: bool)
    ensures var r, r' := Run(world, qs, sweeping), Run(world, qs + [q], sweeping);
            var (s, owner) := Lookup(world, r.s, q, sweeping);
            r' == Result(s, r.answers + [owner])
  {
    assert (qs + [q])[..|qs|] == qs;
  }

  // ---- The sweep is invisible ----

  // The swept cache lacks only entries that have expired by now.
  ghost predicate Lags(swept: Entries, full: Entries, now: Time) {
    && (forall p | p in swept :: p in full && swept[p] == full[p])
    && (forall p | p in full && p !in swept :: now - full[p].born >= TTL)
  }

  lemma LookupAlike(world: World, a: State, b: State, q: Query)
    requires InOrder(q) && a.snap == b.snap && Lags(a.entries, b.entries, q.asked)
    ensures var (a1, x) := Lookup(world, a, q, true);
            var (b1, y) := Lookup(world, b, q, false);
            x == y && a1.snap == b1.snap && Lags(a1.entries, b1.entries, q.swept)
  {
  }

  // Over every run, sweeping changes no answer.
  lemma {:induction false} SweepIsInvisible(world: World, qs: seq<Query>, d: nat)
    requires Timed(qs, d)
    ensures var a, b := Run(world, qs, true), Run(world, qs, false);
            a.answers == b.answers && a.s.snap == b.s.snap && Lags(a.s.entries, b.s.entries, End(qs))
  {
    hide Timed, Lookup;
    if qs != [] {
      var n := |qs| - 1;
      TimedLast(qs, d);
      SweepIsInvisible(world, qs[..n], d);
      var a, b := Run(world, qs[..n], true), Run(world, qs[..n], false);
      LookupAlike(world, a.s, b.s, qs[n]);
    }
  }

  // What the sweep is for: a lookup that stores an entry leaves no more than
  // 1024 of them, or only such as are at most eight seconds old.
  lemma LookupKeepsFewOrYoung(world: World, s: State, q: Query)
    ensures var after := Lookup(world, s, q, true).0;
            after == s || |after.entries| <= 1024 || forall p | p in after.entries :: q.swept - after.entries[p].born <= 8000
  {
  }

  // An answer less than two seconds old is used as it is.
  lemma YoungEntriesAnswer(world: World, s: State, q: Query, sweeping: bool)
    requires q.port in s.entries && q.asked - s.entries[q.port].born < 2000
    ensures Lookup(world, s, q, sweeping) == (s, s.entries[q.port].owner)
  {
  }

  // ---- The C lookup ----

  // It dates the entry and the listing before the work rather than after,
  // takes no owner with pid 0 from the listing, and never sweeps.
  function KnownAnswer(l: Listing, port: Port): Owner {
    if Answer(l, port).pid > 0 then Answer(l, port) else NOBODY
  }

  function RefreshC(world: World, snap: Snapshot, q: Query): (now: Snapshot)
    ensures now.Taken?
  {
    if snap.Never? || q.judged - snap.born > TTL then Taken(world(q.judged), q.judged) else snap
  }

  function LookupC(world: World, s: State, q: Query): (State, Owner) {
    if IsFresh(s.entries, q.port, q.asked) then (s, s.entries[q.port].owner)
    else
      var snap := RefreshC(world, s.snap, q);
      var owner := KnownAnswer(snap.listing, q.port);
      (State(s.entries[q.port := Entry(owner, q.asked)], snap), owner)
  }

  function RunC(world: World, qs: seq<Query>): (r: Result)
    ensures |r.answers| == |qs|
  {
    if qs == [] then Result(FRESH, [])
    else
      var r := RunC(world, qs[..|qs| - 1]);
      var (s, owner) := LookupC(world, r.s, qs[|qs| - 1]);
      Result(s, r.answers + [owner])
  }

  ghost predicate KnownWithin(world: World, port: Port, owner: Owner, from: int, to: Time) {
    exists t: Time :: from <= t <= to && owner == KnownAnswer(world(t), port)
  }

  ghost predicate SnapshotSoundC(world: World, snap: Snapshot, now: Time) {
    snap.Taken? ==> snap.born <= now && snap.listing == world(snap.born)
  }

  ghost predicate EntriesSoundC(world: World, es: Entries, now: Time) {
    forall p | p in es :: es[p].born <= now && KnownWithin(world, p, es[p].owner, es[p].born - TTL, now)
  }

  lemma WiderC(world: World, port: Port, owner: Owner, from: int, to: Time, from2: int, to2: Time)
    requires KnownWithin(world, port, owner, from, to) && from2 <= from && to <= to2
    ensures KnownWithin(world, port, owner, from2, to2)
  {
    var t: Time :| from <= t <= to && owner == KnownAnswer(world(t), port);
  }

  lemma SoundCLater(world: World, es: Entries, now: Time, later: Time)
    requires EntriesSoundC(world, es, now) && now <= later
    ensures EntriesSoundC(world, es, later)
  {
    hide KnownWithin;
    forall p | p in es
      ensures KnownWithin(world, p, es[p].owner, es[p].born - TTL, later)
    {
      WiderC(world, p, es[p].owner, es[p].born - TTL, now, es[p].born - TTL, later);
    }
  }

  lemma KnownAt(world: World, port: Port, at: Time, from: int, to: Time)
    requires from <= at <= to
    ensures KnownWithin(world, port, KnownAnswer(world(at), port), from, to)
  {
  }

  lemma LookupSoundC(world: World, s: State, q: Query, now: Time)
    requires InOrder(q) && now <= q.asked && SnapshotSoundC(world, s.snap, now) && EntriesSoundC(world, s.entries, now)
    ensures var (after, owner) := LookupC(world, s, q);
            && SnapshotSoundC(world, after.snap, q.swept) && EntriesSoundC(world, after.entries, q.swept)
            && KnownWithin(world, q.port, owner, q.asked - 2 * TTL + 1, q.swept)
  {
    hide KnownWithin, KnownAnswer;
    SoundCLater(world, s.entries, now, q.swept);
    if IsFresh(s.entries, q.port, q.asked) {
      var e := s.entries[q.port];
      WiderC(world, q.port, e.owner, e.born - TTL, q.swept, q.asked - 2 * TTL + 1, q.swept);
    } else {
      var at := RefreshC(world, s.snap, q).born;
      KnownAt(world, q.port, at, q.asked - TTL, q.swept);
      KnownAt(world, q.port, at, q.asked - 2 * TTL + 1, q.swept);
    }
  }

  ghost predicate AllRecentC(world: World, qs: seq<Query>, answers: seq<Owner>) {
    && |answers| == |qs|
    && forall i | 0 <= i < |qs| :: KnownWithin(world, qs[i].port, answers[i], qs[i].asked - 2 * TTL + 1, qs[i].swept)
  }

  // In C the bound is four seconds however long a lookup takes.
  lemma {:induction false} AnswersAreRecentC(world: World, qs: seq<Query>, d: nat)
    requires Timed(qs, d)
    ensures var r := RunC(world, qs);
            && SnapshotSoundC(world, r.s.snap, End(qs)) && EntriesSoundC(world, r.s.entries, End(qs))
            && AllRecentC(world, qs, r.answers)
  {
    hide Timed, EntriesSoundC, KnownWithin, LookupC;
    if qs == [] {
      assert EntriesSoundC(world, map[], 0) by { NothingStoredC(world); }
    } else {
      var n := |qs| - 1;
      TimedLast(qs, d);
      AnswersAreRecentC(world, qs[..n], d);
      LookupSoundC(world, RunC(world, qs[..n]).s, qs[n], End(qs[..n]));
    }
  }

  lemma NothingStoredC(world: World)
    ensures EntriesSoundC(world, map[], 0)
  {
  }

  // The first lookup answers from a listing of its own: with what is listed
  // for the port, in C only if the pid is positive, and else with nobody.
  lemma FirstAnswers(world: World, q: Query)
    ensures var l := world(q.judged);
            && Lookup(world, FRESH, q, true).1 == (if q.port in l then l[q.port] else Owner(0, "?"))
            && LookupC(world, FRESH, q).1 == (if q.port in l && l[q.port].pid > 0 then l[q.port] else Owner(0, "?"))
  {
  }

  // With the clock read once per lookup and no owner with pid 0, the two
  // lookups give the same answers in every run, sweep or no sweep.
  lemma {:induction false} PortsAnswerAlike(world: World, qs: seq<Query>)
    requires Timed(qs, 0) && forall t, p | p in world(t) :: world(t)[p].pid > 0
    ensures Run(world, qs, true).answers == RunC(world, qs).answers
    ensures Run(world, qs, false) == RunC(world, qs)
  {
    SweepIsInvisible(world, qs, 0);
    UnsweptIsC(world, qs);
  }

  lemma {:induction false} UnsweptIsC(world: World, qs: seq<Query>)
    requires Timed(qs, 0) && forall t, p | p in world(t) :: world(t)[p].pid > 0
    ensures Run(world, qs, false) == RunC(world, qs) && ListsWorld(world, Run(world, qs, false).s.snap)
  {
    if qs != [] {
      var n := |qs| - 1;
      UnsweptIsC(world, qs[..n]);
      assert InOrder(qs[n]);
    }
  }

  ghost predicate ListsWorld(world: World, snap: Snapshot) {
    snap.Taken? ==> exists t :: snap.listing == world(t)
  }
}
