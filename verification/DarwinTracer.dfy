// The two polling exec tracers: Go diffs maps, C diffs the probing table with
// a hashed liveness bitmap and a bounded list of goners.
module DarwinTracer {
  import opened Ancestry
  import opened Collections
  import opened DarwinExec
  import opened ProbeSpec
  import opened ProbeTable

  class GoPoller {
    const roots: seq<Pid>
    const showExit: bool
    var db: MacDB
    var calls: seq<Call>

    constructor (roots: seq<Pid>, showExit: bool)
      ensures this.roots == roots && this.showExit == showExit && db == map[] && calls == []
    {
      this.roots, this.showExit, db, calls := roots, showExit, map[], [];
    }

    ghost function Now(): State
      reads this
    {
      State(db, calls)
    }

    // Processes that cannot be inspected at start are not recorded.
    method SeedDB(info: Info, pids: seq<Pid>)
      requires db == map[] && calls == []
      modifies this
      ensures Seeded(Now())
      ensures db.Keys == set p | p in pids && info.parent(p) >= 0
    {
      for i := 0 to |pids|
        invariant Seeded(Now())
        invariant db.Keys == set p | p in pids[..i] && info.parent(p) >= 0
      {
        var p := pids[i];
        if info.parent(p) >= 0 {
          db := db[p := MacEntry(-1, info.argv0(p))];
        }
        assert pids[..i + 1] == pids[..i] + [p];
      }
      assert pids[..|pids|] == pids;
    }

    method Scan(info: Info, pids: seq<Pid>) returns (ghost gone: seq<Pid>)
      requires CanWalk(info, pids)
      modifies this
      ensures Tick(showExit, roots, info, old(Now()), pids, gone, Now())
      ensures db.Keys == SetOf(pids)
    {
      ghost var start := Now();
      var cur := NoteArrivals(info, pids);
      ghost var mid := Now();
      var out := RemoveGone(cur);
      gone := seq(|out|, i requires 0 <= i < |out| => out[i].0);
      assert forall p | p in gone :: p in mid.db && p !in pids;
      assert SetOf(gone) == mid.db.Keys - cur by {
        forall p | p in mid.db.Keys - cur
          ensures p in SetOf(gone)
        {
          var i :| 0 <= i < |out| && out[i].0 == p;
          assert gone[i] == p;
        }
      }
      forall p | p in db
        ensures db[p] == (mid.db - SetOf(gone))[p]
      {
        assert p in mid.db && db[p] == mid.db[p];
      }
      SameMap(db, mid.db - SetOf(gone));
      ReportGone(mid.db, out);
      ArrivalsKeepKnown(roots, info, start, pids);
    }

    // First loop of a scan.
    method NoteArrivals(info: Info, pids: seq<Pid>) returns (cur: set<Pid>)
      requires CanWalk(info, pids)
      modifies this
      ensures cur == SetOf(pids) && Now() == Arrivals(roots, info, old(Now()), pids)
    {
      ghost var start := Now();
      cur := {};
      for i := 0 to |pids|
        invariant cur == SetOf(pids[..i])
        invariant CanWalk(info, pids[..i]) && Now() == Arrivals(roots, info, start, pids[..i])
      {
        var pid := pids[i];
        cur := cur + {pid};
        assert pids[..i + 1][..i] == pids[..i];
        assert SetOf(pids[..i + 1]) == SetOf(pids[..i]) + {pid};
        if pid in db {
          continue;
        }
        if info.parent(pid) < 0 {
          db := db[pid := UNTRACED];
          continue;
        }
        var d := DarwinPidDepth(info.parent, roots, Depths(db), pid);
        db := db[pid := MacEntry(d, info.argv0(pid))];
        if d >= 0 {
          calls := calls + [Started(pid, d, info.described(pid))];
        }
      }
      assert pids[..|pids|] == pids;
    }

    // Second loop: iterate over the database, deleting as it goes.
    method RemoveGone(cur: set<Pid>) returns (out: seq<(Pid, MacEntry)>)
      modifies this`db
      ensures forall i | 0 <= i < |out| :: out[i].0 in old(db) && out[i].0 !in cur && out[i].1 == old(db)[out[i].0]
      ensures forall i, j | 0 <= i < j < |out| :: out[i].0 != out[j].0
      ensures db.Keys == old(db).Keys * cur && forall p | p in db :: db[p] == old(db)[p]
      ensures forall p | p in old(db) && p !in cur :: exists i :: 0 <= i < |out| && out[i].0 == p
    {
      ghost var mid := db;
      var left := db.Keys;
      out := [];
      while left != {}
        invariant left <= mid.Keys
        invariant forall i | 0 <= i < |out| ::
                    out[i].0 in mid && out[i].0 !in cur + left && out[i].1 == mid[out[i].0]
        invariant forall i, j | 0 <= i < j < |out| :: out[i].0 != out[j].0
        invariant db.Keys == mid.Keys * (cur + left) && forall p | p in db :: db[p] == mid[p]
        invariant forall p | p in mid && p !in cur + left :: exists i :: 0 <= i < |out| && out[i].0 == p
        decreases left
      {
        var p := PickOne(left);
        ghost var was := out;
        left := left - {p};
        if p !in cur {
          out := out + [(p, db[p])];
          db := db - {p};
          assert out[|was|].0 == p;
          assert forall i | 0 <= i < |was| :: out[i] == was[i];
        }
      }
    }

    // Third loop, over the removed entries.
    method ReportGone(ghost mid: MacDB, out: seq<(Pid, MacEntry)>)
      requires forall i | 0 <= i < |out| :: out[i].0 in mid && out[i].1 == mid[out[i].0]
      modifies this`calls
      ensures var gone := seq(|out|, i requires 0 <= i < |out| => out[i].0);
              (forall p | p in gone :: p in mid) && calls == old(calls) + Departures(showExit, mid, gone)
    {
      ghost var gone := seq(|out|, i requires 0 <= i < |out| => out[i].0);
      for i := 0 to |out|
        invariant forall p | p in gone[..i] :: p in mid
        invariant calls == old(calls) + Departures(showExit, mid, gone[..i])
      {
        assert gone[..i + 1][..i] == gone[..i] && gone[..i + 1][i] == out[i].0;
        if out[i].1.depth >= 0 && showExit {
          calls := calls + [Ended(out[i].0, out[i].1.depth, out[i].1.argv0)];
        }
      }
      assert gone[..|out|] == gone;
    }
  }

  const GONERS_CAP := 1024

  class CPoller {
    const roots: seq<Pid>
    const showExit: bool
    const db: Table<Pid, MacEntry>
    var calls: seq<Call>

    ghost predicate Valid()
      reads this, db, db.slots
    {
      db.Valid() && db.pristine == UNTRACED
    }

    ghost function Now(): State
      reads this, db, db.slots
    {
      State(db.Map(), calls)
    }

    // The capacity the C code takes for granted.
    ghost predicate HasRoom(pids: seq<Pid>)
      reads db, db.slots
    {
      |db.Map().Keys + SetOf(pids)| <= db.slots.Length
    }

    constructor (roots: seq<Pid>, showExit: bool, capacity: nat, hash: Pid -> nat)
      requires capacity > 0
      ensures Valid() && fresh(db) && fresh(db.slots) && db.slots.Length == capacity
      ensures this.roots == roots && this.showExit == showExit && db.Map() == map[] && calls == []
    {
      this.roots, this.showExit, calls := roots, showExit, [];
      db := new Table(capacity, hash, UNTRACED);
    }

    // Every process found at start is recorded, inspectable or not.
    method SeedMacDB(info: Info, pids: seq<Pid>)
      requires Valid() && db.Map() == map[] && calls == [] && HasRoom(pids)
      modifies db, db.slots
      ensures Valid() && Seeded(Now())
      ensures db.Map().Keys == SetOf(pids)
    {
      for i := 0 to |pids|
        invariant Valid() && Seeded(Now())
        invariant db.Map().Keys == SetOf(pids[..i])
      {
        SetOfPrefix(pids, i);
        RoomFor(db.Map(), SetOf(pids), pids[i], db.slots.Length);
        hide Table.Map, Contents, HasRoom, SetOf;
        SeedOne(info, pids[i]);
      }
      assert pids[..|pids|] == pids;
    }

    method SeedOne(info: Info, pid: Pid)
      requires Valid() && (pid in db.Map() || |db.Map()| < db.slots.Length)
      modifies db, db.slots
      ensures Valid()
      ensures db.Map() == old(db.Map())[pid := if info.parent(pid) < 0 then UNTRACED else MacEntry(-1, info.argv0(pid))]
    {
      var r, created := db.Get(pid);
      ghost var m := db.Map();
      db.Store(r, if info.parent(pid) < 0 then UNTRACED else MacEntry(-1, info.argv0(pid)));
      SameMap(db.Map(), old(db.Map())[pid := if info.parent(pid) < 0 then UNTRACED else MacEntry(-1, info.argv0(pid))]);
    }

    method Depth(parent: ParentFn, pid: Pid) returns (d: int)
      requires Valid() && Grounded(SelfParentIsTop(parent), pid)
      ensures d == DarwinPidDepth(parent, roots, Depths(db.Map()), pid)
      decreases Height(SelfParentIsTop(parent), pid)
    {
      if pid in roots {
        return 0;
      }
      var ppid := parent(pid);
      if ppid < 0 {
        return -1;
      }
      if ppid == 0 || ppid == pid {
        return -1;
      }
      if ppid in roots {
        return 0;
      }
      var ent := db.Find(ppid);
      if ent != -1 && db.slots[ent].val.depth >= 0 {
        return db.slots[ent].val.depth + 1;
      }
      ParentIsLower(SelfParentIsTop(parent), pid);
      d := Depth(parent, ppid);
      return if d < 0 then -1 else d + 1;
    }

    // A tick removes at most 1024 vanished processes; it leaves exactly the
    // snapshot if and only if no more than that vanished.
    method ScanMacDB(info: Info, pids: seq<Pid>) returns (ghost gone: seq<Pid>)
      requires Valid() && CanWalk(info, pids) && HasRoom(pids)
      modifies this, db, db.slots
      ensures Valid()
      ensures Tick(showExit, roots, info, old(Now()), pids, gone, Now())
      ensures db.Map().Keys == SetOf(pids) <==> |old(db.Map()).Keys - SetOf(pids)| <= 1024
    {
      ghost var start := Now();
      NoteArrivals(info, pids);
      ArrivalsKeepKnown(roots, info, start, pids);
      var goners := CollectGoners(pids);
      RemoveGoners(goners);
      gone := goners;
      KeysAreSnapshot(showExit, roots, info, start, pids, gone, Now());
      CappedCollection(gone, start.db.Keys - SetOf(pids), GONERS_CAP);
    }

    method NoteArrivals(info: Info, pids: seq<Pid>)
      requires Valid() && CanWalk(info, pids) && HasRoom(pids)
      modifies this, db, db.slots
      ensures Valid() && Now() == Arrivals(roots, info, old(Now()), pids)
    {
      ghost var start := Now();
      ghost var all := start.db.Keys + SetOf(pids);
      for i := 0 to |pids|
        invariant Valid()
        invariant CanWalk(info, pids[..i]) && Now() == Arrivals(roots, info, start, pids[..i])
      {
        assert pids[..i + 1][..i] == pids[..i];
        ArrivalsKeepKnown(roots, info, start, pids[..i]);
        RoomFor(db.Map(), all, pids[i], db.slots.Length);
        NoteOne(info, pids[i]);
      }
      assert pids[..|pids|] == pids;
    }

    // The entry is created before the depth is computed.
    method NoteOne(info: Info, pid: Pid)
      requires Valid() && (pid in db.Map() || |db.Map()| < db.slots.Length)
      requires info.parent(pid) >= 0 ==> Grounded(SelfParentIsTop(info.parent), pid)
      modifies this, db, db.slots
      ensures Valid() && Now() == Arrive(roots, info, old(Now()), pid)
    {
      var ent := db.Find(pid);
      if ent != -1 {
        return;
      }
      ghost var before := db.Map();
      var ne, created := db.Get(pid);
      if info.parent(pid) < 0 {
        return;
      }
      var d := Depth(info.parent, pid);
      OwnEntryIrrelevant(roots, info.parent, before, pid);
      db.Store(ne, MacEntry(d, info.argv0(pid)));
      SameMap(db.Map(), before[pid := MacEntry(d, info.argv0(pid))]);
      if d >= 0 {
        calls := calls + [Started(pid, d, info.described(pid))];
      }
    }

    // The sweep: a bitmap over home slots screens the table, a linear scan of
    // the snapshot confirms each hit.
    method CollectGoners(pids: seq<Pid>) returns (goners: seq<Pid>)
      requires Valid()
      ensures NoRepeats(goners) && |goners| <= GONERS_CAP
      ensures forall p | p in goners :: p in db.Map() && p !in pids
      ensures |goners| < GONERS_CAP ==> forall p | p in db.Map() && p !in pids :: p in goners
    {
      var n := db.slots.Length;
      var live := LiveBitmap(pids);
      goners := [];
      var i := 0;
      while i < n && |goners| < GONERS_CAP
        invariant 0 <= i <= n && |goners| <= GONERS_CAP
        invariant forall p | p in pids :: live[Home(db.hash, p, n)]
        invariant NoRepeats(goners)
        invariant forall p | p in goners :: p in db.Map() && p !in pids
        invariant forall k | i <= k < n && db.slots[k].Used? :: db.slots[k].key !in goners
        invariant forall k | 0 <= k < i && db.slots[k].Used? && db.slots[k].key !in pids :: db.slots[k].key in goners
      {
        if db.slots[i].Used? {
          var e := db.slots[i].key;
          var alive := StillAlive(live, pids, e);
          if !alive {
            SlotInContents(db.slots[..], i);
            goners := goners + [e];
          }
        }
        i := i + 1;
      }
      if |goners| < GONERS_CAP {
        forall p | p in db.Map() && p !in pids
          ensures p in goners
        {
          var k := SlotOf(db.slots[..], p);
          assert db.slots[k].key == p;
        }
      }
    }

    method LiveBitmap(pids: seq<Pid>) returns (live: array<bool>)
      requires Valid()
      ensures fresh(live) && live.Length == db.slots.Length
      ensures forall p | p in pids :: live[Home(db.hash, p, db.slots.Length)]
    {
      var n := db.slots.Length;
      live := new bool[n](_ => false);
      for i := 0 to |pids|
        invariant forall k | 0 <= k < i :: live[Home(db.hash, pids[k], n)]
      {
        live[Home(db.hash, pids[i], n)] := true;
      }
    }

    method StillAlive(live: array<bool>, pids: seq<Pid>, e: Pid) returns (alive: bool)
      requires Valid() && live.Length == db.slots.Length
      requires forall p | p in pids :: live[Home(db.hash, p, db.slots.Length)]
      ensures alive <==> e in pids
    {
      alive := false;
      if live[Home(db.hash, e, live.Length)] {
        alive := Contains(pids, e);
      }
    }

    // Deletion relocates slots, so each goner is looked up afresh.
    method RemoveGoners(goners: seq<Pid>)
      requires Valid() && NoRepeats(goners) && forall p | p in goners :: p in db.Map()
      modifies this, db, db.slots
      ensures Valid() && db.Map() == old(db.Map()) - SetOf(goners)
      ensures calls == old(calls) + Departures(showExit, old(db.Map()), goners)
    {
      ghost var mid, said := db.Map(), calls;
      for i := 0 to |goners|
        invariant Valid() && db.Map() == mid - SetOf(goners[..i])
        invariant calls == said + Departures(showExit, mid, goners[..i])
      {
        assert goners[..i + 1][..i] == goners[..i];
        SetOfPrefix(goners, i);
        var r := db.Find(goners[i]);
        if r == -1 {
          continue;
        }
        var e := db.slots[r].val;
        if e.depth >= 0 && showExit {
          calls := calls + [Ended(goners[i], e.depth, e.argv0)];
        }
        db.Delete(goners[i]);
      }
      assert goners[..|goners|] == goners;
    }
  }

  method Contains(pids: seq<Pid>, p: Pid) returns (found: bool)
    ensures found <==> p in pids
  {
    for k := 0 to |pids|
      invariant p !in pids[..k]
    {
      if pids[k] == p {
        return true;
      }
    }
    return false;
  }

  lemma RoomFor(m: MacDB, all: set<Pid>, pid: Pid, n: nat)
    requires m.Keys <= all && pid in all && |all| <= n
    ensures pid in m || |m| < n
  {
    Subset(m.Keys, all);
  }

  lemma {:induction false} Subset(a: set<Pid>, b: set<Pid>)
    requires a <= b
    ensures |a| <= |b| && (|a| == |b| ==> a == b)
  {
    assert b == a + (b - a);
  }

  // The entry a process has just been given, of unknown depth, does not
  // affect the walk from that process.
  lemma OwnEntryIrrelevant(roots: seq<Pid>, parent: ParentFn, db: MacDB, pid: Pid)
    requires Grounded(SelfParentIsTop(parent), pid) && pid !in db
    ensures DarwinPidDepth(parent, roots, Depths(db[pid := UNTRACED]), pid) ==
            DarwinPidDepth(parent, roots, Depths(db), pid)
  {
    DarwinDepthIsPidDepth(parent, roots, Depths(db), pid);
    DarwinDepthIsPidDepth(parent, roots, Depths(db[pid := UNTRACED]), pid);
    SameMap(Known(Depths(db)), Known(Depths(db[pid := UNTRACED])));
  }

  lemma CappedCollection(picked: seq<Pid>, all: set<Pid>, cap: nat)
    requires NoRepeats(picked) && |picked| <= cap
    requires forall p | p in picked :: p in all
    requires |picked| < cap ==> forall p | p in all :: p in picked
    ensures SetOf(picked) == all <==> |all| <= cap
  {
    DistinctSize(picked);
    Subset(SetOf(picked), all);
    if |picked| < cap {
      assert forall p | p in all :: p in SetOf(picked);
      Subset(all, SetOf(picked));
    }
  }

  lemma SetOfPrefix(s: seq<Pid>, i: nat)
    requires i < |s|
    ensures SetOf(s[..i + 1]) == SetOf(s[..i]) + {s[i]}
  {
  }

  lemma {:induction false} DistinctSize(s: seq<Pid>)
    requires NoRepeats(s)
    ensures |SetOf(s)| == |s|
  {
    if s != [] {
      var n := |s| - 1;
      DistinctSize(s[..n]);
      assert SetOf(s) == SetOf(s[..n]) + {s[n]};
    }
  }
}
