// The two exec tracers: Go keeps its database in a map, C in the probing
// table.  Both methods pairs compute the same handlers.
module ExecTracer {
  import opened Bytes
  import opened Ancestry
  import opened ExecEvents
  import opened ProbeSpec
  import opened ProbeTable

  class GoTracer {
    const cfg: Config
    var pidDB: PidDB
    var lines: seq<Line>

    constructor (cfg: Config)
      ensures this.cfg == cfg && pidDB == map[] && lines == []
    {
      this.cfg, pidDB, lines := cfg, map[], [];
    }

    method HandleExec(env: Env, data: seq<byte>, tsNs: nat)
      requires CanWalk(env, data)
      modifies this
      ensures var o := OnExec(cfg, env, old(pidDB), data, tsNs);
              pidDB == Advance(old(pidDB), o.events) && lines == old(lines) + o.lines
    {
      if |data| < 8 {
        return;
      }
      var pid := Int32(Le32(data, 0));
      var d := PidDepth(env.parent, cfg.roots, Depths(pidDB), pid);
      if d < 0 {
        return;
      }
      var exists_ := pid in pidDB;
      var ent := if exists_ then pidDB[pid] else NEW_ENTRY;
      if cfg.showExit && exists_ && ent.cmdline != "" {
        lines := lines + [Execed(pid, ent.depth, ent.cmdline)];
      }
      pidDB := pidDB[pid := PidEntry(d, tsNs, env.firstArg(pid))];
      if env.described(pid) {
        lines := lines + [Started(pid, d)];
      }
    }

    method HandleExit(data: seq<byte>, tsNs: nat)
      modifies this
      ensures var o := OnExit(cfg, old(pidDB), data, tsNs);
              pidDB == Advance(old(pidDB), o.events) && lines == old(lines) + o.lines
    {
      if |data| < 24 {
        return;
      }
      var pid := Int32(Le32(data, 0));
      var exitCode := Le32(data, 8);
      var ok := pid in pidDB;
      var ent := if ok then pidDB[pid] else NEW_ENTRY;
      if ok {
        pidDB := pidDB - {pid};
      }
      if !ok || !cfg.showExit {
        return;
      }
      lines := lines + [Ended(pid, ent.depth, ent.cmdline, (tsNs - ent.startNs) % U64, WaitStatus(exitCode))];
    }
  }

  class CTracer {
    const cfg: Config
    const db: Table<Pid, PidEntry>
    var lines: seq<Line>

    ghost predicate Valid()
      reads this, db, db.slots
    {
      db.Valid() && db.pristine == NEW_ENTRY
    }

    constructor (cfg: Config, capacity: nat, hash: Pid -> nat)
      requires capacity > 0
      ensures Valid() && fresh(db) && fresh(db.slots) && db.slots.Length == capacity
      ensures this.cfg == cfg && db.Map() == map[] && lines == []
    {
      this.cfg, lines := cfg, [];
      db := new Table(capacity, hash, NEW_ENTRY);
    }

    // The recursion looks the parent up with piddb_find.
    method Depth(parent: ParentFn, pid: Pid) returns (d: int)
      requires Valid() && Grounded(parent, pid)
      ensures d == PidDepth(parent, cfg.roots, Depths(db.Map()), pid)
      decreases Height(parent, pid)
    {
      if pid in cfg.roots {
        return 0;
      }
      var ppid := parent(pid);
      if ppid < 0 || ppid == 0 {
        return -1;
      }
      if ppid in cfg.roots {
        return 0;
      }
      var ent := db.Find(ppid);
      if ent != -1 {
        return db.slots[ent].val.depth + 1;
      }
      ParentIsLower(parent, pid);
      d := Depth(parent, ppid);
      return if d < 0 then -1 else d + 1;
    }

    // Agrees with Go as long as the database afterwards fits the table; the C
    // code assumes that it does.
    method HandleExec(env: Env, data: seq<byte>, tsNs: nat)
      requires Valid() && CanWalk(env, data)
      requires |Advance(db.Map(), OnExec(cfg, env, db.Map(), data, tsNs).events)| <= db.slots.Length
      modifies this, db, db.slots
      ensures Valid()
      ensures var o := OnExec(cfg, env, old(db.Map()), data, tsNs);
              db.Map() == Advance(old(db.Map()), o.events) && lines == old(lines) + o.lines
    {
      if |data| < 8 {
        return;
      }
      var pid := Int32(Le32(data, 0));
      var d := Depth(env.parent, pid);
      if d < 0 {
        return;
      }
      ghost var m := db.Map();
      var r, created := db.Get(pid);
      SlotInContents(db.slots[..], r);
      var ent := db.slots[r].val;
      if cfg.showExit && !created && ent.cmdline != "" {
        lines := lines + [Execed(pid, ent.depth, ent.cmdline)];
      }
      db.Store(r, PidEntry(d, tsNs, env.firstArg(pid)));
      if env.described(pid) {
        lines := lines + [Started(pid, d)];
      }
      assert m[pid := NEW_ENTRY][pid := PidEntry(d, tsNs, env.firstArg(pid))] ==
             m[pid := PidEntry(d, tsNs, env.firstArg(pid))];
    }

    method HandleExit(data: seq<byte>, tsNs: nat)
      requires Valid()
      modifies this, db, db.slots
      ensures Valid()
      ensures var o := OnExit(cfg, old(db.Map()), data, tsNs);
              db.Map() == Advance(old(db.Map()), o.events) && lines == old(lines) + o.lines
    {
      if |data| < 24 {
        return;
      }
      var pid := Int32(Le32(data, 0));
      var exitCode := Le32(data, 8);
      var r := db.Find(pid);
      if r == -1 {
        return;
      }
      var saved := db.slots[r].val;
      db.Delete(pid);
      if !cfg.showExit {
        return;
      }
      lines := lines + [Ended(pid, saved.depth, saved.cmdline, (tsNs - saved.startNs) % U64, WaitStatus(exitCode))];
    }
  }
}
