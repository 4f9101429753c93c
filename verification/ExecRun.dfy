// Runs of the Linux exec tracer inside a changing process tree.  Processes
// fork and die, and the tracer receives exec and exit events some time later;
// the steps interleave freely.
module ExecRun {
  import opened Bytes
  import opened Ancestry
  import opened ExecEvents

  // Live processes with their parents; 0 is the parent of a topmost process.
  type Tree = map<Pid, Pid>

  function Reading(tree: Tree): ParentFn {
    p => if p in tree then tree[p] else -1
  }

  ghost predicate ValidTree(tree: Tree) {
    forall p | p in tree :: p > 0 && (tree[p] == 0 || tree[p] in tree) && Grounded(Reading(tree), p)
  }

  datatype State = State(tree: Tree, db: PidDB)

  datatype Step =
    | Fork(child: Pid, parent: Pid)
    | Die(pid: Pid, reaper: Pid)
    | ExecEvent(data: seq<byte>, tsNs: nat, firstArg: Pid -> string, described: Pid -> bool)
    | ExitEvent(data: seq<byte>, tsNs: nat)

  function Forked(tree: Tree, child: Pid, parent: Pid): Tree {
    tree[child := parent]
  }

  // The orphans of a dead process go to its reaper.
  function Died(tree: Tree, pid: Pid, reaper: Pid): Tree {
    map p | p in tree && p != pid :: if tree[p] == pid then reaper else tree[p]
  }

  // j steps up from p stands pid, met there first, with no watched root on the
  // way.
  ghost predicate Hangs(tree: Tree, roots: seq<Pid>, p: Pid, pid: Pid, j: nat)
    decreases j
  {
    if j == 0 then p == pid
    else p !in roots && p != pid && p in tree && tree[p] > 0 && Hangs(tree, roots, tree[p], pid, j - 1)
  }

  // Either nothing in the database hangs below the dead process, or the reaper
  // is as far from the roots as the dead process was.
  ghost predicate Harmless(roots: seq<Pid>, s: State, pid: Pid, reaper: Pid) {
    (exists p, j: nat :: p in s.db && p in s.tree && p != pid && Hangs(s.tree, roots, p, pid, j)) ==>
      forall k: nat | NearestRootAt(Reading(s.tree), roots, pid, k) :: NearestRootAt(Reading(s.tree), roots, reaper, k)
  }

  // What the kernel does: a process tree stays a tree.
  ghost predicate Enabled(s: State, step: Step) {
    match step
    case Fork(child, parent) => child > 0 && child !in s.tree && parent in s.tree && child !in s.db
    case Die(pid, reaper) =>
      && pid in s.tree && reaper in s.tree && reaper != pid
      && ValidTree(Died(s.tree, pid, reaper))
    case ExecEvent(data, _, _, _) => |data| >= 8 ==> Grounded(Reading(s.tree), EventPid(data))
    case ExitEvent(_, _) => true
  }

  function Next(cfg: Config, s: State, step: Step): State
    requires Enabled(s, step)
  {
    match step
    case Fork(child, parent) => s.(tree := Forked(s.tree, child, parent))
    case Die(pid, reaper) => s.(tree := Died(s.tree, pid, reaper))
    case ExecEvent(data, ts, arg, described) =>
      s.(db := Advance(s.db, OnExec(cfg, Env(Reading(s.tree), arg, described), s.db, data, ts).events))
    case ExitEvent(data, ts) =>
      s.(db := Advance(s.db, OnExit(cfg, s.db, data, ts).events))
  }

  // Every live process in the database is recorded at its true depth.
  ghost predicate Sound(roots: seq<Pid>, s: State) {
    && ValidTree(s.tree)
    && forall p | p in s.db && p in s.tree ::
         s.db[p].depth >= 0 && IsDepth(Reading(s.tree), roots, p, s.db[p].depth)
  }

  lemma {:induction false} SoundMeansSoundAbove(roots: seq<Pid>, s: State, pid: Pid)
    requires Sound(roots, s) && Grounded(Reading(s.tree), pid)
    ensures SoundAbove(Reading(s.tree), roots, Depths(s.db), pid)
    decreases Height(Reading(s.tree), pid)
  {
    var parent := Reading(s.tree);
    if parent(pid) > 0 {
      assert parent(pid) in s.tree;
      ParentIsLower(parent, pid);
      SoundMeansSoundAbove(roots, s, parent(pid));
    }
  }

  // In a sound state the tracer's recursion gives every process its true
  // depth.
  lemma TracerDepthIsTrue(roots: seq<Pid>, s: State, pid: Pid)
    requires Sound(roots, s) && Grounded(Reading(s.tree), pid)
    ensures IsDepth(Reading(s.tree), roots, pid, PidDepth(Reading(s.tree), roots, Depths(s.db), pid))
  {
    SoundMeansSoundAbove(roots, s, pid);
    PidDepthIsDepth(Reading(s.tree), roots, Depths(s.db), pid);
  }

  // ---- Forking adds a leaf ----

  lemma {:induction false} ForkKeepsRoots(tree: Tree, roots: seq<Pid>, child: Pid, parent: Pid, p: Pid, k: nat)
    requires ValidTree(tree) && child !in tree && parent in tree && p in tree
    ensures RootAt(Reading(Forked(tree, child, parent)), roots, p, k) <==> RootAt(Reading(tree), roots, p, k)
    decreases k
  {
    if k > 0 && tree[p] > 0 {
      ForkKeepsRoots(tree, roots, child, parent, tree[p], k - 1);
    }
  }

  lemma {:induction false} ForkKeepsEnds(tree: Tree, child: Pid, parent: Pid, p: Pid, n: nat)
    requires ValidTree(tree) && child !in tree && parent in tree && p in tree
    requires EndsWithin(Reading(tree), p, n)
    ensures EndsWithin(Reading(Forked(tree, child, parent)), p, n)
    decreases n
  {
    if tree[p] > 0 {
      ForkKeepsEnds(tree, child, parent, tree[p], n - 1);
    }
  }

  lemma ForkKeepsTree(tree: Tree, child: Pid, parent: Pid)
    requires ValidTree(tree) && child > 0 && child !in tree && parent in tree
    ensures ValidTree(Forked(tree, child, parent))
  {
    var t := Forked(tree, child, parent);
    forall p | p in tree
      ensures Grounded(Reading(t), p)
    {
      ForkKeepsEnds(tree, child, parent, p, Height(Reading(tree), p));
    }
    var n := Height(Reading(t), parent);
    assert EndsWithin(Reading(t), child, n + 1);
  }

  // ---- What a death does to depths ----

  lemma NearestStep(parent: ParentFn, roots: seq<Pid>, p: Pid, k: nat)
    ensures NearestRootAt(parent, roots, p, k) <==>
            if p in roots then k == 0 else k > 0 && parent(p) > 0 && NearestRootAt(parent, roots, parent(p), k - 1)
  {
    assert RootAt(parent, roots, p, 0) <==> p in roots;
    if k > 0 && p !in roots && parent(p) > 0 {
      if NearestRootAt(parent, roots, p, k) {
        forall j: nat | j < k - 1
          ensures !RootAt(parent, roots, parent(p), j)
        {
          assert !RootAt(parent, roots, p, j + 1);
        }
      }
      if NearestRootAt(parent, roots, parent(p), k - 1) {
        forall j: nat | j < k
          ensures !RootAt(parent, roots, p, j)
        {
          if j > 0 {
            assert !RootAt(parent, roots, parent(p), j - 1);
          }
        }
      }
    }
  }

  lemma DepthIsNearest(parent: ParentFn, roots: seq<Pid>, p: Pid, d: nat)
    ensures IsDepth(parent, roots, p, d) <==> NearestRootAt(parent, roots, p, if p in roots && d == 0 then 0 else d + 1)
  {
    assert RootAt(parent, roots, p, 0) <==> p in roots;
  }

  // A process that does not hang below the dead one keeps its nearest root.
  lemma {:induction false} NotHanging(tree: Tree, roots: seq<Pid>, pid: Pid, reaper: Pid, q: Pid, k: nat)
    requires ValidTree(tree) && pid in tree && q in tree && forall j: nat :: !Hangs(tree, roots, q, pid, j)
    ensures NearestRootAt(Reading(Died(tree, pid, reaper)), roots, q, k) <==> NearestRootAt(Reading(tree), roots, q, k)
    decreases k
  {
    var was, now := Reading(tree), Reading(Died(tree, pid, reaper));
    NearestStep(was, roots, q, k);
    NearestStep(now, roots, q, k);
    assert !Hangs(tree, roots, q, pid, 0);
    if k > 0 && q !in roots && tree[q] > 0 {
      forall j: nat
        ensures !Hangs(tree, roots, tree[q], pid, j)
      {
        assert !Hangs(tree, roots, q, pid, j + 1);
      }
      assert !Hangs(tree, roots, tree[q], pid, 0);
      NotHanging(tree, roots, pid, reaper, tree[q], k - 1);
    }
  }

  // One that does has the nearest root of the dead process, and afterwards
  // that of the reaper.
  lemma {:induction false} Hanging(tree: Tree, roots: seq<Pid>, pid: Pid, reaper: Pid, p: Pid, j: nat, k: nat)
    requires ValidTree(tree) && reaper in tree && j > 0 && Hangs(tree, roots, p, pid, j)
    ensures NearestRootAt(Reading(tree), roots, p, k) <==> k >= j && NearestRootAt(Reading(tree), roots, pid, k - j)
    ensures var now := Reading(Died(tree, pid, reaper));
            NearestRootAt(now, roots, p, k) <==> k >= j && NearestRootAt(now, roots, reaper, k - j)
    decreases j
  {
    NearestStep(Reading(tree), roots, p, k);
    NearestStep(Reading(Died(tree, pid, reaper)), roots, p, k);
    if j > 1 && k > 0 {
      Hanging(tree, roots, pid, reaper, tree[p], j - 1, k - 1);
    }
  }

  lemma {:induction false} BelowIsHigher(tree: Tree, pid: Pid, reaper: Pid, roots: seq<Pid>, p: Pid, j: nat)
    requires ValidTree(tree) && pid in tree && ValidTree(Died(tree, pid, reaper)) && reaper in tree && reaper != pid
    requires j > 0 && Hangs(tree, roots, p, pid, j)
    ensures Height(Reading(Died(tree, pid, reaper)), reaper) < Height(Reading(Died(tree, pid, reaper)), p)
    decreases j
  {
    var now := Reading(Died(tree, pid, reaper));
    ParentIsLower(now, p);
    if j > 1 {
      BelowIsHigher(tree, pid, reaper, roots, tree[p], j - 1);
    }
  }

  // The reaper of a tree that stays a tree does not hang below the dead.
  lemma ReaperStays(tree: Tree, roots: seq<Pid>, pid: Pid, reaper: Pid, k: nat)
    requires ValidTree(tree) && pid in tree && ValidTree(Died(tree, pid, reaper)) && reaper in tree && reaper != pid
    ensures NearestRootAt(Reading(Died(tree, pid, reaper)), roots, reaper, k) <==> NearestRootAt(Reading(tree), roots, reaper, k)
  {
    forall j: nat
      ensures !Hangs(tree, roots, reaper, pid, j)
    {
      if j > 0 && Hangs(tree, roots, reaper, pid, j) {
        BelowIsHigher(tree, pid, reaper, roots, reaper, j);
      }
    }
    NotHanging(tree, roots, pid, reaper, reaper, k);
  }

  // The depth of a process that hangs below the dead one survives exactly when
  // the reaper is as far from the roots as the dead one was.
  lemma HangingDepth(tree: Tree, roots: seq<Pid>, pid: Pid, reaper: Pid, p: Pid, j: nat, d: nat)
    requires ValidTree(tree) && pid in tree && ValidTree(Died(tree, pid, reaper)) && reaper in tree && reaper != pid
    requires j > 0 && Hangs(tree, roots, p, pid, j) && IsDepth(Reading(tree), roots, p, d)
    ensures d + 1 >= j && NearestRootAt(Reading(tree), roots, pid, d + 1 - j)
    ensures IsDepth(Reading(Died(tree, pid, reaper)), roots, p, d) <==> NearestRootAt(Reading(tree), roots, reaper, d + 1 - j)
  {
    DepthIsNearest(Reading(tree), roots, p, d);
    DepthIsNearest(Reading(Died(tree, pid, reaper)), roots, p, d);
    Hanging(tree, roots, pid, reaper, p, j, d + 1);
    ReaperStays(tree, roots, pid, reaper, d + 1 - j);
  }

  lemma OneNearest(parent: ParentFn, roots: seq<Pid>, p: Pid, k: nat, l: nat)
    requires NearestRootAt(parent, roots, p, k) && NearestRootAt(parent, roots, p, l)
    ensures k == l
  {
  }

  lemma HarmlessKeepsDepth(roots: seq<Pid>, s: State, pid: Pid, reaper: Pid, p: Pid)
    requires Sound(roots, s) && pid in s.tree && ValidTree(Died(s.tree, pid, reaper)) && reaper in s.tree && reaper != pid
    requires Harmless(roots, s, pid, reaper) && p in s.db && p in s.tree && p != pid
    ensures IsDepth(Reading(Died(s.tree, pid, reaper)), roots, p, s.db[p].depth)
  {
    var d := s.db[p].depth;
    if j: nat :| Hangs(s.tree, roots, p, pid, j) {
      HangingDepth(s.tree, roots, pid, reaper, p, j, d);
    } else {
      DepthIsNearest(Reading(s.tree), roots, p, d);
      DepthIsNearest(Reading(Died(s.tree, pid, reaper)), roots, p, d);
      NotHanging(s.tree, roots, pid, reaper, p, if p in roots && d == 0 then 0 else d + 1);
    }
  }

  lemma SoundDeathIsHarmless(roots: seq<Pid>, s: State, pid: Pid, reaper: Pid)
    requires Sound(roots, s) && pid in s.tree && reaper in s.tree && reaper != pid
    requires Sound(roots, s.(tree := Died(s.tree, pid, reaper)))
    ensures Harmless(roots, s, pid, reaper)
  {
    if p, j: nat :| p in s.db && p in s.tree && p != pid && Hangs(s.tree, roots, p, pid, j) {
      var d := s.db[p].depth;
      HangingDepth(s.tree, roots, pid, reaper, p, j, d);
      forall k: nat | NearestRootAt(Reading(s.tree), roots, pid, k)
        ensures NearestRootAt(Reading(s.tree), roots, reaper, k)
      {
        OneNearest(Reading(s.tree), roots, pid, k, d + 1 - j);
      }
    }
  }

  // A death leaves every recorded depth true if and only if it is harmless.
  lemma DeathSoundIffHarmless(roots: seq<Pid>, s: State, pid: Pid, reaper: Pid)
    requires Sound(roots, s) && pid in s.tree && reaper in s.tree && reaper != pid && ValidTree(Died(s.tree, pid, reaper))
    ensures Sound(roots, s.(tree := Died(s.tree, pid, reaper))) <==> Harmless(roots, s, pid, reaper)
  {
    var after := s.(tree := Died(s.tree, pid, reaper));
    if Sound(roots, after) {
      SoundDeathIsHarmless(roots, s, pid, reaper);
    }
    if Harmless(roots, s, pid, reaper) {
      forall p | p in after.db && p in after.tree
        ensures after.db[p].depth >= 0 && IsDepth(Reading(after.tree), roots, p, after.db[p].depth)
      {
        HarmlessKeepsDepth(roots, s, pid, reaper, p);
      }
    }
  }

  ghost predicate HarmlessStep(roots: seq<Pid>, s: State, step: Step) {
    step.Die? ==> Harmless(roots, s, step.pid, step.reaper)
  }

  // A step leaves every recorded depth true unless it is a death that is not
  // harmless.
  lemma StepKeepsSound(cfg: Config, s: State, step: Step)
    requires Sound(cfg.roots, s) && Enabled(s, step)
    ensures Sound(cfg.roots, Next(cfg, s, step)) <==> HarmlessStep(cfg.roots, s, step)
  {
    var s' := Next(cfg, s, step);
    match step {
      case Fork(child, parent) =>
        ForkKeepsTree(s.tree, child, parent);
        forall p | p in s'.db && p in s'.tree
          ensures IsDepth(Reading(s'.tree), cfg.roots, p, s'.db[p].depth)
        {
          forall k: nat
            ensures RootAt(Reading(s'.tree), cfg.roots, p, k) <==> RootAt(Reading(s.tree), cfg.roots, p, k)
          {
            ForkKeepsRoots(s.tree, cfg.roots, child, parent, p, k);
          }
        }
      case Die(pid, reaper) =>
        DeathSoundIffHarmless(cfg.roots, s, pid, reaper);
      case ExecEvent(data, ts, arg, described) =>
        if |data| >= 8 {
          TracerDepthIsTrue(cfg.roots, s, EventPid(data));
        }
      case ExitEvent(data, ts) =>
    }
  }

  // ---- Whole runs ----

  ghost predicate IsRun(cfg: Config, states: seq<State>, steps: seq<Step>) {
    && |states| == |steps| + 1
    && states[0].db == map[] && ValidTree(states[0].tree)
    && forall i | 0 <= i < |steps| ::
         Enabled(states[i], steps[i]) && states[i + 1] == Next(cfg, states[i], steps[i])
  }

  ghost predicate AllHarmless(cfg: Config, states: seq<State>, steps: seq<Step>, n: nat)
    requires n <= |steps| <= |states|
  {
    forall i | 0 <= i < n :: HarmlessStep(cfg.roots, states[i], steps[i])
  }

  ghost predicate AllSound(cfg: Config, states: seq<State>, n: nat)
    requires n < |states|
  {
    forall i | 0 <= i <= n :: Sound(cfg.roots, states[i])
  }

  // From an empty database, every recorded depth is true at every moment of a
  // run up to state n if and only if every death up to there is harmless.
  lemma {:induction false} RunsSoundIffDeathsHarmless(cfg: Config, states: seq<State>, steps: seq<Step>, n: nat)
    requires IsRun(cfg, states, steps) && n <= |steps|
    ensures AllSound(cfg, states, n) <==> AllHarmless(cfg, states, steps, n)
  {
    if n > 0 {
      RunsSoundIffDeathsHarmless(cfg, states, steps, n - 1);
      hide Sound, HarmlessStep, Enabled;
      if AllSound(cfg, states, n - 1) {
        StepKeepsSound(cfg, states[n - 1], steps[n - 1]);
        assert states[n - 1 + 1] == Next(cfg, states[n - 1], steps[n - 1]);
      }
    }
  }

  // And as long as they are, asking for the depth of any process through the
  // cache gives the true answer.
  lemma RunsStaySound(cfg: Config, states: seq<State>, steps: seq<Step>, i: nat)
    requires IsRun(cfg, states, steps) && i <= |steps| && AllHarmless(cfg, states, steps, i)
    ensures Sound(cfg.roots, states[i])
    ensures forall pid | pid in states[i].tree ::
              IsDepth(Reading(states[i].tree), cfg.roots, pid,
                      PidDepth(Reading(states[i].tree), cfg.roots, Depths(states[i].db), pid))
  {
    RunsSoundIffDeathsHarmless(cfg, states, steps, i);
    forall pid | pid in states[i].tree
      ensures IsDepth(Reading(states[i].tree), cfg.roots, pid,
                      PidDepth(Reading(states[i].tree), cfg.roots, Depths(states[i].db), pid))
    {
      TracerDepthIsTrue(cfg.roots, states[i], pid);
    }
  }

  // ---- What is recorded and reported ----

  // k parent steps lead from pid to a watched root, for some k.
  ghost predicate Below(tree: Tree, roots: seq<Pid>, pid: Pid) {
    exists k: nat :: RootAt(Reading(tree), roots, pid, k)
  }

  lemma BelowHasDepth(tree: Tree, roots: seq<Pid>, pid: Pid, d: int)
    requires IsDepth(Reading(tree), roots, pid, d)
    ensures Below(tree, roots, pid) <==> d >= 0
  {
  }

  // What an exec of pid leaves in the database and in the output: below a root
  // its entry, at its depth, with the time and command of the exec, and after
  // a line for the entry replaced a line for the start; elsewhere nothing.
  ghost predicate ExecRecorded(cfg: Config, s: State, db: PidDB, lines: seq<Line>, pid: Pid, tsNs: nat, env: Env) {
    if Below(s.tree, cfg.roots, pid) then
      && pid in db && IsDepth(Reading(s.tree), cfg.roots, pid, db[pid].depth) && db[pid].depth >= 0
      && db[pid].startNs == tsNs && db[pid].cmdline == env.firstArg(pid)
      && db.Keys == s.db.Keys + {pid} && (forall q | q in s.db && q != pid :: db[q] == s.db[q])
      && lines ==
         (if cfg.showExit && pid in s.db && s.db[pid].cmdline != "" then [Execed(pid, s.db[pid].depth, s.db[pid].cmdline)] else [])
         + (if env.described(pid) then [Started(pid, db[pid].depth)] else [])
    else
      db == s.db && lines == []
  }

  lemma ExecLaw(cfg: Config, s: State, pid: Pid, more: seq<byte>, tsNs: nat, env: Env)
    requires Sound(cfg.roots, s) && env.parent == Reading(s.tree) && Grounded(Reading(s.tree), pid)
    requires -0x8000_0000 <= pid < 0x8000_0000 && |more| >= 4
    ensures CanWalk(env, PidBytes(pid) + more)
    ensures var o := OnExec(cfg, env, s.db, PidBytes(pid) + more, tsNs);
            ExecRecorded(cfg, s, Advance(s.db, o.events), o.lines, pid, tsNs, env)
  {
    PidReadsBack(pid, more);
    TracerDepthIsTrue(cfg.roots, s, pid);
    var d := PidDepth(env.parent, cfg.roots, Depths(s.db), pid);
    BelowHasDepth(s.tree, cfg.roots, pid, d);
    hide IsDepth, Below, Sound, PidBytes, EventPid, PidDepth;
  }

  // In every run with harmless deaths, each exec event is recorded so.
  lemma RunsRecordExecs(cfg: Config, states: seq<State>, steps: seq<Step>, i: nat, pid: Pid, more: seq<byte>)
    requires IsRun(cfg, states, steps) && i < |steps| && AllHarmless(cfg, states, steps, i)
    requires -0x8000_0000 <= pid < 0x8000_0000 && |more| >= 4
    requires steps[i].ExecEvent? && steps[i].data == PidBytes(pid) + more
    ensures var env := Env(Reading(states[i].tree), steps[i].firstArg, steps[i].described);
            && CanWalk(env, steps[i].data)
            && ExecRecorded(cfg, states[i], states[i + 1].db,
                            OnExec(cfg, env, states[i].db, steps[i].data, steps[i].tsNs).lines, pid, steps[i].tsNs, env)
  {
    RunsSoundIffDeathsHarmless(cfg, states, steps, i);
    PidReadsBack(pid, more);
    assert Enabled(states[i], steps[i]) && states[i + 1] == Next(cfg, states[i], steps[i]);
    hide Sound, PidBytes, EventPid, ExecRecorded;
    ExecLaw(cfg, states[i], pid, more, steps[i].tsNs, Env(Reading(states[i].tree), steps[i].firstArg, steps[i].described));
  }

  // A death that is not harmless: below root 1 in the
  // chain 1 <- 2 <- 3 <- 4, with 3 in the database, the death of 2 lifts 3 to
  // the root, and from then on both 3 and its child 4 are put one level too
  // deep.
  lemma ReparentingMakesDepthStale()
    ensures var tree: Tree := map[1 := 0, 2 := 1, 3 := 2, 4 := 3];
            var db: PidDB := map[3 := PidEntry(1, 0, "sh")];
            var after := Died(tree, 2, 1);
            && IsDepth(Reading(tree), [1], 3, 1)
            && IsDepth(Reading(after), [1], 3, 0) && !IsDepth(Reading(after), [1], 3, db[3].depth)
            && Grounded(Reading(after), 4)
            && IsDepth(Reading(after), [1], 4, 1)
            && PidDepth(Reading(after), [1], Depths(db), 4) == 2
  {
    var tree: Tree := map[1 := 0, 2 := 1, 3 := 2, 4 := 3];
    var after := Died(tree, 2, 1);
    var was, now := Reading(tree), Reading(after);
    assert RootAt(was, [1], 1, 0) && RootAt(was, [1], 2, 1) && RootAt(was, [1], 3, 2);
    assert NearestRootAt(was, [1], 3, 2);
    assert RootAt(now, [1], 1, 0) && RootAt(now, [1], 3, 1) && RootAt(now, [1], 4, 2);
    assert NearestRootAt(now, [1], 3, 1) && NearestRootAt(now, [1], 4, 2);
    assert EndsWithin(now, 1, 0) && EndsWithin(now, 3, 1) && EndsWithin(now, 4, 2);
    DepthUnique(now, [1], 3, 0, 0);
  }
}
