// Where a process stands below the watched roots.  `parent(p)` is what reading
// the parent of p yields: a positive pid, 0 at the top of the tree, negative
// when p cannot be read.
module Ancestry {
  type Pid = int
  type ParentFn = Pid -> Pid

  // ---- The question, asked without recursion through any cache ----

  // k parent steps, each to a positive pid, lead from pid to a watched root.
  ghost predicate RootAt(parent: ParentFn, roots: seq<Pid>, pid: Pid, k: nat)
    decreases k
  {
    if k == 0 then pid in roots
    else parent(pid) > 0 && RootAt(parent, roots, parent(pid), k - 1)
  }

  ghost predicate NearestRootAt(parent: ParentFn, roots: seq<Pid>, pid: Pid, k: nat) {
    RootAt(parent, roots, pid, k) && forall j: nat | j < k :: !RootAt(parent, roots, pid, j)
  }

  // The depth a from-scratch walk gives: a root and its children stand at 0,
  // a process k > 0 steps below its nearest root at k - 1, any other at -1.
  ghost predicate IsDepth(parent: ParentFn, roots: seq<Pid>, pid: Pid, d: int) {
    || (d == -1 && forall k: nat :: !RootAt(parent, roots, pid, k))
    || (d == 0 && RootAt(parent, roots, pid, 0))
    || (d >= 0 && NearestRootAt(parent, roots, pid, d + 1))
  }

  // Walking up from pid ends within n steps.
  ghost predicate EndsWithin(parent: ParentFn, pid: Pid, n: nat)
    decreases n
  {
    parent(pid) <= 0 || (n > 0 && EndsWithin(parent, parent(pid), n - 1))
  }

  ghost predicate Grounded(parent: ParentFn, pid: Pid) {
    exists n: nat :: EndsWithin(parent, pid, n)
  }

  ghost function Height(parent: ParentFn, pid: Pid): (n: nat)
    requires Grounded(parent, pid)
    ensures EndsWithin(parent, pid, n) && forall m: nat | m < n :: !EndsWithin(parent, pid, m)
  {
    var n: nat :| EndsWithin(parent, pid, n);
    LeastEnd(parent, pid, n)
  }

  ghost function LeastEnd(parent: ParentFn, pid: Pid, n: nat): (m: nat)
    requires EndsWithin(parent, pid, n)
    ensures EndsWithin(parent, pid, m) && forall i: nat | i < m :: !EndsWithin(parent, pid, i)
  {
    if n > 0 && EndsWithin(parent, pid, n - 1) then LeastEnd(parent, pid, n - 1)
    else NotEarlier(parent, pid, n); n
  }

  lemma NotEarlier(parent: ParentFn, pid: Pid, n: nat)
    requires n > 0 ==> !EndsWithin(parent, pid, n - 1)
    ensures forall i: nat | i < n :: !EndsWithin(parent, pid, i)
  {
    forall i: nat | i < n
      ensures !EndsWithin(parent, pid, i)
    {
      if EndsWithin(parent, pid, i) {
        EndsLater(parent, pid, i, n - 1);
      }
    }
  }

  lemma {:induction false} EndsLater(parent: ParentFn, pid: Pid, i: nat, n: nat)
    requires i <= n && EndsWithin(parent, pid, i)
    ensures EndsWithin(parent, pid, n)
    decreases n
  {
    if parent(pid) > 0 {
      EndsLater(parent, parent(pid), i - 1, n - 1);
    }
  }

  lemma ParentIsLower(parent: ParentFn, pid: Pid)
    requires Grounded(parent, pid) && parent(pid) > 0
    ensures Grounded(parent, parent(pid))
    ensures Height(parent, parent(pid)) < Height(parent, pid)
  {
    assert EndsWithin(parent, parent(pid), Height(parent, pid) - 1);
  }

  // ---- The cached recursion of the tracer (Linux) ----

  // `cache` holds the depths of the processes in the database.
  function PidDepth(parent: ParentFn, roots: seq<Pid>, cache: map<Pid, int>, pid: Pid): int
    requires Grounded(parent, pid)
    decreases Height(parent, pid)
  {
    if pid in roots then 0
    else
      var ppid := parent(pid);
      if ppid < 0 then -1
      else if ppid == 0 then -1
      else if ppid in roots then 0
      else if ppid in cache then cache[ppid] + 1
      else
        ParentIsLower(parent, pid);
        var d := PidDepth(parent, roots, cache, ppid);
        if d < 0 then -1 else d + 1
  }

  // Every cached entry among the proper ancestors of pid is true.
  ghost predicate SoundAbove(parent: ParentFn, roots: seq<Pid>, cache: map<Pid, int>, pid: Pid)
    requires Grounded(parent, pid)
    decreases Height(parent, pid)
  {
    if parent(pid) <= 0 then true
    else
      ParentIsLower(parent, pid);
      var ppid := parent(pid);
      (ppid in cache ==> cache[ppid] >= 0 && IsDepth(parent, roots, ppid, cache[ppid])) &&
      SoundAbove(parent, roots, cache, ppid)
  }

  lemma {:induction false} DepthBelowParent(parent: ParentFn, roots: seq<Pid>, pid: Pid, d: int)
    requires pid !in roots && parent(pid) > 0
    requires IsDepth(parent, roots, parent(pid), d)
    ensures IsDepth(parent, roots, pid, if parent(pid) in roots then 0 else if d < 0 then -1 else d + 1)
  {
    var p := parent(pid);
    assert forall k: nat :: RootAt(parent, roots, pid, k) <==> k > 0 && RootAt(parent, roots, p, k - 1);
    if p in roots {
      assert RootAt(parent, roots, p, 0);
      assert NearestRootAt(parent, roots, pid, 1);
    } else if d >= 0 {
      assert NearestRootAt(parent, roots, p, d + 1);
      assert RootAt(parent, roots, pid, d + 2);
    }
  }

  // The recursion answers as the from-scratch walk does, whatever part of the
  // chain the cache short-cuts, as long as what it caches is true.
  lemma {:induction false} PidDepthIsDepth(parent: ParentFn, roots: seq<Pid>, cache: map<Pid, int>, pid: Pid)
    requires Grounded(parent, pid) && SoundAbove(parent, roots, cache, pid)
    ensures IsDepth(parent, roots, pid, PidDepth(parent, roots, cache, pid))
    decreases Height(parent, pid)
  {
    var ppid := parent(pid);
    if pid in roots {
      assert RootAt(parent, roots, pid, 0);
    } else if ppid > 0 {
      ParentIsLower(parent, pid);
      if ppid in roots {
        assert RootAt(parent, roots, ppid, 0);
        DepthBelowParent(parent, roots, pid, 0);
      } else if ppid in cache {
        DepthBelowParent(parent, roots, pid, cache[ppid]);
      } else {
        PidDepthIsDepth(parent, roots, cache, ppid);
        DepthBelowParent(parent, roots, pid, PidDepth(parent, roots, cache, ppid));
      }
    }
  }

  lemma DepthUnique(parent: ParentFn, roots: seq<Pid>, pid: Pid, d: int, e: int)
    requires IsDepth(parent, roots, pid, d) && IsDepth(parent, roots, pid, e)
    ensures d == e
  {
  }

  // ---- The Darwin recursion ----

  // It also stops at a process that is its own parent, and looks past cached
  // entries of unknown depth.
  function DarwinPidDepth(parent: ParentFn, roots: seq<Pid>, cache: map<Pid, int>, pid: Pid): int
    requires Grounded(SelfParentIsTop(parent), pid)
    decreases Height(SelfParentIsTop(parent), pid)
  {
    if pid in roots then 0
    else
      var ppid := parent(pid);
      if ppid < 0 then -1
      else if ppid == 0 || ppid == pid then -1
      else if ppid in roots then 0
      else if ppid in cache && cache[ppid] >= 0 then cache[ppid] + 1
      else
        ParentIsLower(SelfParentIsTop(parent), pid);
        var d := DarwinPidDepth(parent, roots, cache, ppid);
        if d < 0 then -1 else d + 1
  }

  function SelfParentIsTop(parent: ParentFn): ParentFn {
    p => if parent(p) == p then 0 else parent(p)
  }

  function Known(cache: map<Pid, int>): map<Pid, int> {
    map p | p in cache && cache[p] >= 0 :: cache[p]
  }

  // Entries of unknown depth and self-parenting processes change nothing: the
  // Darwin recursion is the Linux one on the known entries.
  lemma {:induction false} DarwinDepthIsPidDepth(parent: ParentFn, roots: seq<Pid>, cache: map<Pid, int>, pid: Pid)
    requires Grounded(SelfParentIsTop(parent), pid)
    ensures DarwinPidDepth(parent, roots, cache, pid) == PidDepth(SelfParentIsTop(parent), roots, Known(cache), pid)
    decreases Height(SelfParentIsTop(parent), pid)
  {
    if pid !in roots && parent(pid) > 0 && parent(pid) != pid {
      ParentIsLower(SelfParentIsTop(parent), pid);
      DarwinDepthIsPidDepth(parent, roots, cache, parent(pid));
    }
  }

  // ---- The ancestry test of the connection tracer ----

  // The k-th ancestor, reached through pids above 1, is watched.
  ghost predicate WatchedAncestorAt(parent: ParentFn, watch: seq<Pid>, pid: Pid, k: nat)
    decreases k
  {
    k > 0 && pid > 1 && parent(pid) > 0 &&
    if k == 1 then parent(pid) in watch else WatchedAncestorAt(parent, watch, parent(pid), k - 1)
  }

  // n parent steps through pids above 1 lead from pid to p.
  ghost predicate Climbs(parent: ParentFn, pid: Pid, p: Pid, n: nat)
    decreases n
  {
    if n == 0 then p == pid
    else pid > 1 && parent(pid) > 0 && Climbs(parent, parent(pid), p, n - 1)
  }

  lemma {:induction false} ClimbOn(parent: ParentFn, watch: seq<Pid>, pid: Pid, p: Pid, n: nat)
    requires Climbs(parent, pid, p, n) && p > 1 && parent(p) > 0
    ensures Climbs(parent, pid, parent(p), n + 1)
    ensures WatchedAncestorAt(parent, watch, pid, n + 1) <==> parent(p) in watch
    decreases n
  {
    if n > 0 {
      ClimbOn(parent, watch, parent(pid), p, n - 1);
    }
  }

  // Every pid already visited has an unwatched parent, itself visited or next.
  ghost predicate Trail(parent: ParentFn, watch: seq<Pid>, seen: set<Pid>, next: Pid) {
    forall q {:trigger parent(q)} | q in seen :: parent(q) !in watch && (parent(q) in seen || parent(q) == next)
  }

  ghost function PidsUpTo(n: int): set<Pid> {
    if n <= 1 then {} else PidsUpTo(n - 1) + {n}
  }

  lemma {:induction false} InPidsUpTo(n: int, p: Pid)
    requires 1 < p <= n
    ensures p in PidsUpTo(n)
  {
    if p < n { InPidsUpTo(n - 1, p); }
  }

  lemma FewerLeft(all: set<Pid>, seen: set<Pid>, p: Pid)
    requires p in all && p !in seen
    ensures |all - (seen + {p})| < |all - seen|
  {
    assert all - (seen + {p}) == all - seen - {p};
  }

  // Terminates for every parent function into a bounded type of pids (int32 in
  // the source), cycles included, and is true exactly when some proper ancestor
  // reached through pids above 1 is watched.
  method IsDescendant(parent: ParentFn, watch: seq<Pid>, pid: Pid, ghost maxPid: Pid) returns (r: bool)
    requires pid <= maxPid && forall p :: parent(p) <= maxPid
    ensures r <==> exists k: nat :: WatchedAncestorAt(parent, watch, pid, k)
  {
    var seen := {};
    var p := pid;
    ghost var all, n := PidsUpTo(maxPid), 0;
    while p > 1
      invariant p <= maxPid && seen <= all
      invariant p == pid || pid in seen
      invariant Climbs(parent, pid, p, n)
      invariant Trail(parent, watch, seen, p)
      decreases |all - seen|
    {
      if p in seen {
        NoWayOut(parent, watch, seen, p);
        return false;
      }
      InPidsUpTo(maxPid, p);
      FewerLeft(all, seen, p);
      seen := seen + {p};
      var ppid := parent(p);
      if ppid <= 0 {
        NoWayOut(parent, watch, seen - {p}, p);
        return false;
      }
      ClimbOn(parent, watch, pid, p, n);
      if ppid in watch {
        return true;
      }
      p, n := ppid, n + 1;
    }
    NoWayOut(parent, watch, seen, p);
    return false;
  }

  ghost function Elements(s: seq<Pid>): set<Pid> {
    set q | q in s
  }

  const SEEN_CAP := 256

  // The C walk remembers at most 256 pids: it is true exactly when some
  // watched ancestor stands at most 256 steps up.
  method IsDescendantC(parent: ParentFn, watch: seq<Pid>, pid: Pid) returns (r: bool)
    ensures r <==> exists k: nat :: k <= 256 && WatchedAncestorAt(parent, watch, pid, k)
  {
    var seen := new Pid[SEEN_CAP](_ => 0);
    var seenN := 0;
    var p := pid;
    while p > 1
      invariant 0 <= seenN <= SEEN_CAP
      invariant p == pid || pid in seen[..seenN]
      invariant Climbs(parent, pid, p, seenN)
      invariant Trail(parent, watch, Elements(seen[..seenN]), p)
      invariant forall k: nat | k <= seenN :: !WatchedAncestorAt(parent, watch, pid, k)
      decreases SEEN_CAP - seenN
    {
      var known := InPrefix(seen, seenN, p);
      if known {
        NoWayOut(parent, watch, Elements(seen[..seenN]), p);
        return false;
      }
      if seenN == SEEN_CAP {
        return false;
      }
      ghost var before := seen[..seenN];
      seen[seenN] := p;
      seenN := seenN + 1;
      assert seen[..seenN] == before + [p];
      var ppid := parent(p);
      if ppid <= 0 {
        NoWayOut(parent, watch, Elements(before), p);
        return false;
      }
      ClimbOn(parent, watch, pid, p, seenN - 1);
      if ppid in watch {
        return true;
      }
      p := ppid;
    }
    NoWayOut(parent, watch, Elements(seen[..seenN]), p);
    return false;
  }

  method InPrefix(a: array<Pid>, n: nat, p: Pid) returns (r: bool)
    requires n <= a.Length
    ensures r <==> p in a[..n]
  {
    for i := 0 to n
      invariant p !in a[..i]
    {
      if a[i] == p {
        return true;
      }
      assert a[..i + 1] == a[..i] + [a[i]];
    }
    return false;
  }

  // A trail that ends, or that runs into itself, holds no way to a watched
  // ancestor.
  lemma NoWayOut(parent: ParentFn, watch: seq<Pid>, seen: set<Pid>, end: Pid)
    requires Trail(parent, watch, seen, end)
    requires end <= 1 || parent(end) <= 0 || end in seen
    ensures forall q, k: nat | q in seen || q == end :: !WatchedAncestorAt(parent, watch, q, k)
  {
    forall q, k: nat | q in seen || q == end
      ensures !WatchedAncestorAt(parent, watch, q, k)
    {
      NoWayOutFrom(parent, watch, seen, end, q, k);
    }
  }

  lemma {:induction false} NoWayOutFrom(parent: ParentFn, watch: seq<Pid>, seen: set<Pid>, end: Pid, q: Pid, k: nat)
    requires Trail(parent, watch, seen, end)
    requires end <= 1 || parent(end) <= 0 || end in seen
    requires q in seen || q == end
    ensures !WatchedAncestorAt(parent, watch, q, k)
    decreases k
  {
    if k > 1 && (q in seen || (q > 1 && parent(q) > 0)) {
      NoWayOutFrom(parent, watch, seen, end, parent(q), k - 1);
    }
  }

  // is_watched: the pid itself, or an ancestor.
  ghost predicate Watched(parent: ParentFn, watch: seq<Pid>, pid: Pid) {
    pid > 0 && (pid in watch || exists k: nat :: WatchedAncestorAt(parent, watch, pid, k))
  }

  // The two tracers agree on who is watched: where pid 1 is the top of the
  // tree and the depth cache is sound, the connection tracer watches exactly
  // the processes the exec tracer gives a depth.
  lemma WatchedIffDepth(parent: ParentFn, roots: seq<Pid>, cache: map<Pid, int>, pid: Pid)
    requires pid > 0 && parent(1) <= 0
    requires Grounded(parent, pid) && SoundAbove(parent, roots, cache, pid)
    ensures Watched(parent, roots, pid) <==> PidDepth(parent, roots, cache, pid) >= 0
  {
    PidDepthIsDepth(parent, roots, cache, pid);
    var d := PidDepth(parent, roots, cache, pid);
    assert Watched(parent, roots, pid) <==> exists k: nat :: RootAt(parent, roots, pid, k) by {
      forall k: nat
        ensures k > 0 ==> (RootAt(parent, roots, pid, k) <==> WatchedAncestorAt(parent, roots, pid, k))
      {
        if k > 0 { RootIsWatched(parent, roots, pid, k); }
      }
      assert RootAt(parent, roots, pid, 0) <==> pid in roots;
    }
  }

  lemma {:induction false} RootIsWatched(parent: ParentFn, roots: seq<Pid>, pid: Pid, k: nat)
    requires k > 0 && pid > 0 && parent(1) <= 0
    ensures RootAt(parent, roots, pid, k) <==> WatchedAncestorAt(parent, roots, pid, k)
    decreases k
  {
    if k > 1 && parent(pid) > 0 {
      RootIsWatched(parent, roots, parent(pid), k - 1);
    }
  }
}
