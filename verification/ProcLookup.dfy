// The two process caches: Go sweeps a map, C fills one slot for each port.
module ProcLookup {
  import opened Collections
  import opened ProcCache
  import opened SlotArray

  class GoCache {
    var entries: Entries
    var snap: Snapshot

    constructor ()
      ensures State(entries, snap) == FRESH
    {
      entries, snap := map[], Never;
    }

    method PidForUDPPort(world: World, q: Query) returns (owner: Owner)
      modifies this`snap
      ensures snap == Refresh(world, old(snap), q)
      ensures owner == if snap.Taken? then Answer(snap.listing, q.port) else NOBODY
    {
      if snap.Never? || q.judged - snap.born > TTL {
        snap := Taken(world(q.judged), q.listed);
      }
      if q.port in snap.listing {
        return snap.listing[q.port];
      }
      return NOBODY;
    }

    method Lookup(world: World, q: Query) returns (owner: Owner)
      modifies this
      ensures (State(entries, snap), owner) == ProcCache.Lookup(world, old(State(entries, snap)), q, true)
    {
      if q.port in entries && q.asked - entries[q.port].born < TTL {
        return entries[q.port].owner;
      }
      owner := PidForUDPPort(world, q);
      entries := entries[q.port := Entry(owner, q.stored)];
      if |entries| > MAX_ENTRIES {
        SweepOut(q.swept);
      }
    }

    // Visits the entries in any order and deletes the old ones.
    method SweepOut(now: Time)
      modifies this`entries
      ensures entries == Swept(old(entries), now)
    {
      ghost var was := entries;
      var todo := entries.Keys;
      while todo != {}
        invariant todo <= entries.Keys <= was.Keys
        invariant forall p | p in entries :: entries[p] == was[p]
        invariant forall p | p in entries && p !in todo :: now - was[p].born <= TTL * 4
        invariant forall p | p in was && p !in entries :: now - was[p].born > TTL * 4
        decreases |todo|
      {
        var p := PickOne(todo);
        todo := todo - {p};
        if now - entries[p].born > TTL * 4 {
          entries := entries - {p};
        }
      }
      SameMap(entries, Swept(was, now));
    }
  }

  class CCache {
    const pcache: array<Slot<Entry>>
    var snap: Snapshot

    constructor (ports: nat)
      ensures pcache.Length == ports && fresh(pcache)
      ensures State(Held(pcache[..]), snap) == FRESH
    {
      snap := Never;
      pcache := new Slot<Entry>[ports](_ => Empty);
      new;
      NothingHeld(pcache[..]);
    }

    method PidForUDPPort(world: World, q: Query) returns (owner: Owner)
      modifies this`snap
      ensures snap == RefreshC(world, old(snap), q)
      ensures owner == KnownAnswer(snap.listing, q.port)
    {
      if snap.Never? || q.judged - snap.born > TTL {
        snap := Taken(world(q.judged), q.judged);
      }
      if q.port in snap.listing && snap.listing[q.port].pid > 0 {
        return snap.listing[q.port];
      }
      return NOBODY;
    }

    method Lookup(world: World, q: Query) returns (owner: Owner)
      requires q.port < pcache.Length
      modifies this, pcache
      ensures (State(Held(pcache[..]), snap), owner) == LookupC(world, old(State(Held(pcache[..]), snap)), q)
    {
      var e := pcache[q.port];
      if e.Set? && q.asked - e.e.born < TTL {
        return e.e.owner;
      }
      owner := PidForUDPPort(world, q);
      HeldSet(pcache[..], q.port, Entry(owner, q.asked));
      pcache[q.port] := Set(Entry(owner, q.asked));
    }
  }
}
