// Open addressing with linear probing and tombstone-free deletion, on sequences
// of slots.  The class in ProbeTable.dfy runs the same steps in place.
//
// The C code masks `home + probe` with a power-of-two capacity; because
// `home + probe` is below twice the capacity, that is the conditional
// subtraction `Wrap` for every capacity, so the capacity stays arbitrary here.
module ProbeSpec {
  datatype Slot<K, V> = Free | Used(key: K, val: V)

  function Wrap(x: nat, n: nat): nat
    requires x < 2 * n
  {
    if x < n then x else x - n
  }

  // How many probes after its home slot h a probe sequence meets slot i.
  function Dist(h: nat, i: nat, n: nat): nat
    requires h < n && i < n
  {
    if h <= i then i - h else i + n - h
  }

  function Home<K>(hash: K -> nat, k: K, n: nat): (h: nat)
    requires n > 0
    ensures h < n
  {
    hash(k) % n
  }

  // Slot j is probed strictly before slot i when looking for k.
  predicate Before<K>(hash: K -> nat, k: K, j: nat, i: nat, n: nat)
    requires j < n && i < n
  {
    Dist(Home(hash, k, n), j, n) < Dist(Home(hash, k, n), i, n)
  }

  ghost predicate Distinct<K, V>(s: seq<Slot<K, V>>) {
    forall i, j | 0 <= i < |s| && 0 <= j < |s| && s[i].Used? && s[j].Used? && s[i].key == s[j].key :: i == j
  }

  // Every slot probed before an entry's own slot is in use, save possibly
  // the slot `hole` that a deletion has just emptied.
  ghost predicate PathsUsedBut<K, V>(s: seq<Slot<K, V>>, hash: K -> nat, hole: int) {
    forall i, j | 0 <= i < |s| && 0 <= j < |s| && s[i].Used? && j != hole && Before(hash, s[i].key, j, i, |s|) ::
      s[j].Used?
  }

  ghost predicate WellFormed<K, V>(s: seq<Slot<K, V>>, hash: K -> nat) {
    |s| > 0 && Distinct(s) && PathsUsedBut(s, hash, -1)
  }

  // The map the table stands for.
  ghost function Contents<K, V>(s: seq<Slot<K, V>>): map<K, V> {
    if s == [] then map[]
    else
      var rest, x := Contents(s[..|s| - 1]), s[|s| - 1];
      if x.Used? then rest[x.key := x.val] else rest
  }

  function UsedCount<K, V>(s: seq<Slot<K, V>>): (c: nat)
    ensures c <= |s|
  {
    if s == [] then 0 else UsedCount(s[..|s| - 1]) + (if s[|s| - 1].Used? then 1 else 0)
  }

  // What one probe sequence for k finds: the first slot that is free or holds
  // k, or -1 when a full circle meets neither.
  ghost predicate ProbesTo<K, V>(s: seq<Slot<K, V>>, hash: K -> nat, k: K, r: int)
    requires |s| > 0
  {
    if r == -1 then
      forall j | 0 <= j < |s| :: s[j].Used? && s[j].key != k
    else
      && 0 <= r < |s|
      && (s[r].Free? || s[r].key == k)
      && forall j | 0 <= j < |s| && Before(hash, k, j, r, |s|) :: s[j].Used? && s[j].key != k
  }

  // The first `probe` slots from h on are in use for other keys.
  ghost predicate Passed<K, V>(s: seq<Slot<K, V>>, h: nat, k: K, probe: nat)
    requires h < |s|
  {
    forall j | 0 <= j < |s| && Dist(h, j, |s|) < probe :: s[j].Used? && s[j].key != k
  }

  lemma PassOne<K, V>(s: seq<Slot<K, V>>, h: nat, k: K, probe: nat)
    requires h < |s| && probe < |s| && Passed(s, h, k, probe)
    requires var i := Wrap(h + probe, |s|); s[i].Used? && s[i].key != k
    ensures Passed(s, h, k, probe + 1)
  {
  }

  lemma ProbeStops<K, V>(s: seq<Slot<K, V>>, hash: K -> nat, k: K, probe: nat)
    requires |s| > 0 && probe <= |s| && Passed(s, Home(hash, k, |s|), k, probe)
    requires probe < |s| ==> var i := Wrap(Home(hash, k, |s|) + probe, |s|); s[i].Free? || s[i].key == k
    ensures ProbesTo(s, hash, k, if probe < |s| then Wrap(Home(hash, k, |s|) + probe, |s|) else -1)
  {
    hide Home;
  }

  lemma {:induction false} SlotInContents<K, V>(s: seq<Slot<K, V>>, i: nat)
    requires Distinct(s) && i < |s| && s[i].Used?
    ensures s[i].key in Contents(s) && Contents(s)[s[i].key] == s[i].val
  {
    var p := s[..|s| - 1];
    if i < |p| {
      assert s[|s| - 1].Used? ==> s[|s| - 1].key != s[i].key;
      SlotInContents(p, i);
    }
  }

  lemma {:induction false} SlotOf<K, V>(s: seq<Slot<K, V>>, k: K) returns (i: nat)
    requires k in Contents(s)
    ensures i < |s| && s[i] == Used(k, Contents(s)[k])
  {
    var x := s[|s| - 1];
    if x.Used? && x.key == k {
      i := |s| - 1;
    } else {
      i := SlotOf(s[..|s| - 1], k);
    }
  }

  lemma UsedCountUpdate<K, V>(s: seq<Slot<K, V>>, i: nat, x: Slot<K, V>)
    requires i < |s|
    ensures UsedCount(s[i := x]) == UsedCount(s) - (if s[i].Used? then 1 else 0) + (if x.Used? then 1 else 0)
  {
    var t := s[i := x];
    if i < |s| - 1 {
      UsedCountUpdate(s[..|s| - 1], i, x);
      assert t[..|s| - 1] == s[..|s| - 1][i := x];
    } else {
      assert t[..|s| - 1] == s[..|s| - 1];
    }
  }

  lemma {:induction false} FullIffCountIsCapacity<K, V>(s: seq<Slot<K, V>>)
    ensures UsedCount(s) == |s| <==> forall i | 0 <= i < |s| :: s[i].Used?
  {
    if s != [] {
      var p := s[..|s| - 1];
      FullIffCountIsCapacity(p);
      assert forall i | 0 <= i < |p| :: p[i] == s[i];
    }
  }

  // The length counter is the number of keys of the map.
  lemma {:induction false} CountIsSize<K, V>(s: seq<Slot<K, V>>)
    requires Distinct(s)
    ensures UsedCount(s) == |Contents(s)|
  {
    if s != [] {
      var p, x := s[..|s| - 1], s[|s| - 1];
      CountIsSize(p);
      if x.Used? && x.key in Contents(p) {
        var i := SlotOf(p, x.key);
        assert false;
      }
    }
  }

  // Lookup by probing is lookup in the map: a probe sequence that ends on a
  // free slot, or comes full circle, proves the key absent.
  lemma ProbeDecidesMembership<K, V>(s: seq<Slot<K, V>>, hash: K -> nat, k: K, r: int)
    requires WellFormed(s, hash) && ProbesTo(s, hash, k, r)
    ensures k in Contents(s) <==> r != -1 && s[r].Used?
    ensures r != -1 && s[r].Used? ==> s[r] == Used(k, Contents(s)[k])
  {
    if r != -1 && s[r].Used? {
      SlotInContents(s, r);
    } else if k in Contents(s) {
      var i := SlotOf(s, k);
      assert false;
    }
  }

  // Claiming the free slot a probe stopped at adds one binding.
  lemma InsertAtProbe<K, V>(s: seq<Slot<K, V>>, hash: K -> nat, k: K, v: V, r: nat)
    requires WellFormed(s, hash) && ProbesTo(s, hash, k, r) && s[r].Free?
    ensures WellFormed(s[r := Used(k, v)], hash)
    ensures Contents(s[r := Used(k, v)]) == Contents(s)[k := v]
  {
    ProbeDecidesMembership(s, hash, k, r);
    var t := s[r := Used(k, v)];
    forall i | 0 <= i < |s| && s[i].Used?
      ensures s[i].key != k
    {
      SlotInContents(s, i);
    }
    ContentsUpdate(s, r, k, v);
  }

  lemma ContentsUpdate<K, V>(s: seq<Slot<K, V>>, r: nat, k: K, v: V)
    requires Distinct(s) && r < |s|
    requires forall i | 0 <= i < |s| && s[i].Used? && s[i].key == k :: i == r
    requires s[r].Used? ==> s[r].key == k
    ensures Distinct(s[r := Used(k, v)])
    ensures Contents(s[r := Used(k, v)]) == Contents(s)[k := v]
  {
    var t := s[r := Used(k, v)];
    SlotInContents(t, r);
    forall x | x in Contents(s) && x != k
      ensures x in Contents(t) && Contents(t)[x] == Contents(s)[x]
    {
      var i := SlotOf(s, x);
      SlotInContents(t, i);
    }
    forall x | x in Contents(t) && x != k
      ensures x in Contents(s)
    {
      var i := SlotOf(t, x);
      SlotInContents(s, i);
    }
  }

  lemma ContentsRemove<K, V>(s: seq<Slot<K, V>>, r: nat)
    requires Distinct(s) && r < |s| && s[r].Used?
    ensures Distinct(s[r := Free])
    ensures Contents(s[r := Free]) == Contents(s) - {s[r].key}
  {
    var t := s[r := Free];
    forall x | x in Contents(s) && x != s[r].key
      ensures x in Contents(t) && Contents(t)[x] == Contents(s)[x]
    {
      var i := SlotOf(s, x);
      SlotInContents(t, i);
    }
    forall x | x in Contents(t)
      ensures x in Contents(s) && x != s[r].key
    {
      var i := SlotOf(t, x);
      SlotInContents(s, i);
    }
  }

  // Both outcomes of a probe, put in terms of the map: it comes back
  // empty-handed only when the key is absent and every slot is taken.
  lemma ProbeOnValid<K, V>(s: seq<Slot<K, V>>, hash: K -> nat, k: K, v: V, r: int)
    requires |s| > 0 && ProbesTo(s, hash, k, r)
    ensures WellFormed(s, hash) ==>
              && (k in Contents(s) <==> r != -1 && s[r].Used?)
              && (r == -1 <==> k !in Contents(s) && |Contents(s)| == |s|)
              && (r != -1 && s[r].Free? ==>
                    && WellFormed(s[r := Used(k, v)], hash)
                    && Contents(s[r := Used(k, v)]) == Contents(s)[k := v])
  {
    if WellFormed(s, hash) {
      ProbeDecidesMembership(s, hash, k, r);
      CountIsSize(s);
      FullIffCountIsCapacity(s);
      if r != -1 && s[r].Free? {
        InsertAtProbe(s, hash, k, v, r);
      }
    }
  }

  // ---- The measure of the reinsertion loop, which ends even in a full table ----

  // Total number of probes needed to reach every entry.
  ghost function Displacement<K, V>(s: seq<Slot<K, V>>, hash: K -> nat, n: nat, m: nat): nat
    requires m <= |s| == n && n > 0
  {
    if m == 0 then 0
    else Displacement(s, hash, n, m - 1) + Shift(s, hash, m - 1)
  }

  ghost function Shift<K, V>(s: seq<Slot<K, V>>, hash: K -> nat, i: nat): nat
    requires i < |s|
  {
    if s[i].Used? then Dist(Home(hash, s[i].key, |s|), i, |s|) else 0
  }

  lemma DisplacementUpdate<K, V>(s: seq<Slot<K, V>>, hash: K -> nat, m: nat, i: nat, x: Slot<K, V>)
    requires i < |s| && m <= |s|
    ensures Displacement(s[i := x], hash, |s|, m) ==
            Displacement(s, hash, |s|, m) + (if i < m then Shift(s[i := x], hash, i) - Shift(s, hash, i) else 0)
  {
    if m > 0 {
      DisplacementUpdate(s, hash, m - 1, i, x);
      assert i != m - 1 ==> Shift(s[i := x], hash, m - 1) == Shift(s, hash, m - 1);
    }
  }

  // Slots still ahead of j before the loop is back at the hole.
  ghost function Ahead(hole: nat, j: nat, n: nat): nat
    requires hole < n && j < n
  {
    if j == hole then n else Dist(j, hole, n)
  }

  // ---- Deletion: the state between two turns of the reinsertion loop ----

  // `hole` is the free slot the deletion currently owes the table, j the last
  // slot reinserted.  Paths may be broken only at the hole, and no entry in
  // the cyclic stretch (hole, j] has the hole on its path.
  ghost predicate Repairing<K, V>(s: seq<Slot<K, V>>, hash: K -> nat, hole: nat, j: nat) {
    && hole < |s| && j < |s|
    && s[hole].Free?
    && Distinct(s)
    && PathsUsedBut(s, hash, hole)
    && forall i | 0 <= i < |s| && s[i].Used? && Dist(hole, i, |s|) <= Dist(hole, j, |s|) ::
         !Before(hash, s[i].key, hole, i, |s|)
  }

  lemma ClearStartsRepair<K, V>(s: seq<Slot<K, V>>, hash: K -> nat, r: nat)
    requires WellFormed(s, hash) && r < |s| && s[r].Used?
    ensures Repairing(s[r := Free], hash, r, r)
  {
  }

  // On the way from h past the hole to i, beyond j, stands the slot after j.
  lemma OnTheWay(h: nat, hole: nat, j: nat, i: nat, n: nat)
    requires h < n && hole < n && j < n && i < n
    ensures var e := Wrap(j + 1, n);
            e != hole && Dist(h, hole, n) < Dist(h, i, n) && Dist(hole, j, n) < Dist(hole, i, n) ==>
              e == i || Dist(h, e, n) < Dist(h, i, n)
  {
  }

  // Meeting a free slot ends the cluster, and with it the repair.
  lemma RepairDone<K, V>(s: seq<Slot<K, V>>, hash: K -> nat, hole: nat, j: nat)
    requires Repairing(s, hash, hole, j)
    requires s[Wrap(j + 1, |s|)].Free?
    ensures WellFormed(s, hash)
  {
    var n, e := |s|, Wrap(j + 1, |s|);
    forall i | 0 <= i < n && s[i].Used?
      ensures !Before(hash, s[i].key, hole, i, n)
    {
      OnTheWay(Home(hash, s[i].key, n), hole, j, i, n);
    }
  }

  lemma HoleFilled<K, V>(s: seq<Slot<K, V>>, hash: K -> nat, hole: nat, e: nat)
    requires hole < |s| && e < |s| && s[hole].Free? && s[e].Used?
    requires Distinct(s) && PathsUsedBut(s, hash, hole)
    requires Before(hash, s[e].key, hole, e, |s|)
    ensures var u := s[e := Free][hole := s[e]];
            Repairing(u, hash, e, e) && Contents(u) == Contents(s)
  {
    var u := s[e := Free][hole := s[e]];
    assert forall i | 0 <= i < |s| && i != hole && i != e :: u[i] == s[i];
    assert Distinct(u);
    assert PathsUsedBut(u, hash, e) by {
      forall i, j | 0 <= i < |u| && 0 <= j < |u| && u[i].Used? && j != e && Before(hash, u[i].key, j, i, |u|)
        ensures u[j].Used?
      {
        if j != hole {
          if i == hole {
            assert Before(hash, s[e].key, j, e, |s|);
          }
          assert s[j].Used?;
        }
      }
    }
    ContentsRemove(s, e);
    ContentsUpdate(s[e := Free], hole, s[e].key, s[e].val);
    SlotInContents(s, e);
  }

  lemma StretchGrows<K, V>(s: seq<Slot<K, V>>, hash: K -> nat, hole: nat, j: nat)
    requires Repairing(s, hash, hole, j)
    requires var e := Wrap(j + 1, |s|); s[e].Used? && !Before(hash, s[e].key, hole, e, |s|)
    ensures Repairing(s, hash, hole, Wrap(j + 1, |s|))
  {
    var e := Wrap(j + 1, |s|);
    forall i | 0 <= i < |s| && s[i].Used? && Dist(hole, i, |s|) <= Dist(hole, e, |s|)
      ensures !Before(hash, s[i].key, hole, i, |s|)
    {
      assert i == e || Dist(hole, i, |s|) <= Dist(hole, j, |s|);
    }
  }

  // One turn: the entry of the next slot e is lifted out and probed back in.
  // It lands in the hole exactly when the hole is on its path, and otherwise
  // returns to its own slot; it always finds room.  Nothing is lost or
  // counted twice, and the loop's measure drops: moving the hole lowers the
  // displacement, leaving it alone leaves the table alone and brings j closer.
  lemma RepairTurn<K, V>(s: seq<Slot<K, V>>, hash: K -> nat, hole: nat, j: nat, r: int)
    requires Repairing(s, hash, hole, j)
    requires var e := Wrap(j + 1, |s|); s[e].Used? && ProbesTo(s[e := Free], hash, s[e].key, r)
    ensures var n, e := |s|, Wrap(j + 1, |s|);
            && r == (if Before(hash, s[e].key, hole, e, n) then hole else e)
            && s[e := Free][r].Free?
            && var u, hole' := s[e := Free][r := s[e]], if r == hole then e else hole;
            && Repairing(u, hash, hole', e)
            && Contents(u) == Contents(s)
            && UsedCount(u) == UsedCount(s)
            && Displacement(u, hash, n, n) <= Displacement(s, hash, n, n)
            && (Displacement(u, hash, n, n) == Displacement(s, hash, n, n) ==> Ahead(hole', e, n) < Ahead(hole, j, n))
  {
    var n, e := |s|, Wrap(j + 1, |s|);
    var k, t := s[e].key, s[e := Free];
    assert t[hole].Free? && t[e].Free?;
    if Before(hash, k, hole, e, n) {
      assert forall q | 0 <= q < n && Before(hash, k, q, hole, n) :: s[q].Used?;
      assert r == hole;
      HoleFilled(s, hash, hole, e);
      UsedCountUpdate(s, e, Free);
      UsedCountUpdate(t, hole, s[e]);
      DisplacementUpdate(s, hash, n, e, Free);
      DisplacementUpdate(t, hash, n, hole, s[e]);
    } else {
      assert forall q | 0 <= q < n && Before(hash, k, q, e, n) :: s[q].Used?;
      assert r == e;
      assert t[r := s[e]] == s;
      StretchGrows(s, hash, hole, j);
    }
  }
}
