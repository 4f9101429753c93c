// The pid databases of the exec tracer (pidDB on Linux, macDB on macOS): one
// open-addressing table changed in place, generic in the entry it stores.
// `pristine` is the value a freshly created entry starts with.
module ProbeTable {
  import opened ProbeSpec

  class Table<K(==), V> {
    const hash: K -> nat
    const pristine: V
    const slots: array<Slot<K, V>>
    var len: int

    ghost predicate Valid()
      reads this, slots
    {
      WellFormed(slots[..], hash) && len == UsedCount(slots[..])
    }

    ghost function Map(): map<K, V>
      reads this, slots
    {
      Contents(slots[..])
    }

    constructor (capacity: nat, hash: K -> nat, pristine: V)
      requires capacity > 0
      ensures Valid() && fresh(slots) && Map() == map[]
      ensures slots.Length == capacity && this.hash == hash && this.pristine == pristine
    {
      this.hash, this.pristine, len := hash, pristine, 0;
      slots := new Slot<K, V>[capacity](_ => Free);
      new;
      AllFree(slots[..]);
    }

    // The slot holding k, or -1.
    method Find(k: K) returns (r: int)
      requires Valid()
      ensures r == -1 <==> k !in Map()
      ensures r != -1 ==> 0 <= r < slots.Length && slots[r] == Used(k, Map()[k])
    {
      var n := slots.Length;
      var h := Home(hash, k, n);
      var probe := 0;
      while probe < n
        invariant probe <= n
        invariant forall j | 0 <= j < n && Dist(h, j, n) < probe :: slots[j].Used? && slots[j].key != k
      {
        var i := Wrap(h + probe, n);
        if slots[i].Free? || slots[i].key == k {
          ProbeDecidesMembership(slots[..], hash, k, i);
          return if slots[i].Free? then -1 else i;
        }
        probe := probe + 1;
      }
      ProbeDecidesMembership(slots[..], hash, k, -1);
      return -1;
    }

    // The slot for k, claiming the first free one on its probe path when k is
    // absent; -1 when there is none.  The first group of clauses is what the
    // deletion loop relies on while the table is under repair.
    method Get(k: K) returns (r: int, created: bool)
      requires slots.Length > 0
      modifies this`len, slots
      ensures ProbesTo(old(slots[..]), hash, k, r)
      ensures created <==> r != -1 && old(slots[..])[r].Free?
      ensures created ==> slots[..] == old(slots[..])[r := Used(k, pristine)]
      ensures !created ==> slots[..] == old(slots[..])
      ensures len == old(len) + if created then 1 else 0
      ensures old(Valid()) ==> Valid()
      ensures old(Valid()) ==> (r == -1 <==> old(k !in Map() && |Map()| == slots.Length))
      ensures old(Valid()) && r != -1 ==> slots[r].Used? && slots[r].key == k && (created <==> k !in old(Map()))
      ensures old(Valid()) && r != -1 ==>
                Map() == if k in old(Map()) then old(Map()) else old(Map())[k := pristine]
    {
      hide Home, Contents, WellFormed;
      var n := slots.Length;
      ghost var s := slots[..];
      var h := Home(hash, k, n);
      var probe := 0;
      while probe < n
        invariant probe <= n
        invariant forall j | 0 <= j < n && Dist(h, j, n) < probe :: s[j].Used? && s[j].key != k
      {
        var i := Wrap(h + probe, n);
        assert slots[i] == s[i];
        if slots[i].Used? && slots[i].key == k {
          r, created := i, false;
          ProbeOnValid(s, hash, k, pristine, r);
          return;
        }
        if slots[i].Free? {
          slots[i] := Used(k, pristine);
          len := len + 1;
          r, created := i, true;
          assert slots[..] == s[i := Used(k, pristine)];
          ProbeOnValid(s, hash, k, pristine, r);
          UsedCountUpdate(s, r, Used(k, pristine));
          return;
        }
        probe := probe + 1;
      }
      r, created := -1, false;
      ProbeOnValid(s, hash, k, pristine, r);
    }

    // Assigning through the pointer that Find or Get returned.
    method Store(r: nat, v: V)
      requires Valid() && r < slots.Length && slots[r].Used?
      modifies slots
      ensures Valid() && Map() == old(Map())[old(slots[r].key) := v]
      ensures slots[..] == old(slots[..])[r := Used(old(slots[r].key), v)]
    {
      ghost var s := slots[..];
      slots[r] := Used(slots[r].key, v);
      assert slots[..] == s[r := Used(s[r].key, v)];
      ContentsUpdate(s, r, s[r].key, v);
      UsedCountUpdate(s, r, slots[r]);
    }

    // Removal without tombstones: clear the slot, then lift out and reinsert
    // the entries of the cluster behind it.
    method Delete(k: K)
      requires Valid()
      modifies this`len, slots
      ensures Valid() && Map() == old(Map()) - {k}
    {
      hide Home, Contents, PathsUsedBut, Displacement, Distinct;
      var slot := Find(k);
      if slot == -1 {
        return;
      }
      var n := slots.Length;
      ghost var s := slots[..];
      slots[slot] := Free;
      len := len - 1;
      assert slots[..] == s[slot := Free];
      UsedCountUpdate(s, slot, Free);
      ContentsRemove(s, slot);
      ClearStartsRepair(s, hash, slot);
      var j := slot;
      ghost var hole := slot;
      ghost var rest := Contents(s) - {k};
      while true
        invariant 0 <= j < n && 0 <= hole < n
        invariant Repairing(slots[..], hash, hole, j)
        invariant len == UsedCount(slots[..])
        invariant Contents(slots[..]) == rest
        decreases Displacement(slots[..], hash, n, n), Ahead(hole, j, n)
      {
        ghost var before, last := slots[..], j;
        j := Wrap(j + 1, n);
        if slots[j].Free? {
          RepairDone(before, hash, hole, last);
          break;
        }
        var tmp := slots[j];
        slots[j] := Free;
        len := len - 1;
        assert slots[..] == before[j := Free];
        var ne, created := Get(tmp.key);
        RepairTurn(before, hash, hole, last, ne);
        slots[ne] := Used(slots[ne].key, tmp.val);
        assert slots[..] == before[j := Free][ne := tmp];
        hole := if ne == hole then j else hole;
      }
    }

    // Any sequence of calls answers as a plain map would; `Put` is a Get
    // followed by an assignment through the returned pointer.
    method Replay(ops: seq<Op<K, V>>) returns (outs: seq<Answer<V>>)
      requires Valid()
      modifies this`len, slots
      ensures Valid()
      ensures (Map(), outs) == MapReplay(old(Map()), ops, slots.Length, pristine)
    {
      outs := [];
      ghost var start, cap := Map(), slots.Length;
      for i := 0 to |ops|
        invariant Valid()
        invariant (Map(), outs) == MapReplay(start, ops[..i], cap, pristine)
      {
        hide Home, Contents, WellFormed;
        assert ops[..i + 1][..i] == ops[..i] && ops[..i + 1][i] == ops[i];
        ghost var m := Map();
        var out := Answer.Null;
        match ops[i] {
          case Find(k) =>
            var r := Find(k);
            if r != -1 {
              out := Entry(slots[r].val);
            }
          case Get(k) =>
            var r, created := Get(k);
            if r != -1 {
              out := Entry(slots[r].val);
              SlotInContents(slots[..], r);
            }
          case Put(k, v) =>
            var r, created := Get(k);
            if r != -1 {
              Store(r, v);
              out := Entry(v);
              assert m[k := pristine][k := v] == m[k := v];
            }
          case Delete(k) =>
            Delete(k);
        }
        assert (Map(), out) == MapAnswer(m, ops[i], cap, pristine);
        outs := outs + [out];
      }
      assert ops[..|ops|] == ops;
    }
  }

  datatype Op<K, V> = Find(k: K) | Get(k: K) | Put(k: K, v: V) | Delete(k: K)

  // A returned pointer, by what it points to.
  datatype Answer<V> = Null | Entry(v: V)

  function MapAnswer<K, V>(m: map<K, V>, op: Op<K, V>, capacity: nat, pristine: V): (map<K, V>, Answer<V>) {
    match op
    case Find(k) => (m, if k in m then Entry(m[k]) else Null)
    case Get(k) =>
      if k in m then (m, Entry(m[k]))
      else if |m| == capacity then (m, Null)
      else (m[k := pristine], Entry(pristine))
    case Put(k, v) =>
      if k !in m && |m| == capacity then (m, Null) else (m[k := v], Entry(v))
    case Delete(k) => (m - {k}, Null)
  }

  function MapReplay<K, V>(m: map<K, V>, ops: seq<Op<K, V>>, capacity: nat, pristine: V): (map<K, V>, seq<Answer<V>>) {
    if ops == [] then (m, [])
    else
      var (before, outs) := MapReplay(m, ops[..|ops| - 1], capacity, pristine);
      var (after, out) := MapAnswer(before, ops[|ops| - 1], capacity, pristine);
      (after, outs + [out])
  }

  lemma {:induction false} AllFree<K, V>(s: seq<Slot<K, V>>)
    requires |s| > 0 && forall i | 0 <= i < |s| :: s[i].Free?
    ensures UsedCount(s) == 0 && Contents(s) == map[]
  {
    if |s| > 1 {
      AllFree(s[..|s| - 1]);
    }
  }
}
