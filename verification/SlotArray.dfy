// Maps from small numbers kept as arrays with one slot for each number.
module SlotArray {
  import opened Collections

  datatype Slot<T> = Empty | Set(e: T)

  // The map that an array of slots holds.
  function Held<T>(slots: seq<Slot<T>>): map<nat, T> {
    map p: nat | p < |slots| && slots[p].Set? :: slots[p].e
  }

  lemma HeldSet<T>(slots: seq<Slot<T>>, p: nat, e: T)
    requires p < |slots|
    ensures Held(slots[p := Set(e)]) == Held(slots)[p := e]
  {
    SameMap(Held(slots[p := Set(e)]), Held(slots)[p := e]);
  }

  lemma HeldClear<T>(slots: seq<Slot<T>>, p: nat)
    requires p < |slots|
    ensures Held(slots[p := Empty]) == Held(slots) - {p}
  {
    SameMap(Held(slots[p := Empty]), Held(slots) - {p});
  }

  lemma NothingHeld<T>(slots: seq<Slot<T>>)
    requires forall i | 0 <= i < |slots| :: slots[i].Empty?
    ensures Held(slots) == map[]
  {
    SameMap(Held(slots), map[]);
  }
}
