// What the tracers' in-memory databases have in common: an entry is opened
// (or reopened) under a key and later closed, and closing a live entry prints
// a line made from it.  A run is the list of the accepted events.
module Ledger {
  datatype Event<K, V> = Open(key: K, val: V) | Close(key: K)

  // A printed line: the entry it was made from, and the positions in the run
  // of the event that opened the entry and of the event that closed it.
  datatype Closing<K, V> = Closing(key: K, val: V, openAt: nat, closeAt: nat)

  function Apply<K, V>(db: map<K, V>, e: Event<K, V>): map<K, V> {
    match e
    case Open(k, v) => db[k := v]
    case Close(k) => db - {k}
  }

  // The database after a run.
  function Replay<K, V>(run: seq<Event<K, V>>): map<K, V> {
    if run == [] then map[] else Apply(Replay(run[..|run| - 1]), run[|run| - 1])
  }

  // A run that goes on with at most one event.
  lemma ReplayMore<K, V>(run: seq<Event<K, V>>, es: seq<Event<K, V>>)
    requires |es| <= 1
    ensures Replay(run + es) == if es == [] then Replay(run) else Apply(Replay(run), es[0])
  {
    if es == [] {
      assert run + es == run;
    } else {
      assert (run + es)[..|run|] == run;
    }
  }

  // Position i is the last event about k.
  ghost predicate LastAbout<K, V>(run: seq<Event<K, V>>, k: K, i: nat) {
    && i < |run| && run[i].key == k
    && forall j | i < j < |run| :: run[j].key != k
  }

  lemma {:induction false} LastOpen<K, V>(run: seq<Event<K, V>>, k: K) returns (i: nat)
    requires k in Replay(run)
    ensures LastAbout(run, k, i) && run[i] == Open(k, Replay(run)[k])
  {
    var n := |run| - 1;
    if run[n].key == k {
      i := n;
    } else {
      i := LastOpen(run[..n], k);
      assert forall j | i < j < n :: run[j] == run[..n][j];
    }
  }

  // The database holds exactly the keys whose last event is an opening, with
  // the value of that opening.
  lemma {:induction false} HoldsLastOpened<K, V>(run: seq<Event<K, V>>, k: K)
    ensures k in Replay(run) <==> exists i: nat :: LastAbout(run, k, i) && run[i].Open?
    ensures forall i: nat | LastAbout(run, k, i) && run[i].Open? :: k in Replay(run) && Replay(run)[k] == run[i].val
  {
    if k in Replay(run) {
      var i := LastOpen(run, k);
    }
    forall i: nat | LastAbout(run, k, i) && run[i].Open?
      ensures k in Replay(run) && Replay(run)[k] == run[i].val
    {
      OpenStays(run, k, i);
    }
  }

  lemma {:induction false} OpenStays<K, V>(run: seq<Event<K, V>>, k: K, i: nat)
    requires LastAbout(run, k, i) && run[i].Open?
    ensures k in Replay(run) && Replay(run)[k] == run[i].val
  {
    var n := |run| - 1;
    if i < n {
      assert forall j | i < j < n :: run[..n][j] == run[j];
      OpenStays(run[..n], k, i);
    }
  }

  // The position of the last event about k (0 when there is none).
  function LastIndex<K(==), V>(run: seq<Event<K, V>>, k: K): nat {
    if run == [] then 0
    else if run[|run| - 1].key == k then |run| - 1
    else LastIndex(run[..|run| - 1], k)
  }

  lemma {:induction false} LastIndexIsLast<K, V>(run: seq<Event<K, V>>, k: K, i: nat)
    requires LastAbout(run, k, i)
    ensures LastIndex(run, k) == i
  {
    var n := |run| - 1;
    if i < n {
      assert forall j | i < j < n :: run[..n][j] == run[j];
      LastIndexIsLast(run[..n], k, i);
    }
  }

  // The lines a run prints, in order: one for each close of a live entry.
  function Closings<K(==), V>(run: seq<Event<K, V>>): seq<Closing<K, V>> {
    if run == [] then []
    else
      var n := |run| - 1;
      var before, e := run[..n], run[n];
      Closings(before) +
      if e.Close? && e.key in Replay(before)
      then [Closing(e.key, Replay(before)[e.key], LastIndex(before, e.key), n)]
      else []
  }

  // The interval of one entry's life: opened, not touched in between, closed.
  ghost predicate Life<K, V>(run: seq<Event<K, V>>, c: Closing<K, V>) {
    && c.openAt < c.closeAt < |run|
    && run[c.openAt] == Open(c.key, c.val)
    && run[c.closeAt] == Close(c.key)
    && forall j | c.openAt < j < c.closeAt :: run[j].key != c.key
  }

  lemma OneOpeningOneLine<K, V>(run: seq<Event<K, V>>, a: Closing<K, V>, b: Closing<K, V>)
    requires Life(run, a) && Life(run, b) && a.closeAt < b.closeAt
    ensures a.openAt != b.openAt
  {
    assert a.key == b.key ==> a.closeAt <= b.openAt;
  }

  // Every line reports one life, carrying the value of its latest opening;
  // every life is reported; lines come in the order of the closings, and no
  // opening is reported twice.
  lemma {:induction false} ClosingsAreLives<K(!new), V(!new)>(run: seq<Event<K, V>>)
    ensures forall c: Closing<K, V> :: c in Closings(run) <==> Life(run, c)
    ensures forall a, b | 0 <= a < b < |Closings(run)| ::
              && Closings(run)[a].closeAt < Closings(run)[b].closeAt
              && Closings(run)[a].openAt != Closings(run)[b].openAt
  {
    if run != [] {
      var n := |run| - 1;
      var before := run[..n];
      ClosingsAreLives(before);
      assert forall j | 0 <= j < n :: before[j] == run[j];
      assert forall c: Closing<K, V> | c.closeAt < n :: Life(run, c) <==> Life(before, c);
      forall c: Closing<K, V> | c in Closings(run)
        ensures Life(run, c)
      {
        if c !in Closings(before) {
          var i := LastOpen(before, c.key);
          LastIndexIsLast(before, c.key, i);
        }
      }
      forall c: Closing<K, V> | Life(run, c)
        ensures c in Closings(run)
      {
        if c.closeAt == n {
          assert LastAbout(before, c.key, c.openAt);
          HoldsLastOpened(before, c.key);
          LastIndexIsLast(before, c.key, c.openAt);
        }
      }
      var p, q := Closings(run), Closings(before);
      forall a, b | 0 <= a < b < |p|
        ensures p[a].closeAt < p[b].closeAt && p[a].openAt != p[b].openAt
      {
        assert p[a] == q[a] && q[a] in q;
        if b < |q| {
          assert p[b] == q[b];
        } else {
          OneOpeningOneLine(run, p[a], p[b]);
        }
      }
    }
  }
}
