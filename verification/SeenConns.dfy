// The macOS connection tracer prints each connection once: a set in Go, a
// fixed probing table in C.
module SeenConns {
  import opened Collections
  import opened ProbeSpec
  import ProbeTable

  datatype ConnKey = ConnKey(pid: int, proto: string, src: string, sport: int, dst: string, dport: int)

  // A connection as listed, with what is printed beside it.
  datatype Row = Row(key: ConnKey, comm: string, uid: nat)

  // Go's set grows; a table of n slots takes every further key for seen.
  datatype Capacity = Unlimited | Slots(n: nat)

  predicate Full(cap: Capacity, seen: set<ConnKey>) {
    cap.Slots? && |seen| >= cap.n
  }

  predicate IsNew(cap: Capacity, seen: set<ConnKey>, k: ConnKey) {
    k !in seen && !Full(cap, seen)
  }

  datatype Result = Result(seen: set<ConnKey>, printed: seq<Row>)

  // Going through rows, from a set already seen.
  function Pass(cap: Capacity, seen: set<ConnKey>, rows: seq<Row>): Result {
    if rows == [] then Result(seen, [])
    else
      var r, x := Pass(cap, seen, rows[..|rows| - 1]), rows[|rows| - 1];
      if IsNew(cap, r.seen, x.key) then Result(r.seen + {x.key}, r.printed + [x]) else r
  }

  // Scan after scan.
  function Scans(cap: Capacity, seen: set<ConnKey>, scans: seq<seq<Row>>): Result {
    if scans == [] then Result(seen, [])
    else
      var before := Scans(cap, seen, scans[..|scans| - 1]);
      var r := Pass(cap, before.seen, scans[|scans| - 1]);
      Result(r.seen, before.printed + r.printed)
  }

  // The seeding scan only marks; every later scan prints.
  function Run(cap: Capacity, seed: seq<Row>, scans: seq<seq<Row>>): Result {
    Scans(cap, Pass(cap, {}, seed).seen, scans)
  }

  function AllRows(scans: seq<seq<Row>>): seq<Row> {
    if scans == [] then [] else AllRows(scans[..|scans| - 1]) + scans[|scans| - 1]
  }

  lemma {:induction false} PassAppend(cap: Capacity, seen: set<ConnKey>, a: seq<Row>, b: seq<Row>)
    ensures var p, q := Pass(cap, seen, a), Pass(cap, Pass(cap, seen, a).seen, b);
            Pass(cap, seen, a + b) == Result(q.seen, p.printed + q.printed)
  {
    if b == [] {
      NothingBefore(a);
      NothingBefore(Pass(cap, seen, a).printed);
    } else {
      assert (a + b)[..|a + b| - 1] == a + b[..|b| - 1];
      PassAppend(cap, seen, a, b[..|b| - 1]);
    }
  }

  // Where one scan ends and the next begins makes no difference.
  lemma {:induction false} ScansAreOnePass(cap: Capacity, seen: set<ConnKey>, scans: seq<seq<Row>>)
    ensures Scans(cap, seen, scans) == Pass(cap, seen, AllRows(scans))
  {
    if scans != [] {
      var n := |scans| - 1;
      ScansAreOnePass(cap, seen, scans[..n]);
      PassAppend(cap, seen, AllRows(scans[..n]), scans[n]);
    }
  }

  ghost predicate Listed(rows: seq<Row>, k: ConnKey) {
    exists i :: 0 <= i < |rows| && rows[i].key == k
  }

  lemma ListedMore(rows: seq<Row>, k: ConnKey)
    requires rows != []
    ensures Listed(rows, k) <==> Listed(rows[..|rows| - 1], k) || rows[|rows| - 1].key == k
  {
    var n := |rows| - 1;
    if Listed(rows, k) && rows[n].key != k {
      var i :| 0 <= i < |rows| && rows[i].key == k;
      assert rows[..n][i].key == k;
    }
    if Listed(rows[..n], k) {
      var i :| 0 <= i < n && rows[..n][i].key == k;
      assert rows[i].key == k;
    }
  }

  // What is printed was listed and new; the set grows by the printed keys.
  lemma {:induction false} PassPrintsNew(cap: Capacity, seen: set<ConnKey>, rows: seq<Row>)
    ensures var r := Pass(cap, seen, rows);
            && seen <= r.seen
            && (forall k :: k in r.seen <==> k in seen || Listed(r.printed, k))
            && (forall i | 0 <= i < |r.printed| :: r.printed[i].key !in seen && r.printed[i] in rows)
            && (forall i, j | 0 <= i < j < |r.printed| :: r.printed[i].key != r.printed[j].key)
  {
    if rows != [] {
      var before, x := rows[..|rows| - 1], rows[|rows| - 1];
      PassPrintsNew(cap, seen, before);
      var q, r := Pass(cap, seen, before), Pass(cap, seen, rows);
      assert forall y | y in before :: y in rows;
      if IsNew(cap, q.seen, x.key) {
        assert r.printed[..|r.printed| - 1] == q.printed;
        forall k
          ensures k in r.seen <==> k in seen || Listed(r.printed, k)
        {
          ListedMore(r.printed, k);
        }
        forall i | 0 <= i < |q.printed|
          ensures q.printed[i].key != x.key
        {
          assert Listed(q.printed, q.printed[i].key);
        }
      }
    }
  }

  // A full table stays full and prints nothing.
  lemma {:induction false} FullPrintsNothing(cap: Capacity, seen: set<ConnKey>, rows: seq<Row>)
    requires Full(cap, seen)
    ensures Pass(cap, seen, rows) == Result(seen, [])
  {
    if rows != [] {
      FullPrintsNothing(cap, seen, rows[..|rows| - 1]);
    }
  }

  // A listed key is in the set afterwards, unless the table ran full.
  lemma {:induction false} ListedIsSeen(cap: Capacity, seen: set<ConnKey>, rows: seq<Row>, k: ConnKey)
    requires Listed(rows, k)
    ensures var r := Pass(cap, seen, rows); k in r.seen || Full(cap, r.seen)
  {
    var before := rows[..|rows| - 1];
    ListedMore(rows, k);
    if rows[|rows| - 1].key != k {
      ListedIsSeen(cap, seen, before, k);
      if Full(cap, Pass(cap, seen, before).seen) {
      } else {
        assert k in Pass(cap, seen, before).seen;
      }
    }
  }

  // Over every run, with either capacity, no connection is printed twice and
  // none that was there at the start is printed, even once the table is full.
  lemma PrintedAtMostOnce(cap: Capacity, seed: seq<Row>, scans: seq<seq<Row>>)
    ensures var p := Run(cap, seed, scans).printed;
            && (forall i, j | 0 <= i < j < |p| :: p[i].key != p[j].key)
            && (forall i | 0 <= i < |p| :: p[i] in AllRows(scans) && !Listed(seed, p[i].key))
  {
    var s, rows := Pass(cap, {}, seed).seen, AllRows(scans);
    ScansAreOnePass(cap, s, scans);
    PassPrintsNew(cap, s, rows);
    if Full(cap, s) {
      FullPrintsNothing(cap, s, rows);
    } else {
      var p := Run(cap, seed, scans).printed;
      forall i | 0 <= i < |p|
        ensures !Listed(seed, p[i].key)
      {
        if Listed(seed, p[i].key) {
          ListedIsSeen(cap, {}, seed, p[i].key);
          assert false;
        }
      }
    }
  }

  lemma {:induction false} SetTakesAll(seen: set<ConnKey>, rows: seq<Row>, k: ConnKey)
    ensures k in Pass(Unlimited, seen, rows).seen <==> k in seen || Listed(rows, k)
  {
    if rows != [] {
      ListedMore(rows, k);
      SetTakesAll(seen, rows[..|rows| - 1], k);
    }
  }

  // With Go's set, exactly the connections not there at the start.
  lemma GoPrintsAllNew(seed: seq<Row>, scans: seq<seq<Row>>, k: ConnKey)
    ensures Listed(Run(Unlimited, seed, scans).printed, k) <==> Listed(AllRows(scans), k) && !Listed(seed, k)
  {
    var s, rows := Pass(Unlimited, {}, seed).seen, AllRows(scans);
    ScansAreOnePass(Unlimited, s, scans);
    SetTakesAll({}, seed, k);
    SetTakesAll(s, rows, k);
    PassPrintsNew(Unlimited, s, rows);
    hide Pass;
    var p := Run(Unlimited, seed, scans).printed;
    assert Listed(p, k) ==> k !in s by { NotSeenIfPrinted(s, p, k); }
  }

  lemma NotSeenIfPrinted(s: set<ConnKey>, p: seq<Row>, k: ConnKey)
    requires forall i | 0 <= i < |p| :: p[i].key !in s
    ensures Listed(p, k) ==> k !in s
  {
  }

  // The table agrees with the set as long as the set would fit it.
  lemma {:induction false} TableAgreesWhileItFits(n: nat, seen: set<ConnKey>, rows: seq<Row>)
    requires |Pass(Unlimited, seen, rows).seen| <= n
    ensures Pass(Slots(n), seen, rows) == Pass(Unlimited, seen, rows)
  {
    if rows != [] {
      var before := rows[..|rows| - 1];
      PassPrintsNew(Unlimited, seen, before);
      TableAgreesWhileItFits(n, seen, before);
    }
  }

  lemma RunsAgreeWhileTableFits(n: nat, seed: seq<Row>, scans: seq<seq<Row>>)
    requires |Run(Unlimited, seed, scans).seen| <= n
    ensures Run(Slots(n), seed, scans) == Run(Unlimited, seed, scans)
  {
    var s, rows := Pass(Unlimited, {}, seed).seen, AllRows(scans);
    ScansAreOnePass(Unlimited, s, scans);
    ScansAreOnePass(Slots(n), s, scans);
    PassPrintsNew(Unlimited, s, rows);
    Smaller(s, Run(Unlimited, seed, scans).seen);
    TableAgreesWhileItFits(n, {}, seed);
    TableAgreesWhileItFits(n, s, rows);
  }

  lemma Smaller<T>(a: set<T>, b: set<T>)
    requires a <= b
    ensures |a| <= |b|
  {
    assert b == a + (b - a);
  }

  // ---- The two scanners ----

  class GoScanner {
    var seen: set<ConnKey>
    var printed: seq<Row>

    constructor (seed: seq<Row>)
      ensures seen == Pass(Unlimited, {}, seed).seen && printed == []
    {
      seen, printed := {}, [];
      new;
      for i := 0 to |seed|
        invariant seen == Pass(Unlimited, {}, seed[..i]).seen && printed == []
      {
        assert seed[..i + 1][..i] == seed[..i];
        seen := seen + {seed[i].key};
      }
      assert seed[..|seed|] == seed;
    }

    // New connections are collected during the scan and printed at its end.
    method ScanConns(rows: seq<Row>)
      modifies this
      ensures Result(seen, printed) == Pass(Unlimited, old(seen), rows).(printed := old(printed) + Pass(Unlimited, old(seen), rows).printed)
    {
      var newKeys: seq<Row> := [];
      for i := 0 to |rows|
        invariant Result(seen, newKeys) == Pass(Unlimited, old(seen), rows[..i]) && printed == old(printed)
      {
        assert rows[..i + 1][..i] == rows[..i];
        var already := rows[i].key in seen;
        if !already {
          seen := seen + {rows[i].key};
          newKeys := newKeys + [rows[i]];
        }
      }
      assert rows[..|rows|] == rows;
      for i := 0 to |newKeys|
        invariant printed == old(printed) + newKeys[..i]
        invariant Result(seen, newKeys) == Pass(Unlimited, old(seen), rows)
      {
        printed := printed + [newKeys[i]];
      }
    }
  }

  datatype Unit = Unit

  type Entry = Slot<ConnKey, Unit>

  ghost function KeysOf(s: seq<Entry>): set<ConnKey> {
    Contents(s).Keys
  }

  class CScanner {
    const hash: ConnKey -> nat
    const netSeen: array<Entry>
    var printed: seq<Row>

    ghost predicate Valid()
      reads netSeen
    {
      WellFormed(netSeen[..], hash)
    }

    ghost function Seen(): set<ConnKey>
      reads netSeen
    {
      KeysOf(netSeen[..])
    }

    constructor (capacity: nat, hash: ConnKey -> nat)
      requires capacity > 0
      ensures Valid() && fresh(netSeen) && netSeen.Length == capacity && Seen() == {} && printed == []
    {
      this.hash, printed := hash, [];
      netSeen := new Entry[capacity](_ => Free);
      new;
      ProbeTable.AllFree(netSeen[..]);
      KeyCount<ConnKey, Unit>(map[]);
    }

    // net_seen_check_insert: false when the key is new and now in the table.
    method CheckInsert(k: ConnKey) returns (already: bool)
      requires Valid()
      modifies netSeen
      ensures Valid() && already == !IsNew(Slots(netSeen.Length), old(Seen()), k)
      ensures Seen() == if already then old(Seen()) else old(Seen()) + {k}
    {
      var n := netSeen.Length;
      assert n > 0;
      hide Contents, WellFormed, IsNew, KeysOf, Home, Passed, ProbesTo;
      ghost var s := netSeen[..];
      var h := Home(hash, k, n);
      var probe := 0;
      assert Passed(s, h, k, 0) by { NonePassed(s, h, k); }
      while probe < n
        invariant probe <= n && netSeen[..] == s && Passed(s, h, k, probe)
      {
        var i := Wrap(h + probe, n);
        assert netSeen[i] == s[i];
        if netSeen[i].Free? {
          ProbeStops(s, hash, k, probe);
          Verdict(s, hash, k, i);
          netSeen[i] := Used(k, Unit);
          assert netSeen[..] == s[i := Used(k, Unit)];
          return false;
        }
        if netSeen[i].key == k {
          ProbeStops(s, hash, k, probe);
          Verdict(s, hash, k, i);
          return true;
        }
        PassOne(s, h, k, probe);
        probe := probe + 1;
      }
      ProbeStops(s, hash, k, n);
      Verdict(s, hash, k, -1);
      return true;
    }

    method Scan(rows: seq<Row>, seedOnly: bool)
      requires Valid()
      modifies this`printed, netSeen
      ensures Valid()
      ensures var r := Pass(Slots(netSeen.Length), old(Seen()), rows);
              Seen() == r.seen && printed == old(printed) + if seedOnly then [] else r.printed
    {
      ghost var cap, s0 := Slots(netSeen.Length), Seen();
      for i := 0 to |rows|
        invariant Valid()
        invariant var r := Pass(cap, s0, rows[..i]);
                  Seen() == r.seen && printed == old(printed) + if seedOnly then [] else r.printed
      {
        hide Contents, WellFormed;
        assert rows[..i + 1][..i] == rows[..i];
        var already := CheckInsert(rows[i].key);
        if !already && !seedOnly {
          printed := printed + [rows[i]];
        }
      }
      assert rows[..|rows|] == rows;
    }
  }

  lemma NonePassed(s: seq<Entry>, h: nat, k: ConnKey)
    requires h < |s|
    ensures Passed(s, h, k, 0)
  {
  }

  // What a finished probe says about the set of keys.
  lemma Verdict(s: seq<Entry>, hash: ConnKey -> nat, k: ConnKey, r: int)
    requires WellFormed(s, hash) && ProbesTo(s, hash, k, r)
    ensures IsNew(Slots(|s|), KeysOf(s), k) <==> r != -1 && s[r].Free?
    ensures r != -1 && s[r].Free? ==>
              WellFormed(s[r := Used(k, Unit)], hash) && KeysOf(s[r := Used(k, Unit)]) == KeysOf(s) + {k}
  {
    ProbeOnValid(s, hash, k, Unit, r);
    CountIsSize(s);
    KeyCount(Contents(s));
  }

  lemma KeyCount<K, V>(m: map<K, V>)
    ensures |m.Keys| == |m|
  {
  }
}
