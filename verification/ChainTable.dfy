// The C connection database: an array of buckets, each the head of a singly
// linked list that is spliced through pointers.
module ChainTable {

  class Node<K, V> {
    const key: K
    var val: V
    var next: Node?<K, V>

    constructor (key: K, val: V, next: Node?<K, V>)
      ensures this.key == key && this.val == val && this.next == next
    {
      this.key, this.val, this.next := key, val, next;
    }
  }

  ghost predicate DistinctKeys<K, V>(c: seq<Node<K, V>>) {
    forall i, j | 0 <= i < j < |c| :: c[i].key != c[j].key
  }

  ghost predicate InChain<K, V>(k: K, c: seq<Node<K, V>>) {
    exists i :: 0 <= i < |c| && c[i].key == k
  }

  // What the link at position i of a chain must be.
  ghost function LinkAt<K, V>(c: seq<Node<K, V>>, i: nat): Node?<K, V> {
    if i < |c| then c[i] else null
  }

  ghost predicate Linked<K, V>(c: seq<Node<K, V>>)
    reads c
  {
    forall i {:trigger c[i].next} | 0 <= i < |c| :: c[i].next == LinkAt(c, i + 1)
  }

  // m is what the nodes of c store.
  ghost predicate Stores<K, V>(c: seq<Node<K, V>>, m: map<K, V>)
    reads c
  {
    && (forall i | 0 <= i < |c| :: c[i].key in m && m[c[i].key] == c[i].val)
    && (forall k | k in m :: InChain(k, c))
  }

  ghost function Without<T>(c: seq<T>, i: nat): (d: seq<T>)
    requires i < |c|
    ensures |d| == |c| - 1 && forall j | 0 <= j < |d| :: d[j] == c[if j < i then j else j + 1]
  {
    c[..i] + c[i + 1..]
  }

  lemma StoresMore<K, V>(c: seq<Node<K, V>>, m: map<K, V>, e: Node<K, V>)
    requires Stores(c, m) && e.key !in m && DistinctKeys(c)
    ensures Stores([e] + c, m[e.key := e.val]) && DistinctKeys([e] + c)
  {
    var d := [e] + c;
    assert forall i | 0 < i < |d| :: d[i] == c[i - 1];
    forall k | k in m[e.key := e.val]
      ensures InChain(k, d)
    {
      if k == e.key {
        assert d[0].key == k;
      } else {
        var i :| 0 <= i < |c| && c[i].key == k;
        assert d[i + 1].key == k;
      }
    }
  }

  lemma StoresLess<K, V>(c: seq<Node<K, V>>, m: map<K, V>, i: nat)
    requires Stores(c, m) && i < |c| && DistinctKeys(c)
    ensures Stores(Without(c, i), m - {c[i].key}) && DistinctKeys(Without(c, i))
  {
    var d := Without(c, i);
    forall k | k in m && k != c[i].key
      ensures InChain(k, d)
    {
      var j :| 0 <= j < |c| && c[j].key == k;
      assert d[if j < i then j else j - 1].key == k;
    }
  }

  // One bucket: bucket number `place` of its table.
  class Chain<K(==), V> {
    ghost const place: nat
    var head: Node?<K, V>
    ghost var nodes: seq<Node<K, V>>
    ghost var entries: map<K, V>

    ghost predicate Valid()
      reads this, nodes
    {
      head == LinkAt(nodes, 0) && Linked(nodes) && DistinctKeys(nodes) && Stores(nodes, entries)
    }

    constructor (ghost place: nat)
      ensures head == null && nodes == [] && entries == map[] && this.place == place
    {
      this.place, head, nodes, entries := place, null, [], map[];
    }

    method Find(k: K) returns (e: Node?<K, V>)
      requires Valid()
      ensures e == null <==> k !in entries
      ensures e != null ==> e in nodes && e.key == k && e.val == entries[k]
    {
      e := head;
      ghost var i := 0;
      while e != null
        invariant 0 <= i <= |nodes| && e == LinkAt(nodes, i)
        invariant forall j | 0 <= j < i :: nodes[j].key != k
        decreases |nodes| - i
      {
        assert e == nodes[i] && nodes[i].next == LinkAt(nodes, i + 1);
        if e.key == k {
          return;
        }
        e := e.next;
        i := i + 1;
      }
      assert !InChain(k, nodes);
    }

    method Prepend(k: K, v: V) returns (e: Node<K, V>)
      requires Valid() && k !in entries
      modifies this
      ensures Valid() && entries == old(entries)[k := v]
      ensures fresh(e) && nodes == [e] + old(nodes) && e.key == k
    {
      e := new Node(k, v, head);
      StoresMore(nodes, entries, e);
      ghost var c := nodes;
      head := e;
      nodes := [e] + c;
      entries := entries[k := v];
      assert forall i | 0 < i < |nodes| :: nodes[i] == c[i - 1];
    }

    method Assign(e: Node<K, V>, v: V)
      requires Valid() && e in nodes
      modifies this`entries, e`val
      ensures Valid() && entries == old(entries)[e.key := v]
    {
      e.val := v;
      entries := entries[e.key := v];
    }

    // The entry under k, made if need be, takes the value v.
    method Put(k: K, pristine: V, v: V)
      requires Valid()
      modifies this, nodes
      ensures Valid() && entries == old(entries)[k := v]
      ensures forall n | n in nodes :: n in old(nodes) || fresh(n)
    {
      ghost var m := entries;
      var e := Find(k);
      if e == null {
        e := Prepend(k, pristine);
        assert m[k := pristine][k := v] == m[k := v];
      }
      hide Valid;
      Assign(e, v);
    }

    // Walks with the pointer that leads to the current node.
    method Remove(k: K)
      requires Valid()
      modifies this, nodes
      ensures Valid() && entries == old(entries) - {k}
      ensures forall n | n in nodes :: n in old(nodes)
    {
      var prev: Node?<K, V> := null;
      var cur := head;
      ghost var i := 0;
      while cur != null
        invariant 0 <= i <= |nodes| && cur == LinkAt(nodes, i)
        invariant prev == if i > 0 then nodes[i - 1] else null
        invariant forall j | 0 <= j < i :: nodes[j].key != k
        decreases |nodes| - i
      {
        assert cur == nodes[i] && nodes[i].next == LinkAt(nodes, i + 1);
        if cur.key == k {
          Splice(prev, cur, i);
          assert Stores(nodes, entries);
          Forget(i);
          return;
        }
        prev := cur;
        cur := cur.next;
        i := i + 1;
      }
      assert !InChain(k, nodes);
    }

    // *pp = dead->next: the chain now skips position i.
    method Splice(prev: Node?<K, V>, dead: Node<K, V>, ghost i: nat)
      requires head == LinkAt(nodes, 0) && Linked(nodes) && DistinctKeys(nodes)
      requires i < |nodes| && dead == nodes[i] && prev == if i > 0 then nodes[i - 1] else null
      modifies this`head, nodes
      ensures head == LinkAt(Without(nodes, i), 0) && Linked(Without(nodes, i))
      ensures forall n | n in nodes :: n.val == old(n.val)
    {
      ghost var c, d := nodes, Without(nodes, i);
      assert dead.next == LinkAt(c, i + 1);
      assert forall j | 0 <= j < |c| && j != i - 1 :: prev == null || c[j] != prev;
      hide DistinctKeys;
      if prev == null {
        head := dead.next;
      } else {
        prev.next := dead.next;
      }
      forall j | 0 <= j < |d|
        ensures d[j].next == LinkAt(d, j + 1)
      {
        var was := if j < i then j else j + 1;
        assert d[j] == c[was] && old(c[was].next) == LinkAt(c, was + 1);
      }
    }

    // The node leaves the abstract state.
    ghost method Forget(i: nat)
      requires i < |nodes| && DistinctKeys(nodes) && Stores(nodes, entries)
      requires head == LinkAt(Without(nodes, i), 0) && Linked(Without(nodes, i))
      modifies this`nodes, this`entries
      ensures Valid() && nodes == old(Without(nodes, i)) && entries == old(entries - {nodes[i].key})
    {
      StoresLess(nodes, entries, i);
      hide Linked, Stores, DistinctKeys;
      entries := entries - {nodes[i].key};
      nodes := Without(nodes, i);
    }
  }

  // The whole table, which stands for the map `entries`; parts[b] is what
  // bucket b contributes.
  class Table<K(==), V> {
    const hash: K -> nat
    const pristine: V
    const buckets: array<Chain<K, V>>
    ghost var parts: seq<map<K, V>>
    ghost var entries: map<K, V>
    ghost var Repr: set<object>

    function Bucket(k: K): (b: nat)
      requires buckets.Length > 0
      ensures b < buckets.Length
    {
      hash(k) % buckets.Length
    }

    ghost predicate Holds(b: nat, part: map<K, V>)
      requires b < buckets.Length
      reads buckets, buckets[b], buckets[b].nodes
    {
      buckets[b].Valid() && buckets[b].entries == part
    }

    ghost predicate Owned()
      reads this, Repr
    {
      && this in Repr && buckets in Repr
      && (forall b | 0 <= b < buckets.Length :: buckets[b] in Repr && buckets[b].place == b && Inside(buckets[b].nodes, Repr))
    }

    ghost predicate Inside(c: seq<Node<K, V>>, R: set<object>) {
      forall n | n in c :: n in R
    }

    // The parts make up m, each entry in the bucket its key hashes to.
    ghost predicate Spread(parts: seq<map<K, V>>, m: map<K, V>)
      requires 0 < buckets.Length == |parts|
    {
      && (forall k | k in m :: k in parts[Bucket(k)] && parts[Bucket(k)][k] == m[k])
      && (forall b, k | 0 <= b < |parts| && k in parts[b] :: Bucket(k) == b && k in m)
    }

    ghost predicate Valid()
      reads this, Repr
      ensures Valid() ==> this in Repr
    {
      && Owned() && 0 < buckets.Length == |parts|
      && (forall b | 0 <= b < buckets.Length :: Holds(b, parts[b]))
      && Spread(parts, entries)
    }

    lemma NodesInside(c: seq<Node<K, V>>, R: set<object>)
      requires Inside(c, R)
      ensures forall n | n in c :: n in R
    {
    }

    lemma InsideGrows(R: set<object>, S: set<object>)
      requires R <= S
      ensures forall c {:trigger Inside(c, S)} | Inside(c, R) :: Inside(c, S)
    {
    }

    lemma StillInside(c: seq<Node<K, V>>, d: seq<Node<K, V>>, R: set<object>)
      requires Inside(c, R) && forall n | n in d :: n in c || n in R
      ensures Inside(d, R)
    {
    }

    lemma SpreadPut(parts: seq<map<K, V>>, m: map<K, V>, k: K, v: V)
      requires 0 < buckets.Length == |parts| && Spread(parts, m)
      ensures Spread(parts[Bucket(k) := parts[Bucket(k)][k := v]], m[k := v])
    {
      hide Bucket;
    }

    lemma SpreadDelete(parts: seq<map<K, V>>, m: map<K, V>, k: K)
      requires 0 < buckets.Length == |parts| && Spread(parts, m)
      ensures Spread(parts[Bucket(k) := parts[Bucket(k)] - {k}], m - {k})
    {
      hide Bucket;
    }

    constructor (n: nat, hash: K -> nat, pristine: V)
      requires n > 0
      ensures Valid() && fresh(Repr) && entries == map[]
      ensures buckets.Length == n && this.hash == hash && this.pristine == pristine
    {
      var first := new Chain<K, V>(0);
      this.hash, this.pristine := hash, pristine;
      buckets := new Chain<K, V>[n](_ => first);
      new;
      Repr := {this, buckets, first};
      hide Bucket, Chain.Valid;
      for i := 1 to n
        invariant fresh(Repr) && this in Repr && buckets in Repr
        invariant forall b | i <= b < n :: buckets[b] == first
        invariant forall b | 0 <= b < i :: buckets[b] in Repr && Blank(buckets[b], b)
      {
        var chain := new Chain<K, V>(i);
        buckets[i] := chain;
        Repr := Repr + {chain};
      }
      parts, entries := seq(n, _ => map[]), map[];
      forall b | 0 <= b < n
        ensures Holds(b, parts[b])
      {
        BlankIsValid(b);
      }
    }

    ghost predicate Blank(chain: Chain<K, V>, b: nat)
      reads chain
    {
      chain.place == b && chain.head == null && chain.nodes == [] && chain.entries == map[]
    }

    lemma BlankIsValid(b: nat)
      requires b < buckets.Length && Blank(buckets[b], b)
      ensures Holds(b, map[])
    {
    }

    // After bucket b has changed, so does the abstract state.
    ghost method Settle(b: nat, part: map<K, V>, m: map<K, V>, S: set<object>)
      requires this in S && buckets in S && b < buckets.Length == |parts|
      requires forall x | 0 <= x < buckets.Length :: buckets[x] in S && buckets[x].place == x && Inside(buckets[x].nodes, S)
      requires Holds(b, part) && forall x | 0 <= x < buckets.Length && x != b :: Holds(x, parts[x])
      requires Spread(parts[b := part], m)
      modifies this`parts, this`entries, this`Repr
      ensures Valid() && entries == m && Repr == S
    {
      hide Bucket, Spread, Inside, Holds;
      parts, entries, Repr := parts[b := part], m, S;
    }

    // db_get
    method Get(k: K) returns (e: Node?<K, V>)
      requires Valid()
      ensures e == null <==> k !in entries
      ensures e != null ==> e.key == k && e.val == entries[k] && e in buckets[Bucket(k)].nodes
    {
      hide Bucket;
      assert Holds(Bucket(k), parts[Bucket(k)]);
      e := buckets[Bucket(k)].Find(k);
    }

    // db_put and the assignments through the entry it returns.
    method Put(k: K, v: V)
      requires Valid()
      modifies Repr
      ensures Valid() && fresh(Repr - old(Repr)) && entries == old(entries)[k := v]
    {
      hide Bucket, Spread, Inside;
      var b := Bucket(k);
      assert Holds(b, parts[b]);
      OthersApart(b);
      SpreadPut(parts, entries, k, v);
      hide Chain.Valid;
      NodesInside(buckets[b].nodes, Repr);
      ghost var c, R := buckets[b].nodes, Repr;
      buckets[b].Put(k, pristine, v);
      ghost var S := R + set n | n in buckets[b].nodes :: n;
      InsideGrows(R, S);
      StillInside(c, buckets[b].nodes, S);
      forall x | 0 <= x < buckets.Length && x != b
        ensures Holds(x, parts[x])
      {
        hide Holds;
        assert old(Holds(x, parts[x])) && buckets[x].place == x && buckets[b].place == b;
        assert buckets[x] != buckets[b];
      }
      Settle(b, parts[b][k := v], entries[k := v], S);
    }

    // No other bucket shares the nodes of b.
    lemma OthersApart(b: nat)
      requires Valid() && b < buckets.Length
      ensures forall x, i, j | 0 <= x < buckets.Length && x != b && 0 <= i < |buckets[x].nodes| && 0 <= j < |buckets[b].nodes| :: buckets[x].nodes[i] != buckets[b].nodes[j]
    {
      hide Bucket;
      assert Holds(b, parts[b]);
      forall x, i, j | 0 <= x < buckets.Length && x != b && 0 <= i < |buckets[x].nodes| && 0 <= j < |buckets[b].nodes|
        ensures buckets[x].nodes[i] != buckets[b].nodes[j]
      {
        assert Holds(x, parts[x]);
      }
    }

    // Assigning through the entry that Get returned.
    method Set(e: Node<K, V>, v: V)
      requires Valid() && e in buckets[Bucket(e.key)].nodes
      modifies Repr
      ensures Valid() && Repr == old(Repr) && entries == old(entries)[e.key := v]
    {
      hide Bucket, Spread, Inside;
      var b := Bucket(e.key);
      assert Holds(b, parts[b]);
      OthersApart(b);
      SpreadPut(parts, entries, e.key, v);
      hide Chain.Valid;
      NodesInside(buckets[b].nodes, Repr);
      ghost var c, R := buckets[b].nodes, Repr;
      buckets[b].Assign(e, v);
      forall x | 0 <= x < buckets.Length && x != b
        ensures Holds(x, parts[x])
      {
        hide Holds;
        assert old(Holds(x, parts[x])) && buckets[x].place == x && buckets[b].place == b;
        assert buckets[x] != buckets[b];
      }
      Settle(b, parts[b][e.key := v], entries[e.key := v], Repr);
    }

    // db_delete
    method Delete(k: K)
      requires Valid()
      modifies Repr
      ensures Valid() && Repr == old(Repr) && entries == old(entries) - {k}
    {
      hide Bucket, Spread, Inside;
      var b := Bucket(k);
      assert Holds(b, parts[b]);
      OthersApart(b);
      SpreadDelete(parts, entries, k);
      hide Chain.Valid;
      NodesInside(buckets[b].nodes, Repr);
      ghost var c, R := buckets[b].nodes, Repr;
      buckets[b].Remove(k);
      StillInside(c, buckets[b].nodes, Repr);
      forall x | 0 <= x < buckets.Length && x != b
        ensures Holds(x, parts[x])
      {
        hide Holds;
        assert old(Holds(x, parts[x])) && buckets[x].place == x && buckets[b].place == b;
        assert buckets[x] != buckets[b];
      }
      Settle(b, parts[b] - {k}, entries - {k}, Repr);
    }
  }
}
