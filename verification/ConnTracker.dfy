// The two connection tracers: Go keeps the connections in a map, C in hashed
// chains.  Both compute the same steps.
module ConnTracker {
  import opened Bytes
  import opened Netlink
  import opened Conntrack
  import opened ConnEvents
  import ChainTable

  class GoTracker {
    const cfg: Config
    const key: Tuple -> Key
    var connDB: ConnDB
    var lines: seq<Line>

    constructor (cfg: Config, key: Tuple -> Key)
      ensures this.cfg == cfg && this.key == key && connDB == map[] && lines == []
    {
      this.cfg, this.key, connDB, lines := cfg, key, map[], [];
    }

    method ProcessMsg(env: Env, msg: NlMsg)
      modifies this
      ensures var (db, more) := Step(key, cfg, env, old(connDB), Decide(GoPort(key), cfg, msg));
              connDB == db && lines == old(lines) + more
    {
      hide GoAttrs, ParseTuple, ParseTcpState, Step;
      StepIgnores(key, cfg, env, connDB);
      if (msg.kind != MSG_CT_NEW && msg.kind != MSG_CT_DELETE) || |msg.data| < NFGEN_MSG_SIZE {
        return;
      }
      var payload := msg.data[NFGEN_MSG_SIZE..];
      var parsed := GoParseTuple(payload, CTA_TUPLE_ORIG);
      if parsed.NoTuple? {
        return;
      }
      var orig := parsed.t;
      var is4 := GoIs4(orig.src);
      if (cfg.ipv4Only && !is4) || (cfg.ipv6Only && is4) || (orig.proto != TCP && orig.proto != UDP) {
        return;
      }
      var isNew := msg.kind == MSG_CT_NEW;
      if isNew && msg.create {
        HandleNew(env, orig, payload);
      } else if isNew && !msg.create && cfg.showUpdate {
        HandleUpdate(env, orig, payload);
      } else if !isNew && cfg.showClose {
        HandleDestroy(env, orig);
      } else if !isNew {
        Discard(env, orig);
      }
    }

    method HandleNew(env: Env, orig: Tuple, payload: Data)
      modifies this
      ensures var s := if orig.proto == TCP then ParseTcpState(GoAttrs, payload) else 0;
              var (db, more) := Step(key, cfg, env, old(connDB), New(orig, s));
              connDB == db && lines == old(lines) + more
    {
      hide GoAttrs, ParseTcpState;
      var owner := env.owner(orig);
      if cfg.watching && !env.watched(owner.pid) {
        return;
      }
      if cfg.outboundOnly && owner.dir == Inbound {
        return;
      }
      var tcpState := 0;
      if orig.proto == TCP {
        tcpState := GoParseTcpState(payload);
      }
      connDB := connDB[key(orig) := ConnEntry(Opened(orig, owner, env.now), tcpState)];
      lines := lines + [NewLine(orig, owner)];
    }

    method HandleUpdate(env: Env, orig: Tuple, payload: Data)
      modifies this
      ensures var s := if orig.proto == TCP then ParseTcpState(GoAttrs, payload) else 0;
              var (db, more) := Step(key, cfg, env, old(connDB), Update(orig, s));
              connDB == db && lines == old(lines) + more
    {
      hide GoAttrs, ParseTcpState;
      var k := key(orig);
      var owner := NOBODY;
      if k in connDB {
        owner := connDB[k].origin.owner;
      }
      if cfg.watching && !env.watched(owner.pid) {
        return;
      }
      if cfg.outboundOnly && owner.dir == Inbound {
        return;
      }
      var state := 0;
      if orig.proto == TCP {
        state := GoParseTcpState(payload);
        if k in connDB {
          connDB := connDB[k := connDB[k].(tcpState := state)];
        }
      }
      lines := lines + [UpdateLine(orig, owner, state)];
    }

    method HandleDestroy(env: Env, orig: Tuple)
      modifies this
      ensures var (db, more) := Step(key, cfg, env, old(connDB), Destroy(orig));
              connDB == db && lines == old(lines) + more
    {
      var k := key(orig);
      if k !in connDB {
        return;
      }
      var ent := connDB[k].origin;
      connDB := connDB - {k};
      if cfg.watching && !env.watched(ent.owner.pid) {
        return;
      }
      lines := lines + [ClosedLine(orig, ent.owner, env.now - ent.startAt)];
    }

    // A DESTROY that is not displayed still cleans up.
    method Discard(env: Env, orig: Tuple)
      modifies this
      ensures var (db, more) := Step(key, cfg, env, old(connDB), Drop(orig));
              connDB == db && lines == old(lines) + more
    {
      connDB := connDB - {key(orig)};
    }
  }

  lemma StepIgnores(key: Tuple -> Key, cfg: Config, env: Env, db: ConnDB)
    ensures Step(key, cfg, env, db, Ignore) == (db, [])
  {
  }

  const NEW_CONN := ConnEntry(Opened(Tuple([], [], 0, 0, 0), NOBODY, 0), 0)

  class CTracker {
    const cfg: Config
    const key: Tuple -> Key
    const conndb: ChainTable.Table<Key, ConnEntry>
    var lines: seq<Line>

    ghost predicate Valid()
      reads this, conndb, conndb.Repr
    {
      conndb.Valid() && this !in conndb.Repr
    }

    constructor (cfg: Config, key: Tuple -> Key, buckets: nat, hash: Key -> nat)
      requires buckets > 0
      ensures Valid() && fresh(conndb) && fresh(conndb.Repr)
      ensures this.cfg == cfg && this.key == key && conndb.entries == map[] && lines == []
    {
      this.cfg, this.key, lines := cfg, key, [];
      conndb := new ChainTable.Table(buckets, hash, NEW_CONN);
    }

    method ProcessMsg(env: Env, msg: NlMsg)
      requires Valid()
      modifies this, conndb.Repr
      ensures Valid() && fresh(conndb.Repr - old(conndb.Repr))
      ensures var (db, more) := Step(key, cfg, env, old(conndb.entries), Decide(CPort(key), cfg, msg));
              conndb.entries == db && lines == old(lines) + more
    {
      hide CAttrs, ParseTuple, ParseTcpState, Step, ChainTable.Table.Valid;
      StepIgnores(key, cfg, env, conndb.entries);
      if (msg.kind != MSG_CT_NEW && msg.kind != MSG_CT_DELETE) || |msg.data| < NFGEN_MSG_SIZE {
        return;
      }
      var payload := msg.data[NFGEN_MSG_SIZE..];
      var parsed := CParseTuple(payload, CTA_TUPLE_ORIG);
      if parsed.NoTuple? {
        return;
      }
      var orig := parsed.t;
      var is4 := |orig.src| == 4;
      if (cfg.ipv4Only && !is4) || (cfg.ipv6Only && is4) || (orig.proto != TCP && orig.proto != UDP) {
        return;
      }
      var isNew := msg.kind == MSG_CT_NEW;
      if isNew && msg.create {
        HandleNew(env, orig, payload);
      } else if isNew && !msg.create && cfg.showUpdate {
        HandleUpdate(env, orig, payload);
      } else if !isNew && cfg.showClose {
        HandleDestroy(env, orig);
      } else if !isNew {
        Discard(env, orig);
      }
    }

    method HandleNew(env: Env, orig: Tuple, payload: Data)
      requires Valid()
      modifies this, conndb.Repr
      ensures Valid() && fresh(conndb.Repr - old(conndb.Repr))
      ensures var s := if orig.proto == TCP then ParseTcpState(CAttrs, payload) else 0;
              var (db, more) := Step(key, cfg, env, old(conndb.entries), New(orig, s));
              conndb.entries == db && lines == old(lines) + more
    {
      hide CAttrs, ParseTcpState, ChainTable.Table.Valid;
      var owner := env.owner(orig);
      if cfg.watching && !env.watched(owner.pid) {
        return;
      }
      if cfg.outboundOnly && owner.dir == Inbound {
        return;
      }
      var tcpState := 0;
      if orig.proto == TCP {
        tcpState := CParseTcpState(payload);
      }
      conndb.Put(key(orig), ConnEntry(Opened(orig, owner, env.now), tcpState));
      lines := lines + [NewLine(orig, owner)];
    }

    method HandleUpdate(env: Env, orig: Tuple, payload: Data)
      requires Valid()
      modifies this, conndb.Repr
      ensures Valid() && fresh(conndb.Repr - old(conndb.Repr))
      ensures var s := if orig.proto == TCP then ParseTcpState(CAttrs, payload) else 0;
              var (db, more) := Step(key, cfg, env, old(conndb.entries), Update(orig, s));
              conndb.entries == db && lines == old(lines) + more
    {
      hide CAttrs, ParseTcpState, ChainTable.Table.Valid;
      var ent := conndb.Get(key(orig));
      var owner := NOBODY;
      if ent != null {
        owner := ent.val.origin.owner;
      }
      if cfg.watching && !env.watched(owner.pid) {
        return;
      }
      if cfg.outboundOnly && owner.dir == Inbound {
        return;
      }
      var state := 0;
      if orig.proto == TCP {
        state := CParseTcpState(payload);
        var again := conndb.Get(key(orig));
        if again != null {
          conndb.Set(again, again.val.(tcpState := state));
        }
      }
      lines := lines + [UpdateLine(orig, owner, state)];
    }

    method HandleDestroy(env: Env, orig: Tuple)
      requires Valid()
      modifies this, conndb.Repr
      ensures Valid() && fresh(conndb.Repr - old(conndb.Repr))
      ensures var (db, more) := Step(key, cfg, env, old(conndb.entries), Destroy(orig));
              conndb.entries == db && lines == old(lines) + more
    {
      hide ChainTable.Table.Valid;
      var ent := conndb.Get(key(orig));
      var had := ent != null;
      var was := if ent != null then ent.val.origin else NEW_CONN.origin;
      conndb.Delete(key(orig));
      if !had || (cfg.watching && !env.watched(was.owner.pid)) {
        return;
      }
      lines := lines + [ClosedLine(orig, was.owner, env.now - was.startAt)];
    }

    method Discard(env: Env, orig: Tuple)
      requires Valid()
      modifies this, conndb.Repr
      ensures Valid() && fresh(conndb.Repr - old(conndb.Repr))
      ensures var (db, more) := Step(key, cfg, env, old(conndb.entries), Drop(orig));
              conndb.entries == db && lines == old(lines) + more
    {
      conndb.Delete(key(orig));
    }
  }
}
