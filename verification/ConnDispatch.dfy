// From a receive buffer of conntrack messages to the connection handlers.
module ConnDispatch {
  import opened Bytes
  import opened Collections
  import opened Framing
  import opened NlFraming
  import opened Conntrack
  import opened ConnEvents
  import opened ConnTracker

  // The create flag is bit 0x400.
  function MsgOf(f: Frame): NlMsg {
    NlMsg(f.kind, f.flags / 0x400 % 2 == 1, f.data)
  }

  // One handler call for each message, the i-th with what env(i) reads.
  function Deliver(key: Tuple -> Key, cfg: Config, env: nat -> Env, i: nat, s: Outcome, frames: seq<Frame>): Outcome
    decreases |frames|
  {
    if frames == [] then s
    else Deliver(key, cfg, env, i + 1, After(key, cfg, env(i), s, frames[0]), frames[1..])
  }

  function After(key: Tuple -> Key, cfg: Config, env: Env, s: Outcome, f: Frame): Outcome {
    var (db, more) := Step(key, cfg, env, s.db, Decide(CPort(key), cfg, MsgOf(f)));
    Outcome(db, s.lines + more)
  }

  // The handler calls that a buffer stands for.
  function Calls(key: Tuple -> Key, cfg: Config, env: nat -> Env, i: nat, frames: seq<Frame>): seq<Call>
    decreases |frames|
  {
    if frames == [] then []
    else [Call(env(i), Decide(CPort(key), cfg, MsgOf(frames[0])))] + Calls(key, cfg, env, i + 1, frames[1..])
  }

  // Delivering a buffer continues a run, so everything proved of runs holds
  // of what arrives buffer by buffer.
  lemma {:induction false} DeliveryContinuesRun(key: Tuple -> Key, cfg: Config, env: nat -> Env, i: nat, past: seq<Call>, frames: seq<Frame>)
    ensures Deliver(key, cfg, env, i, History(key, cfg, past), frames) == History(key, cfg, past + Calls(key, cfg, env, i, frames))
    decreases |frames|
  {
    hide Decide, Step;
    if frames == [] {
      NothingBefore(past);
    } else {
      var c := Call(env(i), Decide(CPort(key), cfg, MsgOf(frames[0])));
      assert (past + [c])[..|past|] == past;
      DeliveryContinuesRun(key, cfg, env, i + 1, past + [c], frames[1..]);
      Assoc(past, [c], Calls(key, cfg, env, i + 1, frames[1..]));
    }
  }

  // ---- Headers that the cast to int makes negative ----

  const INT_MAX: int := 0x7fff_ffff

  // A header that declares a length beyond the int range stands in d, or is
  // met on the way.
  predicate Strays(d: Data)
    decreases |d|
  {
    |d| >= NLMSG_HDR_SIZE &&
    (Le32(d, 0) > INT_MAX || (CutNl(d).Take? && CutNl(d).next < |d| && Strays(d[CutNl(d).next..])))
  }

  // How a walk over a buffer ends: at its end or a malformed header, or by
  // stepping so many bytes on from a header it took for whole.
  datatype WalkEnd = Finished | Strayed(step: nat)

  // NLMSG_ALIGN on 32 bits.
  function Align32(len: nat): nat {
    Align(len) % 0x1_0000_0000
  }

  // Such a header passes the length check, since its length as an int is
  // negative; its message is passed over; and the step from it is nowhere
  // inside a buffer: no step at all, or beyond the end.
  lemma StrayHeader(len: nat, left: nat)
    requires INT_MAX < len < 0x1_0000_0000 && NLMSG_HDR_SIZE <= left <= INT_MAX
    ensures !(len < NLMSG_HDR_SIZE || Int32(len) > left)
    ensures Int32(len) - NLMSG_HDR_SIZE < NFGEN_MSG_SIZE
    ensures !(Int32(Align32(len)) >= left)
    ensures Align32(len) == 0 || Align32(len) > left
  {
    var a := Align(len);
    if a < 0x1_0000_0000 {
      assert a % 0x1_0000_0000 == a;
    } else {
      assert a == 0x1_0000_0000;
    }
  }

  // A lone header of that kind.
  lemma StrayExists()
    ensures Strays([0, 0, 0, 0x80, 0, 1, 0, 0, 0, 0, 0, 0, 0, 0, 0, 0])
  {
  }

  // The kernel's batches have none.
  lemma {:induction false} BatchesDoNotStray(ms: seq<Sent>)
    requires AllValid(ms) && |Batch(ms)| <= INT_MAX
    ensures !Strays(Batch(ms))
  {
    if ms != [] {
      var m, rest := ms[0], Batch(ms[1..]);
      var len := NLMSG_HDR_SIZE + |m.frame.data|;
      BatchesDoNotStray(ms[1..]);
      Assoc(Unpadded(m), Padding(len), rest);
      UnpaddedReads(m, Padding(len) + rest);
      LengthReads(m, Padding(len) + rest);
      assert Batch(ms)[Align(len)..] == rest;
    }
  }

  lemma LengthReads(m: Sent, rest: Data)
    requires ValidSent(m)
    ensures |Unpadded(m) + rest| >= 4 && Le32(Unpadded(m) + rest, 0) == NLMSG_HDR_SIZE + |m.frame.data|
  {
    var len := NLMSG_HDR_SIZE + |m.frame.data|;
    StandsInFront(Unpadded(m), rest);
    StandsAppend(Unpadded(m) + rest, 0, PutLe32(len),
                 PutLe16(m.frame.kind) + (PutLe16(m.frame.flags) + (m.trailer + m.frame.data)));
    StandsLe32(Unpadded(m) + rest, 0, len);
  }

  // ---- The loop ----

  lemma Turn(key: Tuple -> Key, cfg: Config, env: nat -> Env, i: nat, s: Outcome, d: Data, f: Frame, next: nat)
    requires CutNl(d) == Take(f, next)
    ensures Deliver(key, cfg, env, i, s, Frames(d)) ==
            Deliver(key, cfg, env, i + 1, After(key, cfg, env(i), s, f), Frames(From(d, next)))
  {
    FramesStep(d);
    hide CutNl, Frames, From, After;
    assert ([f] + Frames(From(d, next)))[1..] == Frames(From(d, next));
  }

  lemma Done(key: Tuple -> Key, cfg: Config, env: nat -> Env, i: nat, s: Outcome, d: Data)
    requires CutNl(d) == Stop
    ensures Deliver(key, cfg, env, i, s, Frames(d)) == s
  {
    FramesStep(d);
  }

  // Every message in front of a header that strays is handled, in order; the
  // walk finishes if and only if there is no such header.
  method ProcessNlMsgs(t: CTracker, env: nat -> Env, data: Data) returns (end: WalkEnd)
    requires t.Valid() && |data| <= INT_MAX
    modifies t, t.conndb.Repr
    ensures t.Valid() && fresh(t.conndb.Repr - old(t.conndb.Repr))
    ensures Outcome(t.conndb.entries, t.lines) ==
            Deliver(t.key, t.cfg, env, 0, old(Outcome(t.conndb.entries, t.lines)), Frames(data))
    ensures end.Finished? <==> !Strays(data)
    ensures end.Strayed? ==> end.step == 0 || end.step > |data|
  {
    hide Decide, Step, Deliver, Frames, ChainTable.Table.Valid, Align;
    ghost var goal := Deliver(t.key, t.cfg, env, 0, Outcome(t.conndb.entries, t.lines), Frames(data));
    var off: nat, i: nat := 0, 0;
    assert data[0..] == data;
    while |data| - off >= NLMSG_HDR_SIZE
      invariant off <= |data| && t.Valid() && fresh(t.conndb.Repr - old(t.conndb.Repr))
      invariant Deliver(t.key, t.cfg, env, i, Outcome(t.conndb.entries, t.lines), Frames(data[off..])) == goal
      invariant Strays(data[off..]) <==> Strays(data)
      decreases |data| - off
    {
      var d := data[off..];
      var len := Le32(d, 0);
      if len < NLMSG_HDR_SIZE || Int32(len) > |d| {
        Done(t.key, t.cfg, env, i, Outcome(t.conndb.entries, t.lines), d);
        return Finished;
      }
      if Int32(len) - NLMSG_HDR_SIZE < 0 {
        StrayHeader(len, |data|);
        Done(t.key, t.cfg, env, i, Outcome(t.conndb.entries, t.lines), d);
        return Strayed(Align32(len));
      }
      var f := Frame(Le16(d, 4), Le16(d, 6), d[NLMSG_HDR_SIZE..len]);
      var adv := Align(len);
      Turn(t.key, t.cfg, env, i, Outcome(t.conndb.entries, t.lines), d, f, adv);
      t.ProcessMsg(env(i), MsgOf(f));
      i := i + 1;
      if adv >= |d| {
        Done(t.key, t.cfg, env, i, Outcome(t.conndb.entries, t.lines), []);
        return Finished;
      }
      assert From(d, adv) == data[off + adv..] == d[adv..];
      off := off + adv;
    }
    Done(t.key, t.cfg, env, i, Outcome(t.conndb.entries, t.lines), data[off..]);
    return Finished;
  }
}
