// Netlink messages in a receive buffer, as the C tracers walk them.
module NlFraming {
  import opened Bytes
  import opened Collections
  import opened Framing

  const NLMSG_HDR_SIZE := 16

  datatype Frame = Frame(kind: nat, flags: nat, data: Data)

  function CutNl(d: Data): (c: Cut<Frame>)
    ensures c.Take? ==> c.next > 0
  {
    if |d| < NLMSG_HDR_SIZE then Stop
    else
      var len := Le32(d, 0);
      if len < NLMSG_HDR_SIZE || len > |d| then Stop
      else Take(Frame(Le16(d, 4), Le16(d, 6), d[NLMSG_HDR_SIZE..len]), Align(len))
  }

  function Frames(d: Data): seq<Frame> {
    Split(CutNl, d)
  }

  // ---- Encoding ----

  // A message as sent: sequence number and port id are eight more bytes.
  datatype Sent = Sent(frame: Frame, trailer: Data)

  predicate ValidSent(m: Sent) {
    && m.frame.kind < 0x10000 && m.frame.flags < 0x10000 && |m.trailer| == 8
    && NLMSG_HDR_SIZE + |m.frame.data| < 0x1_0000_0000
  }

  function Unpadded(m: Sent): (d: Data)
    requires ValidSent(m)
    ensures |d| == NLMSG_HDR_SIZE + |m.frame.data|
  {
    PutLe32(NLMSG_HDR_SIZE + |m.frame.data|) + (PutLe16(m.frame.kind) + (PutLe16(m.frame.flags) + (m.trailer + m.frame.data)))
  }

  function Padding(len: nat): (z: Data)
    ensures |z| == Align(len) - len
  {
    seq(Align(len) - len, _ => 0)
  }

  function Padded(m: Sent): (d: Data)
    requires ValidSent(m)
    ensures |d| == Align(NLMSG_HDR_SIZE + |m.frame.data|)
  {
    Unpadded(m) + Padding(NLMSG_HDR_SIZE + |m.frame.data|)
  }

  // Whatever follows, the front of the buffer reads as m.
  lemma UnpaddedReads(m: Sent, rest: Data)
    requires ValidSent(m)
    ensures CutNl(Unpadded(m) + rest) == Take(m.frame, Align(NLMSG_HDR_SIZE + |m.frame.data|))
  {
    var d, len := Unpadded(m) + rest, NLMSG_HDR_SIZE + |m.frame.data|;
    StandsInFront(Unpadded(m), rest);
    StandsAppend(d, 0, PutLe32(len), PutLe16(m.frame.kind) + (PutLe16(m.frame.flags) + (m.trailer + m.frame.data)));
    StandsAppend(d, 4, PutLe16(m.frame.kind), PutLe16(m.frame.flags) + (m.trailer + m.frame.data));
    StandsAppend(d, 6, PutLe16(m.frame.flags), m.trailer + m.frame.data);
    StandsAppend(d, 8, m.trailer, m.frame.data);
    StandsLe32(d, 0, len);
    StandsLe16(d, 4, m.frame.kind);
    StandsLe16(d, 6, m.frame.flags);
  }

  predicate AllValid(ms: seq<Sent>) {
    forall m | m in ms :: ValidSent(m)
  }

  function Batch(ms: seq<Sent>): Data
    requires AllValid(ms)
  {
    if ms == [] then [] else Padded(ms[0]) + Batch(ms[1..])
  }

  function FramesOf(ms: seq<Sent>): seq<Frame> {
    if ms == [] then [] else [ms[0].frame] + FramesOf(ms[1..])
  }

  // A batch of messages is read back in full, and whatever follows it
  // (a malformed message, say) takes nothing away.
  lemma {:induction false} BatchReadsBack(ms: seq<Sent>, tail: Data)
    requires AllValid(ms)
    ensures Frames(Batch(ms) + tail) == FramesOf(ms) + Frames(tail)
  {
    hide ValidSent, Unpadded, Padding, CutNl;
    if ms == [] {
      NothingBefore(tail);
      NothingBefore(Frames(tail));
    } else {
      var m, len := ms[0], NLMSG_HDR_SIZE + |ms[0].frame.data|;
      var rest := Batch(ms[1..]) + tail;
      BatchReadsBack(ms[1..], tail);
      Assoc(Padded(m), Batch(ms[1..]), tail);
      Assoc(Unpadded(m), Padding(len), rest);
      UnpaddedReads(m, Padding(len) + rest);
      assert CutNl([]) == Stop by { NothingToCut(); }
      SplitFront(CutNl, Padded(m), rest, m.frame);
      Assoc([m.frame], FramesOf(ms[1..]), Frames(tail));
    }
  }

  lemma NothingToCut()
    ensures CutNl([]) == Stop && Frames([]) == []
  {
  }

  // The last message need not be padded.
  lemma LastMayBeUnpadded(ms: seq<Sent>, last: Sent)
    requires AllValid(ms) && ValidSent(last)
    ensures Frames(Batch(ms) + Unpadded(last)) == FramesOf(ms) + [last.frame]
  {
    BatchReadsBack(ms, Unpadded(last));
    UnpaddedReads(last, []);
    NothingBefore(Unpadded(last));
  }

  // One turn of the walk over a buffer.
  lemma FramesStep(d: Data)
    ensures CutNl(d).Stop? ==> Frames(d) == []
    ensures CutNl(d).Take? ==> Frames(d) == [CutNl(d).item] + Frames(From(d, CutNl(d).next))
  {
    SplitStep(CutNl, d);
  }
}
