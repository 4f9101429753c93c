// Captured frames on macOS: records in a buffer, and buffer after buffer.
module BpfFraming {
  import opened Bytes
  import opened Collections
  import opened Framing

  const NOMINAL_HDR := 18

  // bpfNextRecord: the first record and where the next one starts.
  function CutBpf(d: Data): (c: Cut<Data>)
    ensures c.Take? ==> c.next > 0
  {
    if |d| < NOMINAL_HDR then Stop
    else
      var caplen, hdrlen := Le32(d, 8), Le16(d, 16);
      if hdrlen < NOMINAL_HDR || hdrlen + caplen > |d| then Stop
      else Take(d[hdrlen..hdrlen + caplen], Align(hdrlen + caplen))
  }

  function FramesIn(d: Data): seq<Data> {
    Split(CutBpf, d)
  }

  datatype Next = NoRecord | Record(frame: Data, rest: Data)

  // As the code has it: the rest is empty once it runs off the end.
  function NextRecord(rec: Data): (r: Next)
    ensures r.Record? ==> |r.rest| < |rec| && FramesIn(rec) == [r.frame] + FramesIn(r.rest)
    ensures r.NoRecord? <==> FramesIn(rec) == []
  {
    StepOf(rec);
    if |rec| < NOMINAL_HDR then NoRecord
    else
      var caplen, hdrlen := Le32(rec, 8), Le16(rec, 16);
      if hdrlen < NOMINAL_HDR || hdrlen + caplen > |rec| then NoRecord
      else
        var advance := Align(hdrlen + caplen);
        Record(rec[hdrlen..hdrlen + caplen], if advance >= |rec| then [] else rec[advance..])
  }

  lemma StepOf(d: Data)
    ensures CutBpf(d).Stop? ==> FramesIn(d) == []
    ensures CutBpf(d).Take? ==> FramesIn(d) == [CutBpf(d).item] + FramesIn(From(d, CutBpf(d).next))
  {
    SplitStep(CutBpf, d);
  }

  // ---- What the kernel lays out ----

  // A record: time stamp, original length, the header's own length (which may
  // leave a gap before the frame), the frame, and whatever pads it.
  datatype Sent = Sent(stamp: Data, datalen: Data, gap: Data, frame: Data, pad: Data)

  predicate ValidSent(r: Sent) {
    && |r.stamp| == 8 && |r.datalen| == 4 && NOMINAL_HDR + |r.gap| < 0x10000 && |r.frame| < 0x1_0000_0000
    && NOMINAL_HDR + |r.gap| + |r.frame| + |r.pad| == Align(NOMINAL_HDR + |r.gap| + |r.frame|)
  }

  function Unpadded(r: Sent): (d: Data)
    requires ValidSent(r)
    ensures |d| == NOMINAL_HDR + |r.gap| + |r.frame|
  {
    r.stamp + (PutLe32(|r.frame|) + (r.datalen + (PutLe16(NOMINAL_HDR + |r.gap|) + (r.gap + r.frame))))
  }

  lemma UnpaddedReads(r: Sent, rest: Data)
    requires ValidSent(r)
    ensures CutBpf(Unpadded(r) + rest) == Take(r.frame, |Unpadded(r)| + |r.pad|)
  {
    var d, hdrlen := Unpadded(r) + rest, NOMINAL_HDR + |r.gap|;
    var t5 := r.gap + r.frame;
    var t4 := PutLe16(hdrlen) + t5;
    var t3 := r.datalen + t4;
    var t2 := PutLe32(|r.frame|) + t3;
    StandsInFront(Unpadded(r), rest);
    hide PutLe32, PutLe16, Unpadded;
    assert Stands(d, 0, r.stamp + t2);
    StandsAppend(d, 0, r.stamp, t2);
    StandsAppend(d, 8, PutLe32(|r.frame|), t3);
    StandsAppend(d, 12, r.datalen, t4);
    StandsAppend(d, 16, PutLe16(hdrlen), t5);
    StandsAppend(d, 18, r.gap, r.frame);
    StandsLe32(d, 8, |r.frame|);
    StandsLe16(d, 16, hdrlen);
  }

  predicate AllValid(rs: seq<Sent>) {
    forall r | r in rs :: ValidSent(r)
  }

  // Records back to back; the last one may lack its padding.
  function Buffer(rs: seq<Sent>, padLast: bool): Data
    requires AllValid(rs)
  {
    if rs == [] then []
    else if |rs| == 1 && !padLast then Unpadded(rs[0])
    else Unpadded(rs[0]) + rs[0].pad + Buffer(rs[1..], padLast)
  }

  function FramesOf(rs: seq<Sent>): seq<Data> {
    if rs == [] then [] else [rs[0].frame] + FramesOf(rs[1..])
  }

  // Splitting returns exactly the frames laid out, in order.
  lemma {:induction false} BufferReadsBack(rs: seq<Sent>, padLast: bool)
    requires AllValid(rs)
    ensures FramesIn(Buffer(rs, padLast)) == FramesOf(rs)
    decreases |rs|
  {
    hide ValidSent, Unpadded;
    if rs != [] {
      var r := rs[0];
      var bare := Unpadded(r);
      if |rs| == 1 && !padLast {
        UnpaddedReads(r, []);
        NothingBefore(bare);
        StepOf(bare);
        assert FramesOf(rs[1..]) == [];
      } else {
        var rest := Buffer(rs[1..], padLast);
        BufferReadsBack(rs[1..], padLast);
        Assoc(bare, r.pad, rest);
        UnpaddedReads(r, r.pad + rest);
        assert bare + r.pad != [] by { assert |bare| >= NOMINAL_HDR by { Roomy(r); } }
        SplitFront(CutBpf, bare + r.pad, rest, r.frame);
      }
    }
  }

  lemma Roomy(r: Sent)
    requires ValidSent(r)
    ensures |Unpadded(r)| >= NOMINAL_HDR
  {
  }

  // ---- The refill loop ----

  // What the system call will return, read after read.
  datatype Read = Got(data: Data) | Interrupted | Failed(errno: int)

  datatype Delivery = Frame(data: Data) | Error(errno: int)

  function AsFrames(fs: seq<Data>): seq<Delivery> {
    if fs == [] then [] else [Frame(fs[0])] + AsFrames(fs[1..])
  }

  // Everything that successive calls return, given the unread part of the
  // buffer and the reads to come.
  function Deliveries(rec: Data, feed: seq<Read>): seq<Delivery>
    decreases |feed|
  {
    AsFrames(FramesIn(rec)) +
    if feed == [] then []
    else match feed[0]
      case Got(d) => Deliveries(d, feed[1..])
      case Interrupted => Deliveries([], feed[1..])
      case Failed(e) => [Error(e)] + Deliveries([], feed[1..])
  }

  datatype Answer = Delivered(d: Delivery) | Blocked

  class Capture {
    var rec: Data
    var feed: seq<Read>

    constructor (feed: seq<Read>)
      ensures rec == [] && this.feed == feed
    {
      rec, this.feed := [], feed;
    }

    // Each call delivers the next frame or error of all that is to come, and
    // blocks only when nothing is left.
    method Next() returns (a: Answer)
      modifies this
      ensures a.Blocked? ==> old(Deliveries(rec, feed)) == [] && rec == [] && feed == []
      ensures a.Delivered? ==> old(Deliveries(rec, feed)) == [a.d] + Deliveries(rec, feed)
    {
      hide NextRecord, FramesIn;
      ghost var all := Deliveries(rec, feed);
      while true
        invariant Deliveries(rec, feed) == all
        decreases |feed|
      {
        NothingLeft();
        match NextRecord(rec) {
          case Record(frame, rest) =>
            FirstDelivery(rec, frame, rest, feed);
            rec := rest;
            return Delivered(Frame(frame));
          case NoRecord =>
        }
        rec := [];
        if feed == [] {
          return Blocked;
        }
        var r := feed[0];
        feed := feed[1..];
        NothingBefore(Deliveries([], feed));
        match r {
          case Interrupted =>
          case Failed(errno) =>
            return Delivered(Error(errno));
          case Got(data) =>
            NothingBefore(Deliveries(data, feed));
            if |data| > 0 {
              rec := data;
            }
        }
      }
    }
  }

  lemma NothingLeft()
    ensures FramesIn([]) == []
  {
  }

  lemma FirstDelivery(rec: Data, frame: Data, rest: Data, feed: seq<Read>)
    requires FramesIn(rec) == [frame] + FramesIn(rest)
    ensures Deliveries(rec, feed) == [Frame(frame)] + Deliveries(rest, feed)
  {
    hide FramesIn;
    assert FramesIn(rec)[1..] == FramesIn(rest);
  }

  // ---- Buffers the kernel fills ----

  datatype Burst = Burst(records: seq<Sent>, padLast: bool)

  function Reads(bs: seq<Burst>): seq<Read>
    requires forall b | b in bs :: AllValid(b.records)
  {
    if bs == [] then [] else [Got(Buffer(bs[0].records, bs[0].padLast))] + Reads(bs[1..])
  }

  function AllFrames(bs: seq<Burst>): seq<Data> {
    if bs == [] then [] else FramesOf(bs[0].records) + AllFrames(bs[1..])
  }

  lemma {:induction false} AsFramesAppend(a: seq<Data>, b: seq<Data>)
    ensures AsFrames(a + b) == AsFrames(a) + AsFrames(b)
  {
    if a == [] {
      NothingBefore(b);
    } else {
      AsFramesAppend(a[1..], b);
      HeadFirst(a, b);
      Assoc([Frame(a[0])], AsFrames(a[1..]), AsFrames(b));
      assert (a + b)[1..] == a[1..] + b;
    }
  }

  // Across reads, every frame of every buffer is delivered once, in order.
  lemma {:induction false} EveryFrameOnce(bs: seq<Burst>)
    requires forall b | b in bs :: AllValid(b.records)
    ensures Deliveries([], Reads(bs)) == AsFrames(AllFrames(bs))
  {
    NothingLeft();
    if bs != [] {
      var b := bs[0];
      var buffer := Buffer(b.records, b.padLast);
      EveryFrameOnce(bs[1..]);
      BufferReadsBack(b.records, b.padLast);
      AsFramesAppend(FramesOf(b.records), AllFrames(bs[1..]));
      StartFresh(buffer, Reads(bs[1..]));
    }
  }

  lemma StartFresh(data: Data, feed: seq<Read>)
    ensures Deliveries([], [Got(data)] + feed) == AsFrames(FramesIn(data)) + Deliveries([], feed)
  {
    NothingLeft();
    assert ([Got(data)] + feed)[1..] == feed;
    if feed != [] {
      NothingBefore(Deliveries([], feed));
    }
  }
}
