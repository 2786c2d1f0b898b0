/** Splitting messages into segments and putting them together again. */
module Fragment {
  import opened Wire

  const MSS: nat := 1200

  datatype Message = Message(data: Bytes, msgId: nat)

  function Segment(seqNum: nat, fin: bool, msgId: nat, offset: nat, payload: Bytes): Packet {
    Packet(seqNum, 0, if fin then FLAG_FIN else 0, 0, Some(msgId), Some(offset), payload)
  }

  /** Slices of at most MSS bytes; an empty message still gives one, empty, slice. */
  function Chunks(data: Bytes): (chunks: seq<Bytes>)
    ensures chunks != []
  {
    if |data| <= MSS then [data] else [data[..MSS]] + Chunks(data[MSS..])
  }

  /** The segments of chunks `cs`, numbered from `seqNum` and placed from `offset` on. */
  function Segments(cs: seq<Bytes>, msgId: nat, seqNum: nat, offset: nat): (segs: seq<Packet>)
    ensures |segs| == |cs|
  {
    if cs == [] then []
    else [Segment(seqNum, |cs| == 1, msgId, offset, cs[0])] + Segments(cs[1..], msgId, seqNum + 1, offset + |cs[0]|)
  }

  /** All segments of one message. */
  function Fragments(m: Message, seqNum: nat): (segs: seq<Packet>)
    ensures segs != []
  {
    Segments(Chunks(m.data), m.msgId, seqNum, 0)
  }

  /** All segments of a sequence of messages, numbered consecutively from zero. */
  function Stream(ms: seq<Message>): seq<Packet> {
    if ms == [] then []
    else
      var before := Stream(ms[..|ms| - 1]);
      before + Fragments(ms[|ms| - 1], |before|)
  }

  datatype Assembly = Assembly(messages: seq<Bytes>, partial: Bytes)

  /** What in-order assembly makes of a sequence of segments. */
  function Absorb(a: Assembly, p: Packet): Assembly {
    var buffer := a.partial + p.payload;
    if p.IsFin() then Assembly(a.messages + [buffer], []) else Assembly(a.messages, buffer)
  }

  function Assemble(segs: seq<Packet>): Assembly {
    if segs == [] then Assembly([], [])
    else Absorb(Assemble(segs[..|segs| - 1]), segs[|segs| - 1])
  }

  function Payloads(ms: seq<Message>): (bs: seq<Bytes>)
    ensures |bs| == |ms|
  {
    seq(|ms|, i requires 0 <= i < |ms| => ms[i].data)
  }

  /** Segment `p` continues the message under assembly: right place. */
  predicate InPlace(a: Assembly, p: Packet) {
    p.offset == Some(|a.partial|) && |p.payload| <= MSS
  }

  // ---- Fragmentation and reassembly are inverse ----------------------------------------------

  lemma {:induction false} ChunksBounded(data: Bytes)
    ensures forall i :: 0 <= i < |Chunks(data)| ==> |Chunks(data)[i]| <= MSS
    ensures forall i :: 0 <= i < |Chunks(data)| - 1 ==> |Chunks(data)[i]| == MSS
  {
    if |data| > MSS {
      ChunksBounded(data[MSS..]);
    }
  }

  function Join(cs: seq<Bytes>): Bytes {
    if cs == [] then [] else cs[0] + Join(cs[1..])
  }

  lemma {:induction false} JoinChunks(data: Bytes)
    ensures Join(Chunks(data)) == data
  {
    if |data| > MSS {
      JoinChunks(data[MSS..]);
      assert Chunks(data)[1..] == Chunks(data[MSS..]);
    } else {
      assert [data][1..] == [];
    }
  }

  lemma {:induction false} SegmentsAt(cs: seq<Bytes>, msgId: nat, seqNum: nat, offset: nat, i: nat)
    requires i < |cs|
    ensures var p := Segments(cs, msgId, seqNum, offset)[i];
            && p == Segment(seqNum + i, i == |cs| - 1, msgId, offset + |Join(cs[..i])|, cs[i])
  {
    if i > 0 {
      SegmentsAt(cs[1..], msgId, seqNum + 1, offset + |cs[0]|, i - 1);
      assert cs[..i][1..] == cs[1..][..i - 1];
    }
  }

  /** FIN marks the last segment of a message and no other; segments are never ACKs. */
  lemma SegmentFlags(seqNum: nat, fin: bool, msgId: nat, offset: nat, payload: Bytes)
    ensures var p := Segment(seqNum, fin, msgId, offset, payload);
            (p.IsFin() <==> fin) && !p.IsAck() && p.HasData() && p.flags == if fin then 4 else 0
  {
  }

  lemma AssembleSnoc(segs: seq<Packet>, p: Packet)
    ensures Assemble(segs + [p]) == Absorb(Assemble(segs), p)
  {
    assert (segs + [p])[..|segs|] == segs;
  }

  function AbsorbAll(a: Assembly, segs: seq<Packet>): Assembly
    decreases |segs|
  {
    if segs == [] then a else AbsorbAll(Absorb(a, segs[0]), segs[1..])
  }

  lemma {:induction false} AssembleAppend(xs: seq<Packet>, ys: seq<Packet>)
    ensures Assemble(xs + ys) == AbsorbAll(Assemble(xs), ys)
    decreases |ys|
  {
    if ys == [] {
      assert xs + ys == xs;
    } else {
      AssembleSnoc(xs, ys[0]);
      AssembleAppend(xs + [ys[0]], ys[1..]);
      assert xs + ys == (xs + [ys[0]]) + ys[1..];
    }
  }

  /** All segments of a message complete it. */
  lemma {:induction false} AbsorbWhole(a: Assembly, cs: seq<Bytes>, msgId: nat, seqNum: nat)
    requires cs != []
    ensures AbsorbAll(a, Segments(cs, msgId, seqNum, |a.partial|)) == Assembly(a.messages + [a.partial + Join(cs)], [])
    decreases |cs|
  {
    var segs := Segments(cs, msgId, seqNum, |a.partial|);
    SegmentFlags(seqNum, |cs| == 1, msgId, |a.partial|, cs[0]);
    assert segs[0] == Segment(seqNum, |cs| == 1, msgId, |a.partial|, cs[0]);
    assert segs[1..] == Segments(cs[1..], msgId, seqNum + 1, |a.partial| + |cs[0]|);
    if |cs| == 1 {
      assert cs[1..] == [] && segs[1..] == [];
      assert a.partial + Join(cs) == a.partial + cs[0];
    } else {
      AbsorbWhole(Absorb(a, segs[0]), cs[1..], msgId, seqNum + 1);
      assert a.partial + Join(cs) == (a.partial + cs[0]) + Join(cs[1..]);
    }
  }

  /** The first `k` segments of a message leave it partial, and the next one belongs exactly at its end. */
  lemma {:induction false} AbsorbPart(a: Assembly, cs: seq<Bytes>, msgId: nat, seqNum: nat, k: nat)
    requires k < |cs|
    ensures var segs := Segments(cs, msgId, seqNum, |a.partial|);
            var b := AbsorbAll(a, segs[..k]);
            b == Assembly(a.messages, a.partial + Join(cs[..k])) && segs[k].offset == Some(|b.partial|)
    decreases |cs|
  {
    var segs := Segments(cs, msgId, seqNum, |a.partial|);
    SegmentFlags(seqNum, |cs| == 1, msgId, |a.partial|, cs[0]);
    assert segs[0] == Segment(seqNum, |cs| == 1, msgId, |a.partial|, cs[0]);
    assert segs[1..] == Segments(cs[1..], msgId, seqNum + 1, |a.partial| + |cs[0]|);
    if k == 0 {
      assert a.partial + Join(cs[..0]) == a.partial;
    } else {
      AbsorbPart(Absorb(a, segs[0]), cs[1..], msgId, seqNum + 1, k - 1);
      assert segs[..k][1..] == segs[1..][..k - 1];
      assert cs[..k][1..] == cs[1..][..k - 1];
      assert a.partial + Join(cs[..k]) == (a.partial + cs[0]) + Join(cs[..k][1..]);
    }
  }

  /** One more message after a complete one. */
  lemma AssembleMessage(xs: seq<Packet>, m: Message)
    requires Assemble(xs).partial == []
    ensures Assemble(xs + Fragments(m, |xs|)) == Assembly(Assemble(xs).messages + [m.data], [])
  {
    AssembleAppend(xs, Fragments(m, |xs|));
    AbsorbWhole(Assemble(xs), Chunks(m.data), m.msgId, |xs|);
    JoinChunks(m.data);
    assert [] + m.data == m.data;
  }

  /** Reassembly inverts fragmentation, for every message sequence. */
  lemma {:induction false} AssembleStream(ms: seq<Message>)
    ensures Assemble(Stream(ms)) == Assembly(Payloads(ms), [])
  {
    if ms != [] {
      var init, last := ms[..|ms| - 1], ms[|ms| - 1];
      AssembleStream(init);
      AssembleMessage(Stream(init), last);
      assert Payloads(ms) == Payloads(init) + [last.data];
    }
  }

  /** `i` is the number of a segment of message `j`. */
  predicate Belongs(ms: seq<Message>, j: nat, i: nat) {
    j < |ms| && |Stream(ms[..j])| <= i < |Stream(ms[..j + 1])|
  }

  lemma StreamSplit(ms: seq<Message>, j: nat)
    requires j < |ms|
    ensures Stream(ms[..j + 1]) == Stream(ms[..j]) + Fragments(ms[j], |Stream(ms[..j])|)
  {
    assert ms[..j + 1][..j] == ms[..j];
  }

  lemma {:induction false} StreamPrefix(ms: seq<Message>, j: nat)
    requires j <= |ms|
    ensures Stream(ms[..j]) <= Stream(ms)
    decreases |ms| - j
  {
    if j == |ms| {
      assert ms[..j] == ms;
    } else {
      StreamPrefix(ms, j + 1);
      StreamSplit(ms, j);
    }
  }

  /** Every segment number belongs to exactly one message. */
  lemma {:induction false} Owner(ms: seq<Message>, i: nat, n: nat) returns (j: nat)
    requires n <= |ms| && i < |Stream(ms[..n])|
    ensures j < n && Belongs(ms, j, i)
    decreases n
  {
    assert ms[..0] == [];
    StreamSplit(ms, n - 1);
    if i < |Stream(ms[..n - 1])| {
      j := Owner(ms, i, n - 1);
    } else {
      j := n - 1;
    }
  }

  /**
   Cutting the segment stream of `ms` anywhere: what has been assembled so far is the messages before
   the one that owns the next segment, plus a beginning of that one; and that next segment carries that
   message's id and starts exactly where the partial buffer ends.
   */
  lemma AssemblePrefix(ms: seq<Message>, i: nat) returns (j: nat)
    requires i < |Stream(ms)|
    ensures j < |ms|
    ensures var a := Assemble(Stream(ms)[..i]);
            && a.messages == Payloads(ms[..j])
            && a.partial <= ms[j].data
            && InPlace(a, Stream(ms)[i])
            && Stream(ms)[i].msgId == Some(ms[j].msgId)
  {
    assert ms[..|ms|] == ms;
    j := Owner(ms, i, |ms|);
    InPlaceOf(ms, j, i);
  }

  /** The same, given the message that owns the next segment. */
  lemma InPlaceOf(ms: seq<Message>, j: nat, i: nat)
    requires Belongs(ms, j, i)
    ensures i < |Stream(ms)|
    ensures var a := Assemble(Stream(ms)[..i]);
            && a.messages == Payloads(ms[..j])
            && a.partial <= ms[j].data
            && InPlace(a, Stream(ms)[i])
            && Stream(ms)[i].msgId == Some(ms[j].msgId)
  {
    var before := Stream(ms[..j]);
    var segs, k := Fragments(ms[j], |before|), i - |before|;
    StreamSplit(ms, j);
    StreamPrefix(ms, j + 1);
    assert Stream(ms)[..i] == before + segs[..k];
    assert Stream(ms)[i] == segs[k];
    AssembleStream(ms[..j]);
    PartOfMessage(before, ms[j], k);
  }

  /** Part of one more message after complete ones. */
  lemma PartOfMessage(before: seq<Packet>, m: Message, k: nat)
    requires Assemble(before).partial == [] && k < |Fragments(m, |before|)|
    ensures var segs := Fragments(m, |before|);
            var a := Assemble(before + segs[..k]);
            && a.messages == Assemble(before).messages
            && a.partial <= m.data
            && InPlace(a, segs[k])
            && segs[k].msgId == Some(m.msgId)
  {
    var cs := Chunks(m.data);
    AssembleAppend(before, Fragments(m, |before|)[..k]);
    AbsorbPart(Assemble(before), cs, m.msgId, |before|, k);
    assert [] + Join(cs[..k]) == Join(cs[..k]);
    SegmentsAt(cs, m.msgId, |before|, 0, k);
    ChunksBounded(m.data);
    JoinPrefix(cs, k);
    JoinChunks(m.data);
  }

  lemma {:induction false} JoinPrefix(cs: seq<Bytes>, k: nat)
    requires k <= |cs|
    ensures Join(cs[..k]) <= Join(cs)
  {
    if k > 0 {
      JoinPrefix(cs[1..], k - 1);
      assert cs[..k][1..] == cs[1..][..k - 1];
    }
  }

  /** Segment number `i` of a stream is the packet numbered `i`, within MSS, and it is never an ACK. */
  lemma StreamAt(ms: seq<Message>, i: nat)
    requires i < |Stream(ms)|
    ensures var p := Stream(ms)[i];
            p.seqNum == i && |p.payload| <= MSS && p.HasReassembly() && !p.IsAck()
  {
    assert ms[..|ms|] == ms;
    var j := Owner(ms, i, |ms|);
    StreamSplit(ms, j);
    StreamPrefix(ms, j + 1);
    var before := Stream(ms[..j]);
    assert Stream(ms)[i] == Fragments(ms[j], |before|)[i - |before|];
    FragmentAt(ms[j], |before|, i - |before|);
  }

  lemma FragmentAt(m: Message, seqNum: nat, i: nat)
    requires i < |Fragments(m, seqNum)|
    ensures var p := Fragments(m, seqNum)[i];
            p.seqNum == seqNum + i && |p.payload| <= MSS && p.HasReassembly() && !p.IsAck()
  {
    SegmentsAt(Chunks(m.data), m.msgId, seqNum, 0, i);
    ChunksBounded(m.data);
  }
}
