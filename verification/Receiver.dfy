/**
 The receiving engine: out-of-order buffering, draining, message assembly, cumulative
 acknowledgement, window advertisement and watermark hysteresis.
 */
module Receiver {
  import opened Wire
  import Fragment

  const MAX_RWND: nat := 64
  const HIGH_THRESHOLD: nat := 52
  const LOW_THRESHOLD: nat := 13

  datatype FlowState = Normal | Throttle

  datatype Stats = Stats(
    delivered: nat, buffered: nat, dup: nat, drop: nat, dropInvalid: nat,
    fcThrottle: nat, fcNormal: nat)

  datatype State = State(
    expected: nat,
    ooo: map<nat, Packet>,
    assembly: Bytes,
    flow: FlowState,
    stats: Stats)

  datatype Reply = Reply(ackNum: nat, rwnd: nat)

  const INITIAL := State(0, map[], [], Normal, Stats(0, 0, 0, 0, 0, 0, 0))

  /** The next in-order segment is appended; a FIN hands the finished message over. */
  function Take(s: State, p: Packet): (State, seq<Bytes>) {
    var a := Fragment.Absorb(Fragment.Assembly([], s.assembly), p);
    (s.(expected := s.expected + 1,
        assembly := a.partial,
        stats := s.stats.(delivered := s.stats.delivered + 1)),
     a.messages)
  }

  /** Take buffered segments for as long as the expected one is there. */
  function Drain(s: State): (State, seq<Bytes>)
    decreases |s.ooo|
  {
    if s.expected in s.ooo then
      var (t, first) := Take(s.(ooo := s.ooo - {s.expected}), s.ooo[s.expected]);
      var (u, rest) := Drain(t);
      (u, first + rest)
    else (s, [])
  }

  /** One append to the assembly buffer: how full it was before, and the segment. */
  datatype Appended = Appended(filled: nat, segment: Packet)

  /** The appends that draining makes, in order. */
  function DrainAppends(s: State): seq<Appended>
    decreases |s.ooo|
  {
    if s.expected in s.ooo then
      [Appended(|s.assembly|, s.ooo[s.expected])]
      + DrainAppends(Take(s.(ooo := s.ooo - {s.expected}), s.ooo[s.expected]).0)
    else []
  }

  /** The appends that one arrival makes. */
  function Appends(s: State, p: Packet): seq<Appended> {
    if p.seqNum == s.expected then [Appended(|s.assembly|, p)] + DrainAppends(Take(s, p).0) else []
  }

  predicate InWindow(s: State, seqNum: nat) {
    s.expected <= seqNum < s.expected + MAX_RWND
  }

  function Place(s: State, p: Packet): (State, seq<Bytes>) {
    if p.seqNum < s.expected then (s.(stats := s.stats.(dup := s.stats.dup + 1)), [])
    else if !InWindow(s, p.seqNum) then (s.(stats := s.stats.(drop := s.stats.drop + 1)), [])
    else if p.seqNum == s.expected then
      var (t, first) := Take(s, p);
      var (u, rest) := Drain(t);
      (u, first + rest)
    else if p.seqNum !in s.ooo then
      (s.(ooo := s.ooo[p.seqNum := p], stats := s.stats.(buffered := s.stats.buffered + 1)), [])
    else (s, [])
  }

  function Watermarked(s: State): State {
    if s.flow == Normal && |s.ooo| >= HIGH_THRESHOLD
    then s.(flow := Throttle, stats := s.stats.(fcThrottle := s.stats.fcThrottle + 1))
    else if s.flow == Throttle && |s.ooo| <= LOW_THRESHOLD
    then s.(flow := Normal, stats := s.stats.(fcNormal := s.stats.fcNormal + 1))
    else s
  }

  function Advertised(s: State): nat {
    if MAX_RWND >= |s.ooo| then MAX_RWND - |s.ooo| else 0
  }

  function Process(s: State, p: Packet): (State, Reply, seq<Bytes>) {
    var (t, out) := Place(s, p);
    (Watermarked(t), Reply(t.expected, Advertised(t)), out)
  }

  lemma DrainUnfolds(s: State, t: State, first: seq<Bytes>, delivered: seq<Bytes>)
    requires s.expected in s.ooo && (t, first) == Take(s.(ooo := s.ooo - {s.expected}), s.ooo[s.expected])
    ensures Drain(s).0 == Drain(t).0 && delivered + Drain(s).1 == (delivered + first) + Drain(t).1
  {
  }

  lemma DrainAppendsUnfolds(s: State, t: State, log: seq<Appended>)
    requires s.expected in s.ooo && t == Take(s.(ooo := s.ooo - {s.expected}), s.ooo[s.expected]).0
    ensures log + DrainAppends(s) == (log + [Appended(|s.assembly|, s.ooo[s.expected])]) + DrainAppends(t)
  {
  }

  class RudpReceiver {
    var expectedSeq: nat
    var oooBuffer: map<nat, Packet>
    var assemblyBuffer: Bytes
    var fcState: FlowState
    var stats: Stats

    ghost function Value(): State
      reads this
    {
      State(expectedSeq, oooBuffer, assemblyBuffer, fcState, stats)
    }

    constructor ()
      ensures Value() == INITIAL
    {
      expectedSeq, oooBuffer, assemblyBuffer, fcState := 0, map[], [], Normal;
      stats := Stats(0, 0, 0, 0, 0, 0, 0);
    }

    /** Append one segment; `delivered` is what the delivery callback receives. */
    method Append(p: Packet) returns (delivered: seq<Bytes>, ghost appended: Appended)
      modifies this`expectedSeq, this`assemblyBuffer, this`stats
      ensures (Value(), delivered) == Take(old(Value()), p)
      ensures appended == Appended(|old(assemblyBuffer)|, p)
    {
      delivered := [];
      appended := Appended(|assemblyBuffer|, p);
      assemblyBuffer := assemblyBuffer + p.payload;
      if p.IsFin() {
        delivered := delivered + [assemblyBuffer];
        assemblyBuffer := [];
      }
      expectedSeq := expectedSeq + 1;
      stats := stats.(delivered := stats.delivered + 1);
    }

    method DrainBuffer() returns (delivered: seq<Bytes>, ghost appends: seq<Appended>)
      modifies this`expectedSeq, this`assemblyBuffer, this`stats, this`oooBuffer
      ensures Value() == Drain(old(Value())).0 && delivered == Drain(old(Value())).1
      ensures appends == DrainAppends(old(Value()))
    {
      delivered, appends := [], [];
      assert delivered + Drain(Value()).1 == Drain(Value()).1;
      while expectedSeq in oooBuffer
        invariant Drain(Value()).0 == Drain(old(Value())).0
        invariant delivered + Drain(Value()).1 == Drain(old(Value())).1
        invariant appends + DrainAppends(Value()) == DrainAppends(old(Value()))
        decreases |oooBuffer|
      {
        ghost var was, before, log := delivered, Value(), appends;
        var segment := oooBuffer[expectedSeq];
        oooBuffer := oooBuffer - {expectedSeq};
        var more, appended := Append(segment);
        delivered := delivered + more;
        appends := appends + [appended];
        DrainUnfolds(before, Value(), more, was);
        DrainAppendsUnfolds(before, Value(), log);
      }
      assert delivered + [] == delivered;
    }

    method ProcessSegment(p: Packet) returns (reply: Reply, delivered: seq<Bytes>, ghost appends: seq<Appended>)
      modifies this
      ensures (Value(), reply, delivered) == Process(old(Value()), p)
      ensures appends == Appends(old(Value()), p)
    {
      delivered, appends := [], [];
      if p.seqNum < expectedSeq {
        stats := stats.(dup := stats.dup + 1);
      } else if !(expectedSeq <= p.seqNum < expectedSeq + MAX_RWND) {
        stats := stats.(drop := stats.drop + 1);
      } else if p.seqNum == expectedSeq {
        var first, appended := Append(p);
        var rest, more := DrainBuffer();
        delivered := first + rest;
        appends := [appended] + more;
      } else if p.seqNum !in oooBuffer {
        oooBuffer := oooBuffer[p.seqNum := p];
        stats := stats.(buffered := stats.buffered + 1);
      }
      var ackNum := expectedSeq;
      var bufferUsed := |oooBuffer|;
      if fcState == Normal && bufferUsed >= HIGH_THRESHOLD {
        fcState := Throttle;
        stats := stats.(fcThrottle := stats.fcThrottle + 1);
      } else if fcState == Throttle && bufferUsed <= LOW_THRESHOLD {
        fcState := Normal;
        stats := stats.(fcNormal := stats.fcNormal + 1);
      }
      reply := Reply(ackNum, if MAX_RWND >= bufferUsed then MAX_RWND - bufferUsed else 0);
    }
  }
}
