/**
 The sending engine: sliding window, cumulative acknowledgement, fast retransmit, timeout
 retransmission, congestion control and adaptive timeout.

 `State` and the functions on it say what each operation does; class `RudpSender` is the mutable
 engine, each of whose methods is proved to do exactly that. The packets handed to the send callback
 are returned in order.
 */
module Sender {
  import opened Extrema
  import opened Wire
  import Fragment
  import Congestion
  import Rtt

  datatype Inflight = Inflight(packet: Packet, sentTime: real, retransmitted: bool)

  datatype State = State(
    base: nat,
    nextSeq: nat,
    lastAck: nat,
    control: Congestion.Control,
    timer: Rtt.Timer,
    inflightBytes: int,
    peerRwnd: nat,
    effectiveWindow: nat,
    unacked: map<nat, Inflight>,
    queue: seq<Packet>)

  function Initial(windowSize: nat): State {
    State(0, 0, 0, Congestion.INITIAL, Rtt.INITIAL, 0, windowSize, 0, map[], [])
  }

  // ---- Sending what the window admits --------------------------------------------------------

  function Window(cwnd: real, peerRwnd: nat): nat {
    var segments := (cwnd / Congestion.MSS).Floor;
    var atLeastOne := if segments < 1 then 1 else segments;
    if atLeastOne <= peerRwnd then atLeastOne else peerRwnd
  }

  predicate BytesFit(s: State)
    requires s.queue != []
  {
    (s.inflightBytes + |s.queue[0].payload|) as real <= s.control.cwnd
  }

  /** The first queued packet goes into flight. */
  function Launch(s: State, now: real): State
    requires s.queue != []
  {
    var p := s.queue[0];
    s.(queue := s.queue[1..],
       unacked := s.unacked[p.seqNum := Inflight(p, now, false)],
       inflightBytes := s.inflightBytes + |p.payload|)
  }

  function TrySend(s: State, now: real): (State, seq<Packet>)
    decreases |s.queue|
  {
    if s.queue == [] || !BytesFit(s) then (s, [])
    else
      var w := s.(effectiveWindow := Window(s.control.cwnd, s.peerRwnd));
      if |s.unacked| >= w.effectiveWindow then (w, [])
      else
        var (rest, sent) := TrySend(Launch(w, now), now);
        (rest, [s.queue[0]] + sent)
  }

  function Queued(s: State, m: Fragment.Message): State {
    var segs := Fragment.Fragments(m, s.nextSeq);
    s.(queue := s.queue + segs, nextSeq := s.nextSeq + |segs|)
  }

  function Enqueue(s: State, m: Fragment.Message, now: real): (State, seq<Packet>) {
    TrySend(Queued(s, m), now)
  }

  // ---- Acknowledgements ----------------------------------------------------------------------

  /** Payload bytes in flight under sequence numbers below `n`. */
  function BytesBelow(m: map<nat, Inflight>, n: nat): nat {
    if n == 0 then 0
    else BytesBelow(m, n - 1) + (if n - 1 in m then |m[n - 1].packet.payload| else 0)
  }

  function From(m: map<nat, Inflight>, n: nat): map<nat, Inflight> {
    map q | q in m && n <= q :: m[q]
  }

  /** The round-trip sample that acknowledgement `ack` yields, if any. */
  function Sample(s: State, ack: nat, now: real): Option<real> {
    if ack > s.base && ack - 1 in s.unacked && !s.unacked[ack - 1].retransmitted
    then Some(now - s.unacked[ack - 1].sentTime)
    else None
  }

  function Timed(s: State, ack: nat, now: real): Rtt.Timer {
    match Sample(s, ack, now)
    case None => s.timer
    case Some(r) => Rtt.OnSample(s.timer, r)
  }

  /** A cumulative acknowledgement above `base`: before anything more is sent. */
  function Acknowledged(s: State, ack: nat, now: real): State {
    s.(base := ack,
       lastAck := ack,
       timer := Timed(s, ack, now),
       inflightBytes := s.inflightBytes - BytesBelow(s.unacked, ack),
       unacked := From(s.unacked, ack),
       control := Congestion.OnNewAck(s.control))
  }

  /** Mark the packet at `base` as retransmitted now, if it is in flight. */
  function Resend(s: State, now: real): (State, seq<Packet>) {
    if s.base in s.unacked then
      var p := s.unacked[s.base].packet;
      (s.(unacked := s.unacked[s.base := Inflight(p, now, true)]), [p])
    else (s, [])
  }

  predicate IsDuplicate(s: State, ack: nat) {
    ack == s.lastAck && ack == s.base
  }

  function OnAck(s: State, ack: nat, rwnd: nat, now: real): (State, seq<Packet>) {
    var w := s.(peerRwnd := rwnd);
    if ack > s.base then TrySend(Acknowledged(w, ack, now), now)
    else if IsDuplicate(s, ack) then
      var d := w.(control := Congestion.OnDupAck(s.control));
      if Congestion.EntersRecovery(s.control) then Resend(d, now)
      else if Congestion.Inflates(s.control) then TrySend(d, now)
      else (d, [])
    else (w, [])
  }

  // ---- Timeouts ------------------------------------------------------------------------------

  predicate Expired(s: State, now: real) {
    s.base in s.unacked && now - s.unacked[s.base].sentTime >= s.timer.rto
  }

  function CheckTimeouts(s: State, now: real): (State, seq<Packet>) {
    if Expired(s, now)
    then Resend(s.(control := Congestion.OnTimeout(s.control), timer := Rtt.Backoff(s.timer)), now)
    else (s, [])
  }

  // ---- The mutable engine --------------------------------------------------------------------

  lemma {:induction false} BytesBelowRemove(m: map<nat, Inflight>, n: nat, k: nat)
    requires k in m
    ensures BytesBelow(m - {k}, n) == BytesBelow(m, n) - (if k < n then |m[k].packet.payload| else 0)
  {
    if n > 0 {
      BytesBelowRemove(m, n - 1, k);
    }
  }

  lemma {:induction false} BytesBelowNone(m: map<nat, Inflight>, n: nat)
    requires forall q :: q in m ==> n <= q
    ensures BytesBelow(m, n) == 0
  {
    if n > 0 {
      BytesBelowNone(m, n - 1);
    }
  }

  lemma TrySendUnfolds(s: State, t: State, now: real, sent: seq<Packet>)
    requires s.queue != [] && BytesFit(s) && |s.unacked| < Window(s.control.cwnd, s.peerRwnd)
    requires t == Launch(s.(effectiveWindow := Window(s.control.cwnd, s.peerRwnd)), now)
    ensures TrySend(s, now).0 == TrySend(t, now).0
    ensures sent + TrySend(s, now).1 == (sent + [s.queue[0]]) + TrySend(t, now).1
  {
  }

  /** The effective window in segments. */
  method WindowSegments(cwnd: real, peerRwnd: nat) returns (w: nat)
    ensures w == Window(cwnd, peerRwnd)
  {
    var cwndSegments := (cwnd / Congestion.MSS).Floor;
    if cwndSegments < 1 {
      cwndSegments := 1;
    }
    w := if cwndSegments <= peerRwnd then cwndSegments else peerRwnd;
  }

  class RudpSender {
    var base: nat
    var nextSeq: nat
    var ccState: Congestion.State
    var cwnd: Congestion.Positive
    var ssthresh: Congestion.Positive
    var dupAckCount: nat
    var lastAckReceived: nat
    var inflightBytes: int
    var peerRwnd: nat
    var effectiveWindow: nat
    var estimate: Option<Rtt.Estimate>
    var rto: real
    var unackedPackets: map<nat, Inflight>
    var sendBuffer: seq<Packet>

    ghost function Value(): State
      reads this
    {
      State(base, nextSeq, lastAckReceived,
            Congestion.Control(ccState, cwnd, ssthresh, dupAckCount), Rtt.Timer(estimate, rto),
            inflightBytes, peerRwnd, effectiveWindow, unackedPackets, sendBuffer)
    }

    constructor (windowSize: nat)
      ensures Value() == Initial(windowSize)
    {
      base, nextSeq, lastAckReceived := 0, 0, 0;
      ccState, cwnd, ssthresh, dupAckCount := Congestion.SlowStart, Congestion.MSS, 64.0 * Congestion.MSS, 0;
      inflightBytes, peerRwnd, effectiveWindow := 0, windowSize, 0;
      estimate, rto := None, Rtt.INITIAL_RTO;
      unackedPackets, sendBuffer := map[], [];
    }

    method EnqueueData(data: Bytes, msgId: nat, now: real) returns (sent: seq<Packet>)
      modifies this
      ensures (Value(), sent) == Enqueue(old(Value()), Fragment.Message(data, msgId), now)
    {
      var chunks := MakeChunks(data);
      ghost var segs := Fragment.Segments(chunks, msgId, nextSeq, 0);
      var offset := 0;
      var i := 0;
      while i < |chunks|
        invariant 0 <= i <= |chunks| && 0 <= offset
        invariant sendBuffer + Fragment.Segments(chunks[i..], msgId, nextSeq, offset) == old(sendBuffer) + segs
        invariant nextSeq == old(nextSeq) + i
        invariant Value() == old(Value()).(queue := sendBuffer, nextSeq := nextSeq)
      {
        var p := Fragment.Segment(nextSeq, i == |chunks| - 1, msgId, offset, chunks[i]);
        assert chunks[i..][1..] == chunks[i + 1..];
        sendBuffer := sendBuffer + [p];
        nextSeq := nextSeq + 1;
        offset := offset + |chunks[i]|;
        i := i + 1;
      }
      assert sendBuffer == old(sendBuffer) + segs;
      sent := Pump(now);
    }

    method Pump(now: real) returns (sent: seq<Packet>)
      modifies this
      ensures Value() == TrySend(old(Value()), now).0 && sent == TrySend(old(Value()), now).1
    {
      sent := [];
      assert sent + TrySend(Value(), now).1 == TrySend(Value(), now).1;
      while sendBuffer != []
        invariant TrySend(Value(), now).0 == TrySend(old(Value()), now).0
        invariant sent + TrySend(Value(), now).1 == TrySend(old(Value()), now).1
        decreases |sendBuffer|
      {
        ghost var before, was := Value(), sent;
        var packet := sendBuffer[0];
        if (inflightBytes + |packet.payload|) as real > cwnd {
          break;
        }
        effectiveWindow := WindowSegments(cwnd, peerRwnd);
        if |unackedPackets| >= effectiveWindow {
          break;
        }
        LaunchFirst(now);
        sent := sent + [packet];
        TrySendUnfolds(before, Value(), now, was);
      }
      assert sent + [] == sent;
    }

    method LaunchFirst(now: real)
      requires sendBuffer != []
      modifies this`sendBuffer, this`unackedPackets, this`inflightBytes
      ensures Value() == Launch(old(Value()), now)
    {
      var packet := sendBuffer[0];
      sendBuffer := sendBuffer[1..];
      unackedPackets := unackedPackets[packet.seqNum := Inflight(packet, now, false)];
      inflightBytes := inflightBytes + |packet.payload|;
    }

    /** Forget every packet below `ack`. */
    method RemoveBelow(ack: nat)
      modifies this`unackedPackets, this`inflightBytes
      ensures unackedPackets == From(old(unackedPackets), ack)
      ensures inflightBytes == old(inflightBytes) - BytesBelow(old(unackedPackets), ack)
    {
      var keysToRemove := set q | q in unackedPackets && q < ack;
      while keysToRemove != {}
        invariant keysToRemove == set q | q in unackedPackets && q < ack
        invariant From(unackedPackets, ack) == From(old(unackedPackets), ack)
        invariant inflightBytes - BytesBelow(unackedPackets, ack)
               == old(inflightBytes) - BytesBelow(old(unackedPackets), ack)
        decreases keysToRemove
      {
        var q :| q in keysToRemove;
        BytesBelowRemove(unackedPackets, ack, q);
        inflightBytes := inflightBytes - |unackedPackets[q].packet.payload|;
        unackedPackets := unackedPackets - {q};
        keysToRemove := keysToRemove - {q};
      }
      assert forall q :: q in unackedPackets && q < ack ==> q in keysToRemove;
      BytesBelowNone(unackedPackets, ack);
    }

    /** Growth of the congestion window on a new acknowledgement. */
    method GrowWindow()
      modifies this`ccState, this`cwnd
      ensures Congestion.Control(ccState, cwnd, ssthresh, 0)
           == Congestion.OnNewAck(old(Congestion.Control(ccState, cwnd, ssthresh, dupAckCount)))
    {
      if ccState == Congestion.SlowStart {
        cwnd := cwnd + Congestion.MSS;
        if cwnd >= ssthresh {
          ccState := Congestion.Avoidance;
        }
      } else if ccState == Congestion.Avoidance {
        cwnd := cwnd + Congestion.MSS * Congestion.MSS / cwnd;
      } else {
        cwnd := ssthresh;
        ccState := Congestion.Avoidance;
      }
    }

    method UpdateTimer(sample: real)
      modifies this`estimate, this`rto
      ensures Rtt.Timer(estimate, rto) == Rtt.OnSample(old(Rtt.Timer(estimate, rto)), sample)
    {
      var srtt, rttvar;
      if estimate.None? {
        srtt := sample;
        rttvar := sample / 2.0;
      } else {
        rttvar := (1.0 - Rtt.BETA) * estimate.value.rttvar + Rtt.BETA * Rtt.Abs(estimate.value.srtt - sample);
        srtt := (1.0 - Rtt.ALPHA) * estimate.value.srtt + Rtt.ALPHA * sample;
      }
      estimate := Some(Rtt.Estimate(srtt, rttvar));
      rto := MaxReal(Rtt.MIN_RTO, MinReal(srtt + 4.0 * rttvar, Rtt.MAX_RTO));
    }

    /** Take the round-trip sample of the newest acknowledged packet, unless it was retransmitted. */
    method TakeSample(ack: nat, now: real)
      requires ack > base
      modifies this`estimate, this`rto
      ensures Rtt.Timer(estimate, rto) == Timed(old(Value()), ack, now)
    {
      var highestAcked := ack - 1;
      if highestAcked in unackedPackets && !unackedPackets[highestAcked].retransmitted {
        UpdateTimer(now - unackedPackets[highestAcked].sentTime);
      }
    }

    method OnNewAck(ack: nat, now: real) returns (sent: seq<Packet>)
      requires ack > base
      modifies this
      ensures (Value(), sent) == TrySend(Acknowledged(old(Value()), ack, now), now)
    {
      TakeSample(ack, now);
      RemoveBelow(ack);
      GrowWindow();
      base := ack;
      lastAckReceived := ack;
      dupAckCount := 0;
      assert Value() == Acknowledged(old(Value()), ack, now);
      sent := Pump(now);
    }

    method OnDupAck(now: real) returns (sent: seq<Packet>)
      requires base == lastAckReceived
      modifies this
      ensures (Value(), sent) == OnAck(old(Value()), old(base), old(peerRwnd), now)
    {
      sent := [];
      dupAckCount := dupAckCount + 1;
      if dupAckCount == 3 && ccState != Congestion.FastRecovery {
        ccState := Congestion.FastRecovery;
        ssthresh := MaxReal(cwnd / 2.0, 2.0 * Congestion.MSS);
        cwnd := ssthresh + 3.0 * Congestion.MSS;
        if base in unackedPackets {
          var packet := unackedPackets[base].packet;
          unackedPackets := unackedPackets[base := Inflight(packet, now, true)];
          sent := [packet];
        }
      } else if dupAckCount > 3 && ccState == Congestion.FastRecovery {
        cwnd := cwnd + Congestion.MSS;
        sent := Pump(now);
      }
    }

    method OnAckReceived(ack: nat, rwnd: nat, now: real) returns (sent: seq<Packet>)
      modifies this
      ensures (Value(), sent) == OnAck(old(Value()), ack, rwnd, now)
    {
      peerRwnd := rwnd;
      sent := [];
      if ack > base {
        sent := OnNewAck(ack, now);
      } else if ack == lastAckReceived && ack == base {
        sent := OnDupAck(now);
      }
    }

    method CheckForTimeouts(now: real) returns (sent: seq<Packet>)
      modifies this
      ensures (Value(), sent) == CheckTimeouts(old(Value()), now)
    {
      sent := [];
      if |unackedPackets| == 0 {
        return;
      }
      if base in unackedPackets {
        var oldest := unackedPackets[base];
        if now - oldest.sentTime >= rto {
          ssthresh := MaxReal(cwnd / 2.0, 2.0 * Congestion.MSS);
          cwnd := Congestion.MSS;
          ccState := Congestion.SlowStart;
          rto := MinReal(rto * 2.0, Rtt.MAX_RTO);
          unackedPackets := unackedPackets[base := Inflight(oldest.packet, now, true)];
          sent := [oldest.packet];
        }
      }
    }
  }

  /** The list comprehension that slices the data. */
  method MakeChunks(data: Bytes) returns (chunks: seq<Bytes>)
    ensures chunks == Fragment.Chunks(data)
  {
    chunks := [];
    var end := if |data| == 0 then 1 else |data|;
    var i := 0;
    while i < end
      invariant 0 <= i
      invariant i < end ==> i <= |data| && chunks + Fragment.Chunks(data[i..]) == Fragment.Chunks(data)
      invariant i >= end ==> chunks == Fragment.Chunks(data)
      decreases end - i
    {
      var stop := if i + Fragment.MSS <= |data| then i + Fragment.MSS else |data|;
      assert i + Fragment.MSS < end ==>
        data[i..][Fragment.MSS..] == data[stop..] && data[i..][..Fragment.MSS] == data[i..stop];
      assert i + Fragment.MSS >= end ==> data[i..stop] == data[i..];
      chunks := chunks + [data[i..stop]];
      i := i + Fragment.MSS;
    }
  }
}
