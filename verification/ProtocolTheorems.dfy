/** End-to-end guarantees of the protocol, in every run over the unreliable network. */
module ProtocolTheorems {
  import opened Wire
  import opened Fragment
  import opened Protocol
  import Sender
  import Receiver
  import Runs
  import SP = SenderProofs
  import SW = SenderWindow
  import RP = ReceiverProofs

  // ---- Safety --------------------------------------------------------------------------------------------

  /** What has been delivered, and what is being assembled, in a state that satisfies the invariant. */
  lemma InvDelivered(s: System) returns (j: nat)
    requires Inv(s)
    ensures var h := s.Received();
            && j <= |s.messages|
            && h.delivered == Payloads(s.messages[..j])
            && (if j == |s.messages| then h.state.assembly == [] && h.state.expected == |s.Segs()|
                else h.state.assembly <= s.messages[j].data && h.state.expected < |s.Segs()|)
  {
    InvReceived(s);
    var h := s.Received();
    if h.state.expected == |s.Segs()| {
      j := |s.messages|;
      AssembleStream(s.messages);
      assert s.messages[..j] == s.messages;
      assert s.Segs()[..h.state.expected] == s.Segs();
    } else {
      j := AssemblePrefix(s.messages, h.state.expected);
    }
  }

  /**
   Exactly-once, in-order, byte-for-byte delivery: at every moment of every run the messages handed to
   the application are a prefix of the messages sent, and the one under assembly is a prefix of the next.
   */
  lemma DeliveredIsPrefix(events: seq<Event>) returns (j: nat)
    ensures var s := Exec(events);
            && j <= |s.messages|
            && s.Received().delivered == Payloads(s.messages)[..j]
            && (j < |s.messages| ==> s.Received().state.assembly <= s.messages[j].data)
            && (j == |s.messages| ==> s.Received().state.assembly == [])
  {
    ReachableInv(events);
    j := InvDelivered(Exec(events));
    assert Payloads(Exec(events).messages)[..j] == Payloads(Exec(events).messages[..j]);
  }

  /** Deliveries are never taken back. */
  lemma DeliveryGrows(events: seq<Event>, e: Event)
    ensures Exec(events).Received().delivered <= Exec(events + [e]).Received().delivered
  {
    Runs.FoldSnoc(Next, INITIAL, events, e);
    if e.DeliverData? {
      ArrivalAdvances(Exec(events).arrivals, e.segment);
    }
  }

  /** Every append so far, and the segment of the stream that each one appended. */
  lemma AppendsFollowStream(s: System, k: nat)
    requires Inv(s) && k < |RP.AllAppends(s.arrivals)|
    ensures k < |s.Segs()|
    ensures RP.AllAppends(s.arrivals)[k] == Receiver.Appended(|Assemble(s.Segs()[..k]).partial|, s.Segs()[k])
  {
    assert AllGenuine(s.arrivals, s.Segs(), SW.Unsent(s.sender));
    AcceptedGenuine(s.arrivals, s.Segs(), SW.Unsent(s.sender));
    RP.RunAppendsAre(s.arrivals);
    var acc := RP.AcceptAll(s.arrivals);
    assert RP.AppendIs(RP.AllAppends(s.arrivals)[k], acc, 0 + k);
    assert k in acc;
    assert RP.InOrder(acc, k) == s.Segs()[..k];
  }

  /**
   In every run, each segment that the receiver appends, whether on arrival or by draining, starts exactly
   where the assembly buffer ends, and all segments of message `j` carry that message's id.
   */
  lemma AppendsInPlace(events: seq<Event>, j: nat, k: nat)
    requires k < |RP.AllAppends(Exec(events).arrivals)|
    requires Belongs(Exec(events).messages, j, k)
    ensures var a := RP.AllAppends(Exec(events).arrivals)[k];
            && a.segment.offset == Some(a.filled)
            && a.segment.msgId == Some(Exec(events).messages[j].msgId)
  {
    ReachableInv(events);
    AppendsFollowStream(Exec(events), k);
    InPlaceOf(Exec(events).messages, j, k);
  }

  /** In every run the number of appends is the expected number, and each belongs to a message. */
  lemma AppendsBelong(events: seq<Event>, k: nat) returns (j: nat)
    requires k < Exec(events).Received().state.expected
    ensures k < |RP.AllAppends(Exec(events).arrivals)| == Exec(events).Received().state.expected
    ensures j < |Exec(events).messages| && Belongs(Exec(events).messages, j, k)
  {
    ReachableInv(events);
    var s := Exec(events);
    RP.RunAppendsAre(s.arrivals);
    AppendsFollowStream(s, k);
    assert s.messages[..|s.messages|] == s.messages;
    j := Owner(s.messages, k, |s.messages|);
  }

  // ---- Window ----------------------------------------------------------------------------------------------

  function TotalLength(ps: seq<Packet>): nat {
    if ps == [] then 0 else TotalLength(ps[..|ps| - 1]) + |ps[|ps| - 1].payload|
  }

  lemma {:induction false} InFlightBytes(s: Sender.State, segs: seq<Packet>, n: nat)
    requires Contiguous(s) && Faithful(s, segs) && s.base <= n <= SW.Unsent(s)
    ensures Sender.BytesBelow(s.unacked, n) == TotalLength(segs[s.base..n])
    decreases n
  {
    if n == s.base {
      Sender.BytesBelowNone(s.unacked, n);
    } else {
      InFlightBytes(s, segs, n - 1);
      assert segs[s.base..n][..n - 1 - s.base] == segs[s.base..n - 1];
    }
  }

  /** Acknowledged, in flight and queued are three consecutive parts of the stream `segs`. */
  ghost predicate ThreeParts(s: Sender.State, segs: seq<Packet>) {
    var sent := s.base + |s.unacked|;
    && sent <= |segs| == s.nextSeq
    && (forall q :: q in s.unacked <==> s.base <= q < sent)
    && (forall q :: q in s.unacked ==> s.unacked[q].packet == segs[q])
    && s.queue == segs[sent..]
    && s.inflightBytes == TotalLength(segs[s.base..sent])
    && (|s.unacked| == 0 ==> s.queue == [])
  }

  lemma PartitionedThreeParts(s: Sender.State, segs: seq<Packet>)
    requires Partitioned(s, segs) && NoStall(s)
    ensures ThreeParts(s, segs)
  {
    InFlightCount(s);
    InFlightBytes(s, segs, SW.Unsent(s));
  }

  /**
   In every run the stream is cut into three consecutive parts, the byte counter is the length of the
   middle one, and the middle one is empty only if the last one is empty too.
   */
  lemma WindowPartition(events: seq<Event>)
    ensures ThreeParts(Exec(events).sender, Exec(events).Segs())
  {
    ReachableInv(events);
    PartitionedThreeParts(Exec(events).sender, Exec(events).Segs());
  }

  /** The receiver never runs ahead of the sender, nor the sender's base ahead of the receiver. */
  lemma ExpectedWithinWindow(events: seq<Event>)
    ensures var s := Exec(events);
            s.sender.base <= s.Received().state.expected <= s.sender.base + |s.sender.unacked|
  {
    ReachableInv(events);
    InvReceived(Exec(events));
    InFlightCount(Exec(events).sender);
  }

  /** No acknowledgement in the network runs ahead of the receiver. */
  lemma AcksNeverAhead(events: seq<Event>, r: Receiver.Reply)
    requires r in Exec(events).Received().replies
    ensures r.ackNum <= Exec(events).Received().state.expected
  {
    RepliesBounded(Exec(events).arrivals, r);
  }

  /**
   Flow control is sound: the advertised window is never zero, and no segment that was ever sent, however
   late or often it arrives, falls beyond the receiver's window, so none has ever been dropped.
   */
  lemma NothingBeyondWindow(events: seq<Event>)
    ensures var s := Exec(events);
            var rcv := s.Received().state;
            && (forall p :: p in s.data ==> p.seqNum < rcv.expected + MAX_RWND)
            && (forall k :: k in rcv.ooo ==> rcv.expected < k < rcv.expected + MAX_RWND)
            && (forall r :: r in s.Received().replies ==> 1 <= r.rwnd <= MAX_RWND)
            && rcv.stats.drop == 0
  {
    ReachableInv(events);
    var s := Exec(events);
    RP.RunValid(s.arrivals);
    forall p | p in s.data
      ensures p.seqNum < s.Received().state.expected + MAX_RWND
    {
      assert Genuine(p, s.Segs(), SW.Unsent(s.sender));
    }
  }

  // ---- Progress --------------------------------------------------------------------------------------------

  /** While anything is unacknowledged, the packet at the window's base is in flight. */
  lemma BaseInFlight(s: System)
    requires Inv(s) && s.sender.base < s.sender.nextSeq
    ensures s.sender.base in s.sender.unacked && s.sender.unacked[s.sender.base].packet == s.Segs()[s.sender.base]
  {
    assert s.sender.base == SW.Unsent(s.sender) ==> s.sender.unacked == map[];
  }

  /** The reply to the segment at the window's base acknowledges it. */
  function BaseReply(s: System): Receiver.Reply
    requires s.sender.base < |s.Segs()|
  {
    Receiver.Process(s.Received().state, s.Segs()[s.sender.base]).1
  }

  /** The oldest packet times out, its retransmission is delivered, and so is the reply to it. */
  function Round(s: System, now: real): seq<Event>
    requires s.sender.base < |s.Segs()|
  {
    [Tick(now), DeliverData(s.Segs()[s.sender.base]), DeliverAck(BaseReply(s), now)]
  }

  lemma AfterTick(s: System, now: real)
    requires Inv(s) && s.sender.base < s.sender.nextSeq && Sender.Expired(s.sender, now)
    ensures var t := Next(s, Tick(now));
            && Inv(t) && t.messages == s.messages && t.arrivals == s.arrivals && t.sender.base == s.sender.base
            && s.Segs()[s.sender.base] in t.data
  {
    NextKeepsInv(s, Tick(now));
    BaseInFlight(s);
  }

  lemma AfterData(s: System)
    requires Inv(s) && s.sender.base < s.sender.nextSeq && s.Segs()[s.sender.base] in s.data
    ensures var t := Next(s, DeliverData(s.Segs()[s.sender.base]));
            && Inv(t) && t.messages == s.messages && t.sender == s.sender
            && BaseReply(s) in t.Received().replies && s.sender.base < BaseReply(s).ackNum
  {
    var p := s.Segs()[s.sender.base];
    NextKeepsInv(s, DeliverData(p));
    assert Genuine(p, s.Segs(), SW.Unsent(s.sender));
    StreamAt(s.messages, s.sender.base);
    RP.RunSnoc(s.arrivals, p);
    RP.ProcessAdvances(s.Received().state, p);
  }

  lemma AfterAck(s: System, r: Receiver.Reply, now: real)
    requires Inv(s) && r in s.Received().replies && s.sender.base < r.ackNum
    ensures var t := Next(s, DeliverAck(r, now));
            Inv(t) && t.messages == s.messages && s.sender.base < t.sender.base
  {
    NextKeepsInv(s, DeliverAck(r, now));
    RepliesBounded(s.arrivals, r);
    InvReceived(s);
    AckSound(s.sender, r.ackNum, r.rwnd, now, s.Segs());
  }

  /** Progress: one round strictly raises the window's base. */
  lemma RoundAdvances(s: System, now: real)
    requires Inv(s) && s.sender.base < s.sender.nextSeq && Sender.Expired(s.sender, now)
    ensures var t := Continue(s, Round(s, now));
            Inv(t) && t.messages == s.messages && s.sender.base < t.sender.base
  {
    var p, r := s.Segs()[s.sender.base], BaseReply(s);
    var s1 := Next(s, Tick(now));
    AfterTick(s, now);
    var s2 := Next(s1, DeliverData(p));
    AfterData(s1);
    var s3 := Next(s2, DeliverAck(r, now));
    AfterAck(s2, r, now);
    Runs.FoldThree(Next, s, Tick(now), DeliverData(p), DeliverAck(r, now));
  }

  // ---- A finite schedule always finishes ---------------------------------------------------------------------

  /** Events after time `t`, with a clock that never goes back and nothing new being sent. */
  predicate Patient(events: seq<Event>, t: real) {
    events == [] ||
    (match events[0]
     case Send(_, _) => false
     case DeliverData(_) => Patient(events[1..], t)
     case DeliverAck(_, now) => t <= now && Patient(events[1..], now)
     case Tick(now) => t <= now && Patient(events[1..], now))
  }

  lemma RoundPatient(s: System, t: real, now: real, rest: seq<Event>)
    requires s.sender.base < |s.Segs()| && t <= now && Patient(rest, now)
    ensures Patient(Round(s, now) + rest, t)
  {
    var es := Round(s, now) + rest;
    assert es[1..] == [es[1], es[2]] + rest;
    assert es[1..][1..] == [es[2]] + rest;
    assert es[1..][1..][1..] == rest;
  }

  /** From any state of the invariant, at most `nextSeq - base` rounds get everything acknowledged. */
  lemma {:induction false} RoundsSuffice(s: System, t: real) returns (events: seq<Event>)
    requires Inv(s)
    ensures Patient(events, t) && |events| <= 3 * (s.sender.nextSeq - s.sender.base)
    ensures var u := Continue(s, events);
            Inv(u) && u.messages == s.messages && u.sender.base == u.sender.nextSeq
    decreases s.sender.nextSeq - s.sender.base
  {
    if s.sender.base == s.sender.nextSeq {
      events := [];
    } else {
      BaseInFlight(s);
      var deadline := s.sender.unacked[s.sender.base].sentTime + s.sender.timer.rto;
      var now := if deadline <= t then t else deadline;
      RoundAdvances(s, now);
      var next := Continue(s, Round(s, now));
      var rest := RoundsSuffice(next, now);
      events := Round(s, now) + rest;
      RoundPatient(s, t, now, rest);
      Runs.FoldAppend(Next, s, Round(s, now), rest);
    }
  }

  /**
   Liveness: however badly a run has gone, and however late it is, some finite continuation in which
   nothing new is sent delivers every message sent so far, complete and in order.
   */
  lemma EverythingCanBeDelivered(before: seq<Event>, t: real) returns (after: seq<Event>)
    ensures Patient(after, t)
    ensures var s := Exec(before + after);
            s.messages == Exec(before).messages && s.Received().delivered == Payloads(s.messages)
  {
    ReachableInv(before);
    after := RoundsSuffice(Exec(before), t);
    Runs.FoldAppend(Next, INITIAL, before, after);
    AcknowledgedMeansDelivered(Exec(before + after));
  }

  lemma AcknowledgedMeansDelivered(s: System)
    requires Inv(s) && s.sender.base == s.sender.nextSeq
    ensures s.Received().delivered == Payloads(s.messages)
  {
    InvReceived(s);
    var j := InvDelivered(s);
    assert s.messages[..|s.messages|] == s.messages;
  }

  // ---- Every run of the system is a run of the sender ----------------------------------------------------------

  /** The sender sees a run in the sense of the sender's own theorems, with `data` as its log. */
  lemma {:induction false} SenderRun(events: seq<Event>) returns (ops: seq<SP.Op>)
    ensures SP.Run(MAX_RWND, ops) == SP.Trace(Exec(events).sender, Exec(events).data)
  {
    if events == [] {
      ops := [];
    } else {
      var init, e := events[..|events| - 1], events[|events| - 1];
      assert init + [e] == events;
      Runs.FoldSnoc(Next, INITIAL, init, e);
      ops := SenderRun(init);
      var op := OpOf(Exec(init), e);
      if op.Some? {
        assert (ops + [op.value])[..|ops|] == ops;
        ops := ops + [op.value];
      }
    }
  }

  function OpOf(s: System, e: Event): Option<SP.Op> {
    match e
    case Send(m, now) => Some(SP.Send(m, now))
    case DeliverData(_) => None
    case DeliverAck(r, now) => if r in s.Received().replies then Some(SP.Ack(r.ackNum, r.rwnd, now)) else None
    case Tick(now) => Some(SP.Tick(now))
  }
}
