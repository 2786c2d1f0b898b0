/**
 One sender and one receiver joined by a network that may drop, duplicate, delay and reorder data and
 acknowledgements alike: everything ever sent may be delivered any number of times, at any time, or
 never.
 */
module Protocol {
  import opened Wire
  import opened Fragment
  import Sender
  import Receiver
  import Ranges
  import Runs
  import Congestion
  import Rtt
  import SP = SenderProofs
  import SW = SenderWindow
  import RP = ReceiverProofs

  const MAX_RWND := Receiver.MAX_RWND

  /**
   `data` is every segment ever handed to the network and `arrivals` every delivery made to the receiver,
   in order; the receiver's state, the messages it delivered and the acknowledgements it sent are what it
   makes of `arrivals`.
   */
  datatype System = System(
    sender: Sender.State,
    data: seq<Packet>,
    arrivals: seq<Packet>,
    messages: seq<Message>)
  {
    function Received(): RP.History {
      RP.Run(arrivals)
    }

    function Segs(): seq<Packet> {
      Stream(messages)
    }
  }

  datatype Event =
    | Send(message: Message, now: real)
    | DeliverData(segment: Packet)
    | DeliverAck(ack: Receiver.Reply, now: real)
    | Tick(now: real)

  const INITIAL := System(Sender.Initial(MAX_RWND), [], [], [])

  /** A delivery of something never sent does not happen. */
  function Next(s: System, e: Event): System {
    match e
    case Send(m, now) =>
      var (t, sent) := Sender.Enqueue(s.sender, m, now);
      s.(sender := t, data := s.data + sent, messages := s.messages + [m])
    case DeliverData(p) =>
      if p in s.data then s.(arrivals := s.arrivals + [p]) else s
    case DeliverAck(r, now) =>
      if r in s.Received().replies then
        var (t, sent) := Sender.OnAck(s.sender, r.ackNum, r.rwnd, now);
        s.(sender := t, data := s.data + sent)
      else s
    case Tick(now) =>
      var (t, sent) := Sender.CheckTimeouts(s.sender, now);
      s.(sender := t, data := s.data + sent)
  }

  function Continue(s: System, events: seq<Event>): System {
    Runs.Fold(Next, s, events)
  }

  function Exec(events: seq<Event>): System {
    Continue(INITIAL, events)
  }

  // ---- The sender's half of the invariant ----------------------------------------------------------

  /** In flight is exactly `base .. Unsent`, at most a full window of it. */
  ghost predicate Contiguous(s: Sender.State) {
    && s.base <= SW.Unsent(s) <= s.base + MAX_RWND
    && (forall q :: q in s.unacked <==> s.base <= q < SW.Unsent(s))
  }

  /** What is in flight and what is queued are the segments of the stream. */
  predicate Faithful(s: Sender.State, segs: seq<Packet>) {
    && s.nextSeq == |segs| && 0 <= SW.Unsent(s)
    && s.queue == segs[SW.Unsent(s)..]
    && (forall q :: q in s.unacked ==> q < |segs| && s.unacked[q].packet == segs[q])
  }

  ghost predicate Partitioned(s: Sender.State, segs: seq<Packet>) {
    && SW.Numbered(s)
    && Contiguous(s)
    && Faithful(s, segs)
    && Congestion.Valid(s.control)
    && 1 <= s.peerRwnd <= MAX_RWND
  }

  /** Nothing in flight means nothing waiting. */
  predicate NoStall(s: Sender.State) {
    s.unacked == map[] ==> s.queue == []
  }

  /** `p` is the segment of the stream that its number says, and it has been transmitted. */
  predicate Genuine(p: Packet, segs: seq<Packet>, limit: int) {
    p.seqNum < limit && p.seqNum < |segs| && p == segs[p.seqNum]
  }

  lemma InFlightCount(s: Sender.State)
    requires Contiguous(s)
    ensures |s.unacked| == SW.Unsent(s) - s.base
  {
    Ranges.ExactInterval(s.unacked.Keys, s.base, SW.Unsent(s));
  }

  lemma LaunchedContiguous(s: Sender.State, t: Sender.State, sent: seq<Packet>, now: real)
    requires Contiguous(s) && SW.Launched(s, t, sent, now) && t.base == s.base && t.nextSeq == s.nextSeq
    requires sent != [] ==> |t.unacked| <= MAX_RWND
    ensures Contiguous(t)
  {
    assert SW.Unsent(t) == SW.Unsent(s) + |sent|;
    Ranges.ExactInterval(t.unacked.Keys, t.base, SW.Unsent(t));
  }

  lemma LaunchedFaithful(s: Sender.State, t: Sender.State, sent: seq<Packet>, now: real, segs: seq<Packet>)
    requires 0 <= SW.Unsent(s) && Faithful(s, segs) && SW.Launched(s, t, sent, now) && t.nextSeq == s.nextSeq
    ensures Faithful(t, segs)
  {
    var u := SW.Unsent(s);
    assert t.queue == segs[u + |sent|..];
    forall q | q in t.unacked
      ensures q < |segs| && t.unacked[q].packet == segs[q]
    {
      if q !in s.unacked {
        assert s.queue[q - u] == segs[q];
      }
    }
  }

  lemma LaunchedGenuine(s: Sender.State, t: Sender.State, sent: seq<Packet>, now: real, segs: seq<Packet>)
    requires SW.Numbered(s) && Faithful(s, segs) && SW.Launched(s, t, sent, now) && t.nextSeq == s.nextSeq
    ensures forall p :: p in sent ==> Genuine(p, segs, SW.Unsent(t))
  {
    var u := SW.Unsent(s);
    forall i | 0 <= i < |sent|
      ensures Genuine(sent[i], segs, SW.Unsent(t))
    {
      assert sent[i] == s.queue[i] == segs[u + i];
      assert SW.Slot(s.queue[i], u + i);
    }
  }

  lemma TrySendPartitioned(s: Sender.State, now: real, segs: seq<Packet>)
    requires Partitioned(s, segs)
    ensures var (t, sent) := Sender.TrySend(s, now);
            && Partitioned(t, segs) && NoStall(t)
            && t.base == s.base
            && SW.Unsent(s) <= SW.Unsent(t)
            && (forall p :: p in sent ==> Genuine(p, segs, SW.Unsent(t)))
  {
    var (t, sent) := Sender.TrySend(s, now);
    SP.TrySendFrame(s, now);
    SW.TrySendNumbered(s, now);
    SW.TrySendLaunches(s, now);
    SW.TrySendFillsWindow(s, now);
    LaunchedContiguous(s, t, sent, now);
    LaunchedFaithful(s, t, sent, now, segs);
    LaunchedGenuine(s, t, sent, now, segs);
    if t.unacked == map[] {
      assert sent == [] && s.unacked == map[];
    }
  }

  // ---- The sender's half: every operation keeps it ---------------------------------------------------

  /** What a sender operation guarantees: the window invariant again, and only genuine segments sent. */
  ghost predicate Sound(s: Sender.State, t: Sender.State, sent: seq<Packet>, segs: seq<Packet>) {
    && Partitioned(t, segs) && NoStall(t)
    && SW.Unsent(s) <= SW.Unsent(t)
    && (forall p :: p in sent ==> Genuine(p, segs, SW.Unsent(t)))
  }

  lemma SendSound(s: Sender.State, m: Message, now: real, segs: seq<Packet>)
    requires Partitioned(s, segs)
    ensures var (t, sent) := Sender.Enqueue(s, m, now);
            Sound(s, t, sent, segs + Fragments(m, |segs|)) && t.base == s.base
  {
    var q := Sender.Queued(s, m);
    SW.QueuedNumbered(s, m);
    assert q.queue == (segs + Fragments(m, |segs|))[SW.Unsent(q)..];
    TrySendPartitioned(q, now, segs + Fragments(m, |segs|));
  }

  lemma NewAckPartitioned(s: Sender.State, ack: nat, now: real, segs: seq<Packet>)
    requires Partitioned(s, segs) && s.base < ack <= SW.Unsent(s)
    ensures Partitioned(Sender.Acknowledged(s, ack, now), segs)
  {
    SW.AcknowledgedNumbered(s, ack, now);
    Congestion.NewAckKeepsValid(s.control);
  }

  lemma ResendSound(s: Sender.State, now: real, segs: seq<Packet>)
    requires Partitioned(s, segs) && NoStall(s)
    ensures var (t, sent) := Sender.Resend(s, now);
            Sound(s, t, sent, segs) && t.base == s.base
  {
    SW.ResendNumbered(s, now);
    if s.base in s.unacked {
      assert SW.Slot(s.unacked[s.base].packet, s.base);
    }
  }

  lemma NewAckSound(s: Sender.State, ack: nat, now: real, segs: seq<Packet>)
    requires Partitioned(s, segs) && s.base < ack <= SW.Unsent(s)
    ensures var (t, sent) := Sender.TrySend(Sender.Acknowledged(s, ack, now), now);
            Sound(s, t, sent, segs) && t.base == ack
  {
    NewAckPartitioned(s, ack, now, segs);
    TrySendPartitioned(Sender.Acknowledged(s, ack, now), now, segs);
  }

  lemma DupAckSound(s: Sender.State, now: real, segs: seq<Packet>)
    requires Partitioned(s, segs) && NoStall(s)
    ensures var (t, sent) := Sender.OnAck(s, s.base, s.peerRwnd, now);
            Sound(s, t, sent, segs) && t.base == s.base
  {
    var d := s.(control := Congestion.OnDupAck(s.control));
    Congestion.DupAckKeepsValid(s.control);
    assert Partitioned(d, segs) && NoStall(d);
    if Congestion.EntersRecovery(s.control) {
      ResendSound(d, now, segs);
    } else if Congestion.Inflates(s.control) {
      TrySendPartitioned(d, now, segs);
    }
  }

  lemma AckSound(s: Sender.State, ack: nat, rwnd: nat, now: real, segs: seq<Packet>)
    requires Partitioned(s, segs) && NoStall(s)
    requires ack <= SW.Unsent(s) && 1 <= rwnd <= MAX_RWND
    ensures var (t, sent) := Sender.OnAck(s, ack, rwnd, now);
            Sound(s, t, sent, segs) && t.base == if ack > s.base then ack else s.base
  {
    var w := s.(peerRwnd := rwnd);
    assert Partitioned(w, segs) && NoStall(w);
    if ack > s.base {
      NewAckSound(w, ack, now, segs);
    } else if ack == s.base {
      DupAckSound(w, now, segs);
    }
  }

  lemma TickSound(s: Sender.State, now: real, segs: seq<Packet>)
    requires Partitioned(s, segs) && NoStall(s)
    ensures var (t, sent) := Sender.CheckTimeouts(s, now);
            Sound(s, t, sent, segs) && t.base == s.base
  {
    Congestion.TimeoutKeepsValid(s.control);
    ResendSound(s.(control := Congestion.OnTimeout(s.control), timer := Rtt.Backoff(s.timer)), now, segs);
  }

  // ---- The receiver's half -----------------------------------------------------------------------------

  predicate AllGenuine(ps: seq<Packet>, segs: seq<Packet>, limit: int) {
    forall p :: p in ps ==> Genuine(p, segs, limit)
  }

  lemma {:induction false} AcceptedGenuine(arrivals: seq<Packet>, segs: seq<Packet>, limit: int)
    requires AllGenuine(arrivals, segs, limit)
    ensures forall k :: k in RP.AcceptAll(arrivals) ==> k < limit && k < |segs| && RP.AcceptAll(arrivals)[k] == segs[k]
  {
    if arrivals != [] {
      AcceptedGenuine(arrivals[..|arrivals| - 1], segs, limit);
      assert Genuine(arrivals[|arrivals| - 1], segs, limit);
    }
  }

  /** The receiver has assembled exactly the stream below the expected number, which was all transmitted. */
  lemma ReceivedIsPrefix(arrivals: seq<Packet>, segs: seq<Packet>, limit: nat)
    requires AllGenuine(arrivals, segs, limit) && limit <= |segs|
    ensures var h := RP.Run(arrivals);
            && h.state.expected <= limit
            && Assembly(h.delivered, h.state.assembly) == Assemble(segs[..h.state.expected])
            && (forall k :: k in h.state.ooo ==> h.state.expected < k < limit && h.state.ooo[k] == segs[k])
  {
    AcceptedGenuine(arrivals, segs, limit);
    RP.RunRefinesSet(arrivals);
    RP.RunValid(arrivals);
    var acc, e := RP.AcceptAll(arrivals), RP.Run(arrivals).state.expected;
    if e > 0 {
      assert e - 1 in acc;
    }
    assert RP.InOrder(acc, e) == segs[..e];
  }

  /** Every acknowledgement ever sent names at most the number now expected, and offers a window. */
  lemma RepliesBounded(arrivals: seq<Packet>, r: Receiver.Reply)
    requires r in RP.Run(arrivals).replies
    ensures r.ackNum <= RP.Run(arrivals).state.expected && 1 <= r.rwnd <= MAX_RWND
  {
    RP.RunValid(arrivals);
    RP.ReplyCount(arrivals);
    var i :| 0 <= i < |arrivals| && RP.Run(arrivals).replies[i] == r;
    RP.RepliesAreLeast(arrivals, i);
    RP.LeastMonotone(arrivals, i + 1);
    RP.RunRefinesSet(arrivals);
  }

  /** One more arrival. */
  lemma ArrivalAdvances(arrivals: seq<Packet>, p: Packet)
    ensures var h, h' := RP.Run(arrivals), RP.Run(arrivals + [p]);
            && h.state.expected <= h'.state.expected
            && (p.seqNum < h.state.expected + MAX_RWND ==> h'.state.stats.drop == h.state.stats.drop)
            && (p.seqNum == h.state.expected ==> h.state.expected < h'.state.expected)
            && h.delivered <= h'.delivered
            && |h'.replies| == |h.replies| + 1 && h'.replies[|h.replies|].ackNum == h'.state.expected
  {
    RP.RunSnoc(arrivals, p);
    RP.ProcessAdvances(RP.Run(arrivals).state, p);
  }

  // ---- The whole system ----------------------------------------------------------------------------------

  ghost predicate Inv(s: System) {
    && Partitioned(s.sender, s.Segs()) && NoStall(s.sender)
    && AllGenuine(s.data, s.Segs(), SW.Unsent(s.sender))
    && (forall p :: p in s.arrivals ==> p in s.data)
    && s.sender.base <= s.Received().state.expected
    && s.Received().state.stats.drop == 0
  }

  lemma InvReceived(s: System)
    requires Inv(s)
    ensures var h := s.Received();
            && h.state.expected <= SW.Unsent(s.sender)
            && Assembly(h.delivered, h.state.assembly) == Assemble(s.Segs()[..h.state.expected])
            && (forall k :: k in h.state.ooo ==>
                  h.state.expected < k < SW.Unsent(s.sender) && h.state.ooo[k] == s.Segs()[k])
  {
    assert AllGenuine(s.arrivals, s.Segs(), SW.Unsent(s.sender));
    ReceivedIsPrefix(s.arrivals, s.Segs(), SW.Unsent(s.sender));
  }

  /** A sender operation that leaves the receiver alone keeps the invariant. */
  lemma SenderStepKeepsInv(s: System, t: Sender.State, sent: seq<Packet>)
    requires Inv(s) && Sound(s.sender, t, sent, s.Segs()) && t.base <= s.Received().state.expected
    ensures Inv(s.(sender := t, data := s.data + sent))
  {
    var s' := s.(sender := t, data := s.data + sent);
    forall p | p in s'.data
      ensures Genuine(p, s.Segs(), SW.Unsent(t))
    {
      if p in s.data {
        assert Genuine(p, s.Segs(), SW.Unsent(s.sender));
      }
    }
  }

  lemma StreamSnoc(ms: seq<Message>, m: Message)
    ensures Stream(ms + [m]) == Stream(ms) + Fragments(m, |Stream(ms)|)
  {
    assert (ms + [m])[..|ms|] == ms;
  }

  lemma SendKeepsInv(s: System, m: Message, now: real)
    requires Inv(s)
    ensures Inv(Next(s, Send(m, now)))
  {
    StreamSnoc(s.messages, m);
    SendSound(s.sender, m, now, s.Segs());
    var s' := Next(s, Send(m, now));
    forall p | p in s'.data
      ensures Genuine(p, s'.Segs(), SW.Unsent(s'.sender))
    {
      if p in s.data {
        assert Genuine(p, s.Segs(), SW.Unsent(s.sender));
      }
    }
  }

  lemma DataKeepsInv(s: System, p: Packet)
    requires Inv(s)
    ensures Inv(Next(s, DeliverData(p)))
  {
    if p in s.data {
      assert Genuine(p, s.Segs(), SW.Unsent(s.sender));
      ArrivalAdvances(s.arrivals, p);
    }
  }

  lemma AckKeepsInv(s: System, r: Receiver.Reply, now: real)
    requires Inv(s)
    ensures Inv(Next(s, DeliverAck(r, now)))
  {
    if r in s.Received().replies {
      RepliesBounded(s.arrivals, r);
      InvReceived(s);
      AckSound(s.sender, r.ackNum, r.rwnd, now, s.Segs());
      var (t, sent) := Sender.OnAck(s.sender, r.ackNum, r.rwnd, now);
      SenderStepKeepsInv(s, t, sent);
    }
  }

  lemma TickKeepsInv(s: System, now: real)
    requires Inv(s)
    ensures Inv(Next(s, Tick(now)))
  {
    TickSound(s.sender, now, s.Segs());
    var (t, sent) := Sender.CheckTimeouts(s.sender, now);
    SenderStepKeepsInv(s, t, sent);
  }

  lemma NextKeepsInv(s: System, e: Event)
    requires Inv(s)
    ensures Inv(Next(s, e))
  {
    match e {
      case Send(m, now) => SendKeepsInv(s, m, now);
      case DeliverData(p) => DataKeepsInv(s, p);
      case DeliverAck(r, now) => AckKeepsInv(s, r, now);
      case Tick(now) => TickKeepsInv(s, now);
    }
  }

  lemma {:induction false} ContinueKeepsInv(s: System, events: seq<Event>)
    requires Inv(s)
    ensures Inv(Continue(s, events))
    decreases |events|
  {
    if events != [] {
      NextKeepsInv(s, events[0]);
      ContinueKeepsInv(Next(s, events[0]), events[1..]);
    }
  }

  lemma ReachableInv(events: seq<Event>)
    ensures Inv(Exec(events))
  {
    Congestion.Quotient(1.0);
    ContinueKeepsInv(INITIAL, events);
  }
}
