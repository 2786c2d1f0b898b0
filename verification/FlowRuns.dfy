/** Two runs of the whole protocol that differ only in the order of deliveries and end in different watermark states. */
module FlowRuns {
  import opened Wire
  import opened Fragment
  import opened FlowOrder
  import opened Protocol
  import Congestion
  import PT = ProtocolTheorems
  import Ranges
  import Receiver
  import RP = ReceiverProofs
  import Runs
  import Sender
  import SP = SenderProofs
  import SW = SenderWindow

  // ---- What is in flight is on the wire ----------------------------------------------------------------------

  lemma {:induction false} CountedIsLogged(log: seq<Packet>, q: nat) returns (p: Packet)
    requires SW.Count(log, q) > 0
    ensures p in log && p.seqNum == q
  {
    var last := log[|log| - 1];
    if last.seqNum == q {
      p := last;
    } else {
      p := CountedIsLogged(log[..|log| - 1], q);
    }
  }

  lemma InFlightIsSent(events: seq<Event>, q: nat)
    requires q in Exec(events).sender.unacked
    ensures q < |Exec(events).Segs()| && Exec(events).Segs()[q] in Exec(events).data
  {
    var s := Exec(events);
    var ops := PT.SenderRun(events);
    SW.WindowInEveryRun(MAX_RWND, ops);
    assert SW.Marked(s.sender.unacked[q], SW.Count(s.data, q));
    var p := CountedIsLogged(s.data, q);
    ReachableInv(events);
    assert Genuine(p, s.Segs(), SW.Unsent(s.sender));
  }

  // ---- Repeating one acknowledgement opens the window ----------------------------------------------------------

  /** A sender that has been acknowledged up to `base` and nothing else since, but for `k` duplicates. */
  predicate Repeated(s: Sender.State, base: nat, k: nat) {
    && s.base == base && s.lastAck == base
    && s.control.dupAcks == k
    && (s.control.state == Congestion.FastRecovery <==> k >= 3)
  }

  lemma DuplicateRepeats(s: Sender.State, k: nat, rwnd: nat, now: real)
    requires Repeated(s, s.base, k)
    ensures var t := Sender.OnAck(s, s.base, rwnd, now).0;
            Repeated(t, s.base, k + 1) && t.peerRwnd == rwnd && t.nextSeq == s.nextSeq
  {
    SP.TrySendFrame(s.(peerRwnd := rwnd, control := Congestion.OnDupAck(s.control)), now);
  }

  /** The receiver has sent `r`, which the sender has seen `k` times since it last moved. */
  ghost predicate Repeating(s: System, r: Receiver.Reply, k: nat) {
    Inv(s) && r in s.Received().replies && Repeated(s.sender, r.ackNum, k)
  }

  lemma AckRepeats(s: System, r: Receiver.Reply, k: nat)
    requires Repeating(s, r, k)
    ensures var t := Next(s, DeliverAck(r, 0.0));
            Repeating(t, r, k + 1) && t.messages == s.messages && t.arrivals == s.arrivals
  {
    NextKeepsInv(s, DeliverAck(r, 0.0));
    DuplicateRepeats(s.sender, k, r.rwnd, 0.0);
  }

  lemma {:induction false} AcksRepeat(s: System, r: Receiver.Reply, k: nat) returns (events: seq<Event>, t: System)
    requires Repeating(s, r, 0)
    ensures t == Continue(s, events)
    ensures Repeating(t, r, k) && t.messages == s.messages && t.arrivals == s.arrivals
  {
    if k == 0 {
      events, t := [], s;
    } else {
      var before, u := AcksRepeat(s, r, k - 1);
      events, t := before + [DeliverAck(r, 0.0)], Next(u, DeliverAck(r, 0.0));
      Runs.FoldSnoc(Next, s, before, DeliverAck(r, 0.0));
      AckRepeats(u, r, k - 1);
    }
  }

  lemma WideWindow(s: Sender.State, k: nat)
    requires Congestion.Valid(s.control) && s.control.state == Congestion.FastRecovery && s.control.dupAcks >= 62
    requires s.peerRwnd == MAX_RWND && k <= 62
    ensures SW.Admits(s, k)
  {
    var extra := s.control.dupAcks as real;
    assert extra * Congestion.MSS >= 62.0 * Congestion.MSS;
  }

  /** One more duplicate when the window is wide: everything queued is sent, if it is less than a window. */
  lemma LastAckSendsAll(s: System, r: Receiver.Reply, k: nat)
    requires Repeating(s, r, k) && k >= 62 && r.rwnd == MAX_RWND && s.sender.nextSeq - s.sender.base < 62
    ensures Next(s, DeliverAck(r, 0.0)).sender.queue == []
  {
    AckRepeats(s, r, k);
    SW.AckGuarded(s.sender, r.ackNum, r.rwnd, 0.0);
    DuplicateRepeats(s.sender, k, r.rwnd, 0.0);
    var t := Next(s, DeliverAck(r, 0.0)).sender;
    InFlightCount(t);
    WideWindow(t, |t.unacked| + 1);
  }

  lemma AllSent(s: System, r: Receiver.Reply) returns (events: seq<Event>, t: System)
    requires Repeating(s, r, 0) && r.rwnd == MAX_RWND && s.sender.nextSeq - s.sender.base < 62
    ensures t == Continue(s, events)
    ensures Inv(t) && t.messages == s.messages && t.arrivals == s.arrivals
    ensures t.sender.base == s.sender.base && t.sender.queue == []
  {
    var before, u := AcksRepeat(s, r, 62);
    events, t := before + [DeliverAck(r, 0.0)], Next(u, DeliverAck(r, 0.0));
    Runs.FoldSnoc(Next, s, before, DeliverAck(r, 0.0));
    AckRepeats(u, r, 62);
    LastAckSendsAll(u, r, 62);
  }

  // ---- The opening: segment 0 is sent, delivered and acknowledged -----------------------------------------------

  lemma {:induction false} ChunkCount(data: Bytes, k: nat)
    requires k > 0 && |data| == k * MSS
    ensures |Chunks(data)| == k
    decreases k
  {
    if k > 1 {
      ChunkCount(data[MSS..], k - 1);
    }
  }

  /** The message whose segments are delivered: 55 of them. */
  ghost predicate Fitting(m: Message) {
    |m.data| == 55 * MSS
  }

  lemma StreamOfOne(m: Message)
    requires Fitting(m)
    ensures Stream([m]) == Fragments(m, 0) && |Stream([m])| == 55
  {
    StreamSnoc([], m);
    assert [] + [m] == [m];
    ChunkCount(m.data, 55);
  }

  lemma AfterSend(m: Message) returns (s: System)
    requires Fitting(m)
    ensures s == Exec([Send(m, 0.0)]) && Inv(s)
    ensures s.messages == [m] && s.arrivals == [] && s.Segs()[0] in s.data
    ensures s.sender.base == 0 && s.sender.control == Congestion.INITIAL
  {
    Runs.FoldSnoc(Next, INITIAL, [], Send(m, 0.0));
    s := Next(INITIAL, Send(m, 0.0));
    ReachableInv([]);
    ReachableInv([Send(m, 0.0)]);
    assert [] + [m] == [m] && [] + [Send(m, 0.0)] == [Send(m, 0.0)];
    SP.StepControls(INITIAL.sender, SP.Send(m, 0.0));
    StreamOfOne(m);
    PT.BaseInFlight(s);
    InFlightIsSent([Send(m, 0.0)], 0);
  }

  const FIRST_REPLY := Receiver.Reply(1, MAX_RWND)

  lemma FirstReply(p: Packet)
    requires p.seqNum == 0
    ensures Receiver.Process(Receiver.INITIAL, p).1 == FIRST_REPLY
  {
  }

  lemma AfterDelivery(s: System, p: Packet)
    requires Inv(s) && s.arrivals == [] && p in s.data && p.seqNum == 0
    ensures var t := Next(s, DeliverData(p));
            Inv(t) && t == s.(arrivals := [p]) && FIRST_REPLY in t.Received().replies
  {
    NextKeepsInv(s, DeliverData(p));
    FirstArrival(s.arrivals, p);
  }

  lemma FirstArrival(arrivals: seq<Packet>, p: Packet)
    requires arrivals == [] && p.seqNum == 0
    ensures arrivals + [p] == [p] && FIRST_REPLY in RP.Run(arrivals + [p]).replies
  {
    RP.RunSnoc(arrivals, p);
    FirstReply(p);
  }

  lemma AfterFirstAck(s: System)
    requires Inv(s) && FIRST_REPLY in s.Received().replies && s.sender.base == 0
        && s.sender.control == Congestion.INITIAL
    ensures var t := Next(s, DeliverAck(FIRST_REPLY, 0.0));
            Repeating(t, FIRST_REPLY, 0) && t.messages == s.messages && t.arrivals == s.arrivals
  {
    NextKeepsInv(s, DeliverAck(FIRST_REPLY, 0.0));
    SP.StepControls(s.sender, SP.Ack(1, MAX_RWND, 0.0));
    SP.TrySendFrame(Sender.Acknowledged(s.sender.(peerRwnd := MAX_RWND), 1, 0.0), 0.0);
  }

  lemma Opening(m: Message) returns (events: seq<Event>, t: System)
    requires Fitting(m)
    ensures t == Exec(events) && Repeating(t, FIRST_REPLY, 0)
    ensures t.messages == [m] && |t.Segs()| == 55 && t.arrivals == [t.Segs()[0]]
  {
    StreamOfOne(m);
    var s := AfterSend(m);
    var data, ack := DeliverData(s.Segs()[0]), DeliverAck(FIRST_REPLY, 0.0);
    StreamAt([m], 0);
    AfterDelivery(s, s.Segs()[0]);
    var u := Next(s, data);
    AfterFirstAck(u);
    events, t := [Send(m, 0.0)] + [data] + [ack], Next(u, ack);
    Runs.FoldSnoc(Next, INITIAL, [Send(m, 0.0)], data);
    Runs.FoldSnoc(Next, INITIAL, [Send(m, 0.0)] + [data], ack);
  }

  /** All 55 segments have been sent while only segment 0 has been delivered. */
  lemma EverythingInFlight(m: Message) returns (events: seq<Event>, t: System)
    requires Fitting(m)
    ensures t == Exec(events) && t.messages == [m] && |t.Segs()| == 55 && t.arrivals == [t.Segs()[0]]
    ensures forall q :: 0 <= q < 55 ==> t.Segs()[q] in t.data
  {
    var first, s := Opening(m);
    var more, u := AllSent(s, FIRST_REPLY);
    events, t := first + more, u;
    Runs.FoldAppend(Next, INITIAL, first, more);
    forall q | 0 <= q < 55
      ensures t.Segs()[q] in t.data
    {
      if q > 0 {
        InFlightIsSent(events, q);
      }
    }
  }

  // ---- The two orders of delivery ----------------------------------------------------------------------------------

  lemma {:induction false} Deliveries(s: System, ps: seq<Packet>) returns (events: seq<Event>)
    requires forall p :: p in ps ==> p in s.data
    ensures Continue(s, events) == s.(arrivals := s.arrivals + ps)
    decreases |ps|
  {
    if ps == [] {
      events := [];
      assert s.arrivals + [] == s.arrivals;
    } else {
      var init, p := ps[..|ps| - 1], ps[|ps| - 1];
      events := Deliveries(s, init);
      Runs.FoldSnoc(Next, s, events, DeliverData(p));
      events := events + [DeliverData(p)];
      assert p in s.data;
      assert s.arrivals + init + [p] == s.arrivals + ps;
    }
  }

  /** Segments that are numbered by their position. */
  predicate Positioned(segs: seq<Packet>) {
    |segs| == 55 && forall i :: 0 <= i < 55 ==> segs[i].seqNum == i
  }

  lemma SlicePart(segs: seq<Packet>, lo: nat, hi: nat, k: nat)
    requires Positioned(segs) && lo <= hi <= 55
    ensures k in Numbers(segs[lo..hi]) <==> lo <= k < hi
  {
    if lo <= k < hi {
      assert segs[lo..hi][k - lo] in segs[lo..hi];
    }
  }

  lemma SliceNumbers(segs: seq<Packet>, lo: nat, hi: nat)
    requires Positioned(segs) && lo <= hi <= 55
    ensures forall k :: k in Numbers(segs[lo..hi]) <==> lo <= k < hi
  {
    forall k: nat
      ensures k in Numbers(segs[lo..hi]) <==> lo <= k < hi
    {
      SlicePart(segs, lo, hi, k);
    }
  }

  lemma NumbersJoin(xs: seq<Packet>, ys: seq<Packet>)
    ensures Numbers(xs + ys) == Numbers(xs) + Numbers(ys)
  {
  }

  lemma AllCoherent(segs: seq<Packet>, ps: seq<Packet>)
    requires Positioned(segs) && forall p :: p in ps ==> p in segs
    ensures Coherent(ps)
  {
    assert forall p :: p in RP.SetOf(ps) ==> p in segs;
  }

  /** Segment 1 is held back, segment 34 lost. */
  function HeldBackOrder(segs: seq<Packet>): seq<Packet>
    requires |segs| == 55
  {
    segs[..1] + segs[2..34] + segs[35..]
  }

  lemma HeldBackNumbers(segs: seq<Packet>)
    requires Positioned(segs)
    ensures forall k :: k in Numbers(HeldBackOrder(segs)) <==> k == 0 || 2 <= k < 34 || 35 <= k < 55
  {
    assert segs[..1] == segs[0..1] && segs[35..] == segs[35..55];
    SliceNumbers(segs, 0, 1);
    SliceNumbers(segs, 2, 34);
    SliceNumbers(segs, 35, 55);
    NumbersJoin(segs[..1], segs[2..34]);
    NumbersJoin(segs[..1] + segs[2..34], segs[35..]);
  }

  lemma HeldBackCount(segs: seq<Packet>)
    requires Positioned(segs)
    ensures Gap(HeldBackOrder(segs), 1) && |Above(Numbers(HeldBackOrder(segs)), 1)| == 52
  {
    HeldBackNumbers(segs);
    var above := Above(Numbers(HeldBackOrder(segs)), 1);
    Ranges.ExactInterval(above + {34}, 2, 55);
    assert |above + {34}| == |above| + 1;
  }

  lemma HeldBackThrottles(segs: seq<Packet>)
    requires Positioned(segs)
    ensures RP.Run(HeldBackOrder(segs)).state.flow == Receiver.Throttle
  {
    var ps := HeldBackOrder(segs);
    AllCoherent(segs, ps);
    HeldBackCount(segs);
    BufferIs(ps, 1);
    RP.RunValid(ps);
  }

  lemma Numbers34(segs: seq<Packet>)
    requires Positioned(segs)
    ensures var numbers := Numbers(segs[..34] + segs[35..]);
            && (forall k :: k in numbers <==> 0 <= k < 34 || 35 <= k < 55)
            && |Above(numbers, 34)| == 20
  {
    assert segs[..34] == segs[0..34] && segs[35..] == segs[35..55];
    SliceNumbers(segs, 0, 34);
    SliceNumbers(segs, 35, 55);
    NumbersJoin(segs[..34], segs[35..]);
    Ranges.ExactInterval(Above(Numbers(segs[..34] + segs[35..]), 34), 35, 55);
  }

  lemma NumbersWithout34(segs: seq<Packet>, ps: seq<Packet>)
    requires Positioned(segs) && RP.SetOf(ps) == RP.SetOf(segs[..34] + segs[35..])
    ensures Coherent(ps) && Gap(ps, 34) && |Above(Numbers(ps), 34)| == 20
  {
    SameNumbers(ps, segs[..34] + segs[35..]);
    AllCoherent(segs, segs[..34] + segs[35..]);
    Numbers34(segs);
  }

  lemma SameSegments(segs: seq<Packet>)
    requires |segs| == 55
    ensures RP.SetOf(HeldBackOrder(segs) + [segs[1]]) == RP.SetOf(segs[..34] + segs[35..])
  {
    assert segs[..34] == segs[..1] + [segs[1]] + segs[2..34];
  }

  lemma ThrottledAtLast(segs: seq<Packet>)
    requires Positioned(segs)
    ensures RP.Run(HeldBackOrder(segs) + [segs[1]]).state.flow == Receiver.Throttle
  {
    var held := HeldBackOrder(segs);
    HeldBackThrottles(segs);
    SameSegments(segs);
    NumbersWithout34(segs, held + [segs[1]]);
    BufferIs(held + [segs[1]], 34);
    RP.RunSnoc(held, segs[1]);
    RP.RunValid(held);
    StepKeepsFlow(RP.Run(held).state, segs[1]);
  }

  lemma NormalInOrder(segs: seq<Packet>)
    requires Positioned(segs)
    ensures RP.Run(segs[..34] + segs[35..]).state.flow == Receiver.Normal
  {
    NumbersWithout34(segs, segs[..34] + segs[35..]);
    AllCoherent(segs, segs[..34]);
    HeadIsNormal(segs[..34], 34);
    TailStaysNormal(segs[..34], segs[35..], 34);
  }

  /**
   Any message of 55 times MSS bytes. The acknowledgement of segment 0, repeated by the network, opens the
   sender's window in fast recovery until everything is on its way. If then all but segments 1 and 34 arrive, and
   segment 1 after them, the receiver ends throttled; if the same segments arrive in order, it does not. The
   sender, the network and everything that has been sent are the same in both runs.
   */
  lemma FlowDependsOnOrder(m: Message) returns (xs: seq<Event>, ys: seq<Event>)
    requires Fitting(m)
    ensures Exec(xs).(arrivals := []) == Exec(ys).(arrivals := [])
    ensures RP.SetOf(Exec(xs).arrivals) == RP.SetOf(Exec(ys).arrivals)
    ensures Exec(xs).Received().state.flow == Receiver.Throttle
    ensures Exec(ys).Received().state.flow == Receiver.Normal
  {
    var events, t := EverythingInFlight(m);
    var segs := t.Segs();
    forall i | 0 <= i < 55
      ensures segs[i].seqNum == i
    {
      StreamAt([m], i);
    }
    var late, early := segs[2..34] + segs[35..] + [segs[1]], segs[1..34] + segs[35..];
    var more := Deliveries(t, late);
    var others := Deliveries(t, early);
    xs, ys := events + more, events + others;
    Runs.FoldAppend(Next, INITIAL, events, more);
    Runs.FoldAppend(Next, INITIAL, events, others);
    OrdersAre(segs);
    SameSegments(segs);
    ThrottledAtLast(segs);
    NormalInOrder(segs);
  }

  lemma OrdersAre(segs: seq<Packet>)
    requires |segs| == 55
    ensures [segs[0]] + (segs[2..34] + segs[35..] + [segs[1]]) == HeldBackOrder(segs) + [segs[1]]
    ensures [segs[0]] + (segs[1..34] + segs[35..]) == segs[..34] + segs[35..]
  {
  }
}
