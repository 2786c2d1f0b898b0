/** From every run over the wire, everything can still be delivered in both directions, if it can be packed. */
module DuplexProgress {
  import opened Wire
  import opened Fragment
  import opened Connection
  import opened ConnectionProofs
  import opened Duplex
  import P = Protocol
  import PT = ProtocolTheorems
  import Receiver
  import RP = ReceiverProofs
  import Runs
  import Sender
  import SW = SenderWindow

  // ---- Schedules ------------------------------------------------------------------------------------------------

  function TimeOf(e: Event): real {
    e.local.now
  }

  /** Nothing new is submitted, and the clock runs from `t` to `u` without going back. */
  predicate Calm(events: seq<Event>, t: real, u: real)
    decreases |events|
  {
    if events == [] then t <= u
    else !events[0].local.Submit? && t <= TimeOf(events[0]) && Calm(events[1..], TimeOf(events[0]), u)
  }

  lemma {:induction false} CalmJoin(xs: seq<Event>, ys: seq<Event>, t: real, u: real, v: real)
    requires Calm(xs, t, u) && Calm(ys, u, v)
    ensures Calm(xs + ys, t, v)
    decreases |xs|
  {
    if xs == [] {
      assert xs + ys == ys;
      if ys != [] {
        assert Calm(ys[1..], TimeOf(ys[0]), v);
      }
    } else {
      CalmJoin(xs[1..], ys, TimeOf(xs[0]), u, v);
      assert (xs + ys)[1..] == xs[1..] + ys;
    }
  }

  function Flipped(e: Event): Event {
    e.(atA := !e.atA)
  }

  function Flip(events: seq<Event>): seq<Event> {
    if events == [] then [] else [Flipped(events[0])] + Flip(events[1..])
  }

  lemma {:induction false} FlipCalm(events: seq<Event>, t: real, u: real)
    requires Calm(events, t, u)
    ensures Calm(Flip(events), t, u)
    decreases |events|
  {
    if events != [] {
      FlipCalm(events[1..], TimeOf(events[0]), u);
    }
  }

  lemma FlipNext(l: Link, e: Event)
    ensures Next(Swap(l), Flipped(e)) == Swap(Next(l, e))
  {
    assert Swap(Swap(l)) == l;
    assert Swap(Swap(AtA(Swap(l), e.local))) == AtA(Swap(l), e.local);
  }

  lemma {:induction false} FlipRun(l: Link, events: seq<Event>)
    ensures Runs.Fold(Next, Swap(l), Flip(events)) == Swap(Runs.Fold(Next, l, events))
    decreases |events|
  {
    if events != [] {
      FlipNext(l, events[0]);
      FlipRun(Next(l, events[0]), events[1..]);
    }
  }

  // ---- A side is down exactly when it has taken all sequence numbers there are ------------------------------

  predicate Sane(l: Link) {
    Spent(l.a, l.downA) && Spent(l.b, l.downB)
  }

  lemma AtASane(l: Link, e: Local)
    requires Sane(l)
    ensures Sane(AtA(l, e))
  {
    if e.Arrive? && e.datagram in l.toA && !l.downA {
      RaisesAtLimit(l.a, Damaged(e.datagram, e.damage), e.now);
    }
  }

  lemma {:induction false} FoldSane(l: Link, events: seq<Event>)
    requires Sane(l)
    ensures Sane(Runs.Fold(Next, l, events))
    decreases |events|
  {
    if events != [] {
      var e := events[0];
      AtASane(if e.atA then l else Swap(l), e.local);
      FoldSane(Next(l, e), events[1..]);
    }
  }

  /** In every run, an exception has left a side's receive loop exactly if that side has taken 2^32 segments. */
  lemma DownIff(events: seq<Event>)
    ensures Exec(events).downA <==> Exec(events).a.receiver.expected >= LIMIT
    ensures Exec(events).downB <==> Exec(events).b.receiver.expected >= LIMIT
  {
    FoldSane(INITIAL, events);
  }

  /** So nobody goes down while both streams are shorter than that. */
  lemma ShortStreamsStayUp(events: seq<Event>)
    requires |Stream(Exec(events).sentA)| < LIMIT && |Stream(Exec(events).sentB)| < LIMIT
    ensures !Exec(events).downA && !Exec(events).downB
  {
    DownIff(events);
    var xs, ys := EveryRunSimulated(events);
    P.InvReceived(P.Exec(xs));
    P.InvReceived(P.Exec(ys));
  }

  // ---- One round from A to B ----------------------------------------------------------------------------------------

  lemma EncodeOne(p: Packet)
    requires Fits(p)
    ensures Encode([p]) == [Pack(p).value]
  {
    assert [p][..0] == [];
  }

  /** The oldest packet times out at A and its datagram is on the wire. */
  lemma TickStep(l: Link, ab: P.System, ba: P.System, now: real)
    requires Simulates(l, ab, ba) && ab.sender.base < ab.sender.nextSeq && Sender.Expired(ab.sender, now)
    requires Fits(ab.Segs()[ab.sender.base]) && !l.downA
    ensures var l' := Next(l, Event(true, Clock(now)));
            && l'.downA == l.downA && l'.downB == l.downB
            && Simulates(l', P.Next(ab, P.Tick(now)), ba) && Pack(ab.Segs()[ab.sender.base]).value in l'.toB
  {
    ClockSimulated(l, ab, ba, now);
    PT.BaseInFlight(ab);
    EncodeOne(ab.Segs()[ab.sender.base]);
  }

  /** A segment on the wire arrives at B, whose reply is on the wire then. */
  lemma DataStep(l: Link, ab: P.System, ba: P.System, p: Packet, now: real)
    requires Simulates(l, ab, ba) && p in ab.data && Fits(p) && Pack(p).value in l.toB && !l.downB
    ensures var l' := Next(l, Event(false, Arrive(Pack(p).value, None, now)));
            var reply := AckPacket(Receiver.Process(ab.Received().state, p).1);
            && l'.downA == l.downA
            && Simulates(l', P.Next(ab, P.DeliverData(p)), ba)
            && (Fits(reply) ==> Pack(reply).value in l'.toA)
  {
    SegmentTaken(Swap(l), ba, ab, p, Pack(p).value, now);
    SegmentUnpacks(ab, p, Pack(p).value);
    ReplySent(l, p, Pack(p).value, now);
  }

  lemma ReplySent(l: Link, p: Packet, d: Bytes, now: real)
    requires Unpack(d) == Ok(p) && !p.IsAck() && p.HasData() && d in l.toB && !l.downB
    ensures Next(l, Event(false, Arrive(d, None, now))) == Swap(Taken(Swap(l), d, now))
    ensures var reply := AckPacket(Receiver.Process(l.b.receiver, p).1);
            Fits(reply) ==> Pack(reply).value in Taken(Swap(l), d, now).toB
  {
    SegmentHandled(l.b, p, d, now);
    var reply := AckPacket(Receiver.Process(l.b.receiver, p).1);
    if Fits(reply) {
      EncodeOne(reply);
    }
  }

  /** A reply on the wire arrives at A and moves its base. */
  lemma AckStep(l: Link, ab: P.System, ba: P.System, r: Receiver.Reply, now: real) returns (ack: Event, ab': P.System)
    requires Simulates(l, ab, ba) && r in ab.Received().replies && Fits(AckPacket(r))
        && Pack(AckPacket(r)).value in l.toA
    requires ab.sender.base < r.ackNum && !l.downA
    ensures ack.local.Arrive? && TimeOf(ack) == now && Simulates(Next(l, ack), ab', ba) && !Next(l, ack).downA
    ensures ab'.messages == ab.messages && ab'.sender.base > ab.sender.base
  {
    ack, ab' := Event(true, Arrive(Pack(AckPacket(r)).value, None, now)), P.Next(ab, P.DeliverAck(r, now));
    AckTaken(l, ab, ba, r, Pack(AckPacket(r)).value, now);
    AckUnpacks(r, Pack(AckPacket(r)).value);
    AckHandled(l.a, r, Pack(AckPacket(r)).value, now);
    PT.AfterAck(ab, r, now);
  }

  /** A reply that does not fit the layout acknowledges the whole stream. */
  lemma UnpackableReply(s: P.System, r: Receiver.Reply)
    requires P.Inv(s) && AllFit(s.Segs()) && r in s.Received().replies && !Fits(AckPacket(r))
    ensures s.Received().state.expected == |s.Segs()|
  {
    P.RepliesBounded(s.arrivals, r);
    P.InvReceived(s);
    FewerThanLimit(s);
  }

  /** Timeout at A and arrival of the retransmission at B; the reply is on the wire if it fits. */
  lemma Retransmission(l: Link, ab: P.System, ba: P.System, now: real) returns (events: seq<Event>, ab': P.System)
    requires Simulates(l, ab, ba) && AllFit(ab.Segs()) && !l.downA && !l.downB
    requires ab.sender.base < ab.sender.nextSeq && Sender.Expired(ab.sender, now)
    ensures Simulates(Runs.Fold(Next, l, events), ab', ba) && !Runs.Fold(Next, l, events).downA
    ensures ab'.messages == ab.messages && ab'.sender.base == ab.sender.base
    ensures PT.BaseReply(ab) in ab'.Received().replies && ab.sender.base < PT.BaseReply(ab).ackNum
    ensures var reply := AckPacket(PT.BaseReply(ab));
            Fits(reply) ==> Pack(reply).value in Runs.Fold(Next, l, events).toA
    ensures Calm(events, now, now)
  {
    var p := ab.Segs()[ab.sender.base];
    assert p in ab.Segs();
    var tick, data := Event(true, Clock(now)), Event(false, Arrive(Pack(p).value, None, now));
    TickStep(l, ab, ba, now);
    PT.AfterTick(ab, now);
    var l1, ab1 := Next(l, tick), P.Next(ab, P.Tick(now));
    DataStep(l1, ab1, ba, p, now);
    PT.AfterData(ab1);
    events, ab' := [tick, data], P.Next(ab1, P.DeliverData(p));
    FoldTwo(l, tick, data);
    CalmTwo(tick, data, now);
  }

  lemma FoldTwo(l: Link, a: Event, b: Event)
    ensures Runs.Fold(Next, l, [a, b]) == Next(Next(l, a), b)
  {
    Runs.FoldSnoc(Next, l, [], a);
    Runs.FoldSnoc(Next, l, [a], b);
  }

  lemma CalmOne(a: Event, now: real)
    requires !a.local.Submit? && TimeOf(a) == now
    ensures Calm([a], now, now)
  {
    assert [a][1..] == [];
  }

  lemma CalmTwo(a: Event, b: Event, now: real)
    requires !a.local.Submit? && !b.local.Submit? && TimeOf(a) == now && TimeOf(b) == now
    ensures Calm([a, b], now, now)
  {
    assert [a, b][1..] == [b];
    CalmOne(b, now);
  }

  /** One round: unless the reply cannot be packed, which means that B has everything, A's base moves on. */
  lemma Round(l: Link, ab: P.System, ba: P.System, now: real) returns (events: seq<Event>, ab': P.System)
    requires Simulates(l, ab, ba) && AllFit(ab.Segs()) && !l.downA && !l.downB
    requires ab.sender.base < ab.sender.nextSeq && Sender.Expired(ab.sender, now)
    ensures !Runs.Fold(Next, l, events).downA
    ensures Simulates(Runs.Fold(Next, l, events), ab', ba) && ab'.messages == ab.messages
    ensures ab'.sender.base > ab.sender.base || ab'.Received().state.expected == |ab.Segs()|
    ensures Calm(events, now, now)
  {
    var r := PT.BaseReply(ab);
    events, ab' := Retransmission(l, ab, ba, now);
    if Fits(AckPacket(r)) {
      var ack;
      ack, ab' := AckStep(Runs.Fold(Next, l, events), ab', ba, r, now);
      Runs.FoldSnoc(Next, l, events, ack);
      CalmOne(ack, now);
      CalmJoin(events, [ack], now, now, now);
      events := events + [ack];
    } else {
      UnpackableReply(ab', r);
    }
  }

  /** A stream whose segments all fit is no longer than the sequence number space. */
  lemma FewerThanLimit(s: P.System)
    requires AllFit(s.Segs())
    ensures |s.Segs()| <= LIMIT
  {
    if s.Segs() != [] {
      var last := |s.Segs()| - 1;
      StreamAt(s.messages, last);
      assert s.Segs()[last] in s.Segs();
    }
  }

  /** Rounds until B has the whole stream; nothing happens to the other direction. */
  lemma {:induction false} RoundsFinish(l: Link, ab: P.System, ba: P.System, t: real)
    returns (events: seq<Event>, u: real, ab': P.System)
    requires Simulates(l, ab, ba) && AllFit(ab.Segs()) && Sane(l) && !l.downA
    ensures Calm(events, t, u)
    ensures Simulates(Runs.Fold(Next, l, events), ab', ba) && !Runs.Fold(Next, l, events).downA
    ensures ab'.messages == ab.messages && ab'.Received().state.expected == |ab.Segs()|
    decreases ab.sender.nextSeq - ab.sender.base
  {
    P.InvReceived(ab);
    if ab.Received().state.expected == |ab.Segs()| {
      events, u, ab' := [], t, ab;
    } else {
      PT.BaseInFlight(ab);
      var deadline := ab.sender.unacked[ab.sender.base].sentTime + ab.sender.timer.rto;
      var now := if deadline <= t then t else deadline;
      FewerThanLimit(ab);
      var first, mid := Round(l, ab, ba, now);
      var l' := Runs.Fold(Next, l, first);
      FoldSane(l, first);
      if mid.Received().state.expected == |ab.Segs()| {
        events, u, ab' := first, now, mid;
        CalmLater(events, t, now, u);
      } else {
        var rest;
        rest, u, ab' := RoundsFinish(l', mid, ba, now);
        events := first + rest;
        Runs.FoldAppend(Next, l, first, rest);
        CalmLater(first, t, now, now);
        CalmJoin(first, rest, t, now, u);
      }
    }
  }

  lemma CalmLater(events: seq<Event>, t: real, now: real, u: real)
    requires t <= now && Calm(events, now, u)
    ensures Calm(events, t, u)
  {
  }

  // ---- What fits --------------------------------------------------------------------------------------------

  /** The greatest length of which the last segment's offset fits 32 bits. */
  const MAX_MESSAGE: nat := 3_579_140 * MSS

  predicate MessageFits(m: Message) {
    m.msgId < LIMIT && |m.data| <= MAX_MESSAGE
  }

  predicate MessagesFit(ms: seq<Message>) {
    forall i :: 0 <= i < |ms| ==> MessageFits(ms[i])
  }

  /** Chunk `k` exists exactly if the data reaches beyond it, and it starts at `k` times MSS. */
  lemma {:induction false} ChunkStart(data: Bytes, k: nat)
    ensures k < |Chunks(data)| <==> k == 0 || |data| > k * MSS
    ensures k < |Chunks(data)| ==> |Join(Chunks(data)[..k])| == k * MSS
    decreases k
  {
    if k > 0 && |data| > MSS {
      ChunkStart(data[MSS..], k - 1);
      if k < |Chunks(data)| {
        assert Chunks(data)[..k][1..] == Chunks(data[MSS..])[..k - 1];
      }
    }
  }

  lemma FragmentFitsIff(m: Message, seqNum: nat, k: nat)
    requires k < |Fragments(m, seqNum)|
    ensures Fits(Fragments(m, seqNum)[k]) <==> seqNum + k < LIMIT && m.msgId < LIMIT && k * MSS < LIMIT
  {
    ChunkStart(m.data, k);
    SegmentsAt(Chunks(m.data), m.msgId, seqNum, 0, k);
  }

  /** The segment of the stream that is segment `k` of message `j`. */
  lemma StreamFragment(ms: seq<Message>, j: nat, k: nat)
    requires j < |ms| && k < |Fragments(ms[j], |Stream(ms[..j])|)|
    ensures var start := |Stream(ms[..j])|;
            start + k < |Stream(ms)| && Stream(ms)[start + k] == Fragments(ms[j], start)[k]
  {
    StreamSplit(ms, j);
    StreamPrefix(ms, j + 1);
  }

  lemma FittingStream(ms: seq<Message>)
    requires AllFit(Stream(ms))
    ensures |Stream(ms)| <= LIMIT && MessagesFit(ms)
  {
    if Stream(ms) != [] {
      var last := |Stream(ms)| - 1;
      StreamAt(ms, last);
      assert Stream(ms)[last] in Stream(ms);
    }
    forall j | 0 <= j < |ms|
      ensures MessageFits(ms[j])
    {
      var start := |Stream(ms[..j])|;
      var k := if |ms[j].data| > MAX_MESSAGE then 3_579_140 else 0;
      ChunkStart(ms[j].data, k);
      StreamFragment(ms, j, k);
      assert Stream(ms)[start + k] in Stream(ms);
      FragmentFitsIff(ms[j], start, k);
    }
  }

  lemma FragmentFits(m: Message, seqNum: nat, k: nat)
    requires MessageFits(m) && k < |Fragments(m, seqNum)| && seqNum + k < LIMIT
    ensures Fits(Fragments(m, seqNum)[k])
  {
    ChunkStart(m.data, k);
    FragmentFitsIff(m, seqNum, k);
  }

  lemma SegmentFits(ms: seq<Message>, i: nat)
    requires i < |Stream(ms)| <= LIMIT && MessagesFit(ms)
    ensures Fits(Stream(ms)[i])
  {
    assert ms[..|ms|] == ms;
    var j := Owner(ms, i, |ms|);
    var start := |Stream(ms[..j])|;
    StreamSplit(ms, j);
    StreamFragment(ms, j, i - start);
    FragmentFits(ms[j], start, i - start);
  }

  lemma FittingMessages(ms: seq<Message>)
    requires |Stream(ms)| <= LIMIT && MessagesFit(ms)
    ensures AllFit(Stream(ms))
  {
    forall i | 0 <= i < |Stream(ms)|
      ensures Fits(Stream(ms)[i])
    {
      SegmentFits(ms, i);
    }
  }

  /** The packet layout holds a stream exactly if it has at most 2^32 segments and every message fits. */
  lemma FitsIff(ms: seq<Message>)
    ensures AllFit(Stream(ms)) <==> |Stream(ms)| <= LIMIT && MessagesFit(ms)
  {
    if AllFit(Stream(ms)) {
      FittingStream(ms);
    } else if |Stream(ms)| <= LIMIT && MessagesFit(ms) {
      FittingMessages(ms);
    }
  }

  // ---- Both directions --------------------------------------------------------------------------------------

  /** Both applications have everything that the other one sent. */
  predicate AllDelivered(l: Link) {
    l.gotB == Payloads(l.sentA) && l.gotA == Payloads(l.sentB)
  }

  /** Every message of both directions fits the packet layout. */
  predicate Packable(l: Link) {
    MessagesFit(l.sentA) && MessagesFit(l.sentB)
  }

  /** Both streams are shorter than the sequence number space. */
  predicate Short(l: Link) {
    |Stream(l.sentA)| < LIMIT && |Stream(l.sentB)| < LIMIT
  }

  lemma WholeStreamDelivered(s: P.System)
    requires P.Inv(s) && s.Received().state.expected == |s.Segs()|
    ensures s.Received().delivered == Payloads(s.messages)
  {
    P.InvReceived(s);
    AssembleStream(s.messages);
    assert s.Segs()[..|s.Segs()|] == s.Segs();
  }

  /** However badly the run has gone, a finite continuation without new messages delivers everything. */
  lemma EverythingArrives(before: seq<Event>, t: real) returns (after: seq<Event>, u: real)
    requires Short(Exec(before)) && Packable(Exec(before))
    ensures Calm(after, t, u) && AllDelivered(Exec(before + after))
    ensures Exec(before + after).sentA == Exec(before).sentA && Exec(before + after).sentB == Exec(before).sentB
  {
    var l := Exec(before);
    FittingMessages(l.sentA);
    FittingMessages(l.sentB);
    ShortStreamsStayUp(before);
    FoldSane(INITIAL, before);
    var xs, ys := EveryRunSimulated(before);
    var ab, ba := P.Exec(xs), P.Exec(ys);
    var first, mid, ab' := RoundsFinish(l, ab, ba, t);
    var l1 := Runs.Fold(Next, l, first);
    FoldSane(l, first);
    var second, end, ba' := RoundsFinish(Swap(l1), ba, ab', mid);
    after, u := first + Flip(second), end;
    Joined(l, first, second, t, mid, end);
    Runs.FoldAppend(Next, INITIAL, before, after);
    WholeStreamDelivered(ab');
    WholeStreamDelivered(ba');
  }

  lemma Joined(l: Link, first: seq<Event>, second: seq<Event>, t: real, mid: real, end: real)
    requires Calm(first, t, mid) && Calm(second, mid, end)
    ensures Calm(first + Flip(second), t, end)
    ensures Runs.Fold(Next, l, first + Flip(second)) == Swap(Runs.Fold(Next, Swap(Runs.Fold(Next, l, first)), second))
  {
    var l1 := Runs.Fold(Next, l, first);
    FlipRun(Swap(l1), second);
    assert Swap(Swap(l1)) == l1;
    FlipCalm(second, mid, end);
    CalmJoin(first, Flip(second), t, mid, end);
    Runs.FoldAppend(Next, l, first, Flip(second));
  }

  // ---- ... and only then ------------------------------------------------------------------------------------

  lemma {:induction false} AcceptedArrived(arrivals: seq<Packet>, k: nat)
    requires k in RP.AcceptAll(arrivals)
    ensures RP.AcceptAll(arrivals)[k] in arrivals
  {
    var init := arrivals[..|arrivals| - 1];
    if k in RP.AcceptAll(init) {
      AcceptedArrived(init, k);
    }
  }

  /** What has been delivered completely has been packed. */
  lemma DeliveredWasPacked(s: P.System)
    requires P.Inv(s) && AllFit(s.arrivals) && s.Received().delivered == Payloads(s.messages)
    ensures AllFit(s.Segs())
  {
    var j := PT.InvDelivered(s);
    assert |Payloads(s.messages[..j])| == j;
    RP.RunRefinesSet(s.arrivals);
    P.AcceptedGenuine(s.arrivals, s.Segs(), SW.Unsent(s.sender));
    forall p | p in s.Segs()
      ensures Fits(p)
    {
      var k :| 0 <= k < |s.Segs()| && s.Segs()[k] == p;
      assert k in RP.AcceptAll(s.arrivals);
      AcceptedArrived(s.arrivals, k);
    }
  }

  lemma {:induction false} CalmKeepsSent(l: Link, events: seq<Event>, t: real, u: real)
    requires Calm(events, t, u)
    ensures Runs.Fold(Next, l, events).sentA == l.sentA && Runs.Fold(Next, l, events).sentB == l.sentB
    decreases |events|
  {
    if events != [] {
      CalmKeepsSent(Next(l, events[0]), events[1..], TimeOf(events[0]), u);
    }
  }

  /** `after` delivers everything without anything new being sent. */
  predicate Completes(before: seq<Event>, after: seq<Event>, t: real, u: real) {
    Calm(after, t, u) && AllDelivered(Exec(before + after))
  }

  lemma CompletionWasPackable(before: seq<Event>, after: seq<Event>, t: real, u: real)
    requires Completes(before, after, t, u)
    ensures Packable(Exec(before))
  {
    Runs.FoldAppend(Next, INITIAL, before, after);
    CalmKeepsSent(Exec(before), after, t, u);
    var xs, ys := EveryRunSimulated(before + after);
    DeliveredWasPacked(P.Exec(xs));
    DeliveredWasPacked(P.Exec(ys));
    FittingStream(Exec(before).sentA);
    FittingStream(Exec(before).sentB);
  }

  /**
   Over bytes, in both directions and from every run whose streams are shorter than 2^32 segments: some finite
   continuation, at times after `t` and with nothing new sent, delivers everything sent so far if and only if
   every message's id fits 32 bits and its length stays within what an offset can say.
   */
  lemma CanFinishIff(before: seq<Event>, t: real)
    requires Short(Exec(before))
    ensures (exists after, u :: Completes(before, after, t, u)) <==> Packable(Exec(before))
  {
    if Packable(Exec(before)) {
      var after, u := EverythingArrives(before, t);
      assert Completes(before, after, t, u);
    }
    if after, u :| Completes(before, after, t, u) {
      CompletionWasPackable(before, after, t, u);
    }
  }

  // ---- One direction, of any length -------------------------------------------------------------------------

  /** `after` delivers everything from A to B without anything new being sent. */
  predicate CompletesToB(before: seq<Event>, after: seq<Event>, t: real, u: real) {
    Calm(after, t, u) && Exec(before + after).gotB == Payloads(Exec(before + after).sentA)
  }

  lemma DirectionFinishes(before: seq<Event>, t: real) returns (after: seq<Event>, u: real)
    requires !Exec(before).downA && AllFit(Stream(Exec(before).sentA))
    ensures CompletesToB(before, after, t, u)
  {
    FoldSane(INITIAL, before);
    var xs, ys := EveryRunSimulated(before);
    var ab';
    after, u, ab' := RoundsFinish(Exec(before), P.Exec(xs), P.Exec(ys), t);
    Runs.FoldAppend(Next, INITIAL, before, after);
    WholeStreamDelivered(ab');
  }

  /**
   One direction alone, of whatever length: as long as A is up, everything from A to B can still be delivered if
   and only if the stream has at most 2^32 segments and every message fits. With exactly 2^32 of them the last one
   is delivered and takes B's receive loop down.
   */
  lemma DirectionCanFinishIff(before: seq<Event>, t: real)
    requires !Exec(before).downA
    ensures (exists after, u :: CompletesToB(before, after, t, u))
            <==> |Stream(Exec(before).sentA)| <= LIMIT && MessagesFit(Exec(before).sentA)
  {
    FitsIff(Exec(before).sentA);
    if AllFit(Stream(Exec(before).sentA)) {
      var after, u := DirectionFinishes(before, t);
      assert CompletesToB(before, after, t, u);
    }
    if after, u :| CompletesToB(before, after, t, u) {
      Runs.FoldAppend(Next, INITIAL, before, after);
      CalmKeepsSent(Exec(before), after, t, u);
      var xs, ys := EveryRunSimulated(before + after);
      DeliveredWasPacked(P.Exec(xs));
    }
  }
}
