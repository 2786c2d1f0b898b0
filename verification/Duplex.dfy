/**
 Two endpoints exchanging datagrams in both directions over one unreliable wire: any datagram ever sent
 may arrive any number of times, in any order, or never, and any one byte of it may have been changed.
 */
module Duplex {
  import opened Wire
  import opened Fragment
  import opened Connection
  import P = Protocol
  import PT = ProtocolTheorems
  import Receiver
  import RP = ReceiverProofs
  import Runs
  import Sender
  import SP = SenderProofs
  import SW = SenderWindow
  import WireProofs

  /**
   `toA` and `toB` are all datagrams ever sent to each side; `sent` and `got` what the applications see. A side
   is down once an exception has left its receive loop: it takes no datagram and no tick any more, though its
   application may still submit messages.
   */
  datatype Link = Link(
    a: Endpoint, b: Endpoint,
    toA: seq<Bytes>, toB: seq<Bytes>,
    sentA: seq<Message>, sentB: seq<Message>,
    gotA: seq<Bytes>, gotB: seq<Bytes>,
    downA: bool, downB: bool)

  datatype Damage = Damage(at: nat, byte: Byte)

  datatype Local =
    | Submit(message: Message, now: real)
    | Arrive(datagram: Bytes, damage: Option<Damage>, now: real)
    | Clock(now: real)

  /** A local event at side A, or else at side B. */
  datatype Event = Event(atA: bool, local: Local)

  const INITIAL := Link(FRESH, FRESH, [], [], [], [], [], [], false, false)

  function Damaged(d: Bytes, damage: Option<Damage>): Bytes {
    if damage.Some? && damage.value.at < |d| then d[damage.value.at := damage.value.byte] else d
  }

  function Swap(l: Link): Link {
    Link(l.b, l.a, l.toB, l.toA, l.sentB, l.sentA, l.gotB, l.gotA, l.downB, l.downA)
  }

  /** Side A after a datagram. */
  function Taken(l: Link, d: Bytes, now: real): Link {
    var (c, out) := OnDatagram(l.a, d, now);
    l.(a := c, toB := l.toB + out.datagrams, gotA := l.gotA + out.messages, downA := out.raised)
  }

  function AtA(l: Link, e: Local): Link {
    match e
    case Submit(m, now) =>
      var (c, out) := Send(l.a, m, now);
      l.(a := c, toB := l.toB + out.datagrams, sentA := l.sentA + [m])
    case Arrive(d, damage, now) =>
      if d in l.toA && !l.downA then Taken(l, Damaged(d, damage), now) else l
    case Clock(now) =>
      if l.downA then l
      else
        var (c, out) := Tick(l.a, now);
        l.(a := c, toB := l.toB + out.datagrams)
  }

  function Next(l: Link, e: Event): Link {
    if e.atA then AtA(l, e.local) else Swap(AtA(Swap(l), e.local))
  }

  function Exec(events: seq<Event>): Link {
    Runs.Fold(Next, INITIAL, events)
  }

  // ---- Each direction is a run of the one-way protocol -----------------------------------------------

  /** The datagram is a packed segment or a packed acknowledgement. */
  ghost predicate Known(d: Bytes, data: seq<Packet>, replies: seq<Receiver.Reply>) {
    || (exists p :: p in data && Pack(p) == Ok(d))
    || (exists r :: r in replies && Pack(AckPacket(r)) == Ok(d))
  }

  ghost predicate AllKnown(ds: seq<Bytes>, data: seq<Packet>, replies: seq<Receiver.Reply>) {
    forall d :: d in ds ==> Known(d, data, replies)
  }

  /** `s` is the one-way system from the endpoint with sender `snd` to the one with receiver `rcv`. */
  ghost predicate Mirrors(s: P.System, from: Endpoint, to: Endpoint, sent: seq<Message>, got: seq<Bytes>) {
    && P.Inv(s)
    && s.sender == from.sender
    && s.Received().state == to.receiver
    && s.Received().delivered == got
    && s.messages == sent
    && AllFit(s.arrivals)
  }

  /** Every packet fits the binary layout. */
  predicate AllFit(ps: seq<Packet>) {
    forall p :: p in ps ==> Fits(p)
  }

  ghost predicate Simulates(l: Link, ab: P.System, ba: P.System) {
    && Mirrors(ab, l.a, l.b, l.sentA, l.gotB)
    && Mirrors(ba, l.b, l.a, l.sentB, l.gotA)
    && AllKnown(l.toB, ab.data, ba.Received().replies)
    && AllKnown(l.toA, ba.data, ab.Received().replies)
  }

  lemma {:induction false} EncodeKnown(ps: seq<Packet>, d: Bytes)
    requires d in Encode(ps)
    ensures exists p :: p in ps && Pack(p) == Ok(d)
  {
    var p := ps[|ps| - 1];
    if Pack(p) != Ok(d) {
      EncodeKnown(ps[..|ps| - 1], d);
    }
  }

  /** More packets and replies keep old datagrams known and make newly encoded ones known. */
  lemma KnownGrows(ds: seq<Bytes>, data: seq<Packet>, replies: seq<Receiver.Reply>, newData: seq<Packet>,
                   newReplies: seq<Receiver.Reply>)
    requires AllKnown(ds, data, replies)
    ensures AllKnown(ds, data + newData, replies + newReplies)
  {
    forall d | d in ds
      ensures Known(d, data + newData, replies + newReplies)
    {
      if p :| p in data && Pack(p) == Ok(d) {
        assert p in data + newData;
      } else {
        var r :| r in replies && Pack(AckPacket(r)) == Ok(d);
        assert r in replies + newReplies;
      }
    }
  }

  lemma EncodedKnown(ds: seq<Bytes>, data: seq<Packet>, replies: seq<Receiver.Reply>, sent: seq<Packet>)
    requires AllKnown(ds, data, replies)
    ensures AllKnown(ds + Encode(sent), data + sent, replies)
  {
    KnownGrows(ds, data, replies, sent, []);
    assert replies + [] == replies;
    forall d | d in Encode(sent)
      ensures Known(d, data + sent, replies)
    {
      EncodeKnown(sent, d);
      var p :| p in sent && Pack(p) == Ok(d);
      assert p in data + sent;
    }
  }

  lemma ReplyKnown(ds: seq<Bytes>, data: seq<Packet>, replies: seq<Receiver.Reply>, r: Receiver.Reply)
    requires AllKnown(ds, data, replies)
    ensures AllKnown(ds + Encode([AckPacket(r)]), data, replies + [r])
  {
    KnownGrows(ds, data, replies, [], [r]);
    assert data + [] == data;
    forall d | d in Encode([AckPacket(r)])
      ensures Known(d, data, replies + [r])
    {
      EncodeKnown([AckPacket(r)], d);
      assert r in replies + [r];
    }
  }

  // ---- Unpacking what was sent ------------------------------------------------------------------------

  lemma SegmentUnpacks(s: P.System, p: Packet, d: Bytes)
    requires P.Inv(s) && p in s.data && Pack(p) == Ok(d)
    ensures Unpack(d) == Ok(p) && !p.IsAck() && p.HasData()
  {
    assert P.Genuine(p, s.Segs(), SW.Unsent(s.sender));
    StreamAt(s.messages, p.seqNum);
    WireProofs.SurvivesWire(p, d);
  }

  lemma AckRoute(r: Receiver.Reply)
    ensures AckPacket(r).IsAck() && !AckPacket(r).HasData() && WireProofs.Representable(AckPacket(r))
  {
  }

  lemma AckUnpacks(r: Receiver.Reply, d: Bytes)
    requires Pack(AckPacket(r)) == Ok(d)
    ensures Unpack(d) == Ok(AckPacket(r)) && AckPacket(r).IsAck() && !AckPacket(r).HasData()
  {
    AckRoute(r);
    WireProofs.SurvivesWire(AckPacket(r), d);
  }

  lemma DamageDetected(d: Bytes, damage: Option<Damage>)
    requires Unpack(d).Ok?
    ensures Damaged(d, damage) == d || Unpack(Damaged(d, damage)).Err?
  {
    if damage.Some? && damage.value.at < |d| && damage.value.byte != d[damage.value.at] {
      WireProofs.OneByteCorruptionDetected(d, damage.value.at, damage.value.byte);
    }
  }

  // ---- One step -------------------------------------------------------------------------------------------

  lemma SubmitSimulated(l: Link, ab: P.System, ba: P.System, m: Message, now: real)
    requires Simulates(l, ab, ba)
    ensures Simulates(AtA(l, Submit(m, now)), P.Next(ab, P.Send(m, now)), ba)
  {
    P.NextKeepsInv(ab, P.Send(m, now));
    EncodedKnown(l.toB, ab.data, ba.Received().replies, Sender.Enqueue(l.a.sender, m, now).1);
  }

  lemma ClockSimulated(l: Link, ab: P.System, ba: P.System, now: real)
    requires Simulates(l, ab, ba) && !l.downA
    ensures Simulates(AtA(l, Clock(now)), P.Next(ab, P.Tick(now)), ba)
  {
    P.NextKeepsInv(ab, P.Tick(now));
    EncodedKnown(l.toB, ab.data, ba.Received().replies, Sender.CheckTimeouts(l.a.sender, now).1);
  }

  lemma SegmentHandled(c: Endpoint, p: Packet, d: Bytes, now: real)
    requires Unpack(d) == Ok(p) && !p.IsAck() && p.HasData()
    ensures OnDatagram(c, d, now).0 == c.(receiver := Receiver.Process(c.receiver, p).0)
    ensures OnDatagram(c, d, now).1.datagrams == Encode([AckPacket(Receiver.Process(c.receiver, p).1)])
    ensures OnDatagram(c, d, now).1.messages == Receiver.Process(c.receiver, p).2
    ensures OnDatagram(c, d, now).1.raised <==> !Fits(AckPacket(Receiver.Process(c.receiver, p).1))
  {
    var (r, reply, messages) := Receiver.Process(c.receiver, p);
    assert [] + Encode([AckPacket(reply)]) == Encode([AckPacket(reply)]);
  }

  /** Taking one more packet off the network at the receiving side. */
  lemma DeliveryMirrored(s: P.System, from: Endpoint, to: Endpoint, sent: seq<Message>, got: seq<Bytes>, p: Packet)
    requires Mirrors(s, from, to, sent, got) && p in s.data && Fits(p)
    ensures var (r, reply, messages) := Receiver.Process(to.receiver, p);
            && Mirrors(P.Next(s, P.DeliverData(p)), from, to.(receiver := r), sent, got + messages)
            && P.Next(s, P.DeliverData(p)).Received().replies == s.Received().replies + [reply]
            && P.Next(s, P.DeliverData(p)).data == s.data
  {
    P.NextKeepsInv(s, P.DeliverData(p));
    RP.RunSnoc(s.arrivals, p);
  }

  lemma SegmentTaken(l: Link, ab: P.System, ba: P.System, p: Packet, d: Bytes, now: real)
    requires Simulates(l, ab, ba) && p in ba.data && Pack(p) == Ok(d)
    ensures Simulates(Taken(l, d, now), ab, P.Next(ba, P.DeliverData(p)))
  {
    SegmentUnpacks(ba, p, d);
    SegmentHandled(l.a, p, d, now);
    DeliveryMirrored(ba, l.b, l.a, l.sentB, l.gotA, p);
    ReplyKnown(l.toB, ab.data, ba.Received().replies, Receiver.Process(l.a.receiver, p).1);
  }

  /** Taking an acknowledgement at the sending side. */
  lemma AckMirrored(s: P.System, from: Endpoint, to: Endpoint, sent: seq<Message>, got: seq<Bytes>,
                    r: Receiver.Reply, now: real)
    requires Mirrors(s, from, to, sent, got) && r in s.Received().replies
    ensures var (t, ps) := Sender.OnAck(from.sender, r.ackNum, r.rwnd, now);
            && Mirrors(P.Next(s, P.DeliverAck(r, now)), from.(sender := t), to, sent, got)
            && P.Next(s, P.DeliverAck(r, now)).data == s.data + ps
            && P.Next(s, P.DeliverAck(r, now)).arrivals == s.arrivals
  {
    P.NextKeepsInv(s, P.DeliverAck(r, now));
  }

  lemma AckTaken(l: Link, ab: P.System, ba: P.System, r: Receiver.Reply, d: Bytes, now: real)
    requires Simulates(l, ab, ba) && r in ab.Received().replies && Pack(AckPacket(r)) == Ok(d)
    ensures Simulates(Taken(l, d, now), P.Next(ab, P.DeliverAck(r, now)), ba)
  {
    AckUnpacks(r, d);
    AckHandled(l.a, r, d, now);
    AckMirrored(ab, l.a, l.b, l.sentA, l.gotB, r, now);
    assert l.gotA + [] == l.gotA;
    EncodedKnown(l.toB, ab.data, ba.Received().replies, Sender.OnAck(l.a.sender, r.ackNum, r.rwnd, now).1);
  }

  lemma AckHandled(c: Endpoint, r: Receiver.Reply, d: Bytes, now: real)
    requires Unpack(d) == Ok(AckPacket(r)) && AckPacket(r).IsAck() && !AckPacket(r).HasData()
    ensures var (s, sent) := Sender.OnAck(c.sender, r.ackNum, r.rwnd, now);
            OnDatagram(c, d, now) == (c.(sender := s), Output(Encode(sent), [], false))
  {
    var (s, sent) := Sender.OnAck(c.sender, r.ackNum, r.rwnd, now);
    assert Encode(sent) + [] == Encode(sent);
  }

  /** The link after some run is, in each direction, the one-way system after `xs` and after `ys`. */
  ghost predicate Follows(l: Link, xs: seq<P.Event>, ys: seq<P.Event>) {
    Simulates(l, P.Exec(xs), P.Exec(ys))
  }

  lemma ExecSnoc(xs: seq<P.Event>, e: P.Event)
    ensures P.Exec(xs + [e]) == P.Next(P.Exec(xs), e)
  {
    Runs.FoldSnoc(P.Next, P.INITIAL, xs, e);
  }

  lemma ArriveSimulated(l: Link, xs: seq<P.Event>, ys: seq<P.Event>, d: Bytes, damage: Option<Damage>, now: real)
    returns (xs': seq<P.Event>, ys': seq<P.Event>)
    requires Follows(l, xs, ys)
    ensures Follows(AtA(l, Arrive(d, damage, now)), xs', ys')
  {
    xs', ys' := xs, ys;
    var ab, ba := P.Exec(xs), P.Exec(ys);
    if d in l.toA && !l.downA {
      assert Known(d, ba.data, ab.Received().replies);
      if p :| p in ba.data && Pack(p) == Ok(d) {
        SegmentUnpacks(ba, p, d);
        DamageDetected(d, damage);
        if Damaged(d, damage) == d {
          ys' := ys + [P.DeliverData(p)];
          ExecSnoc(ys, P.DeliverData(p));
          SegmentTaken(l, ab, ba, p, d, now);
        } else {
          Ignored(l, d, damage, now);
        }
      } else {
        var r :| r in ab.Received().replies && Pack(AckPacket(r)) == Ok(d);
        AckUnpacks(r, d);
        DamageDetected(d, damage);
        if Damaged(d, damage) == d {
          xs' := xs + [P.DeliverAck(r, now)];
          ExecSnoc(xs, P.DeliverAck(r, now));
          AckTaken(l, ab, ba, r, d, now);
        } else {
          Ignored(l, d, damage, now);
        }
      }
    }
  }

  lemma Ignored(l: Link, d: Bytes, damage: Option<Damage>, now: real)
    requires Unpack(Damaged(d, damage)).Err? && !l.downA
    ensures AtA(l, Arrive(d, damage, now)) == l
  {
    assert l.toB + [] == l.toB && l.gotA + [] == l.gotA;
  }

  lemma AtASimulated(l: Link, xs: seq<P.Event>, ys: seq<P.Event>, e: Local)
    returns (xs': seq<P.Event>, ys': seq<P.Event>)
    requires Follows(l, xs, ys)
    ensures Follows(AtA(l, e), xs', ys')
  {
    match e {
      case Submit(m, now) =>
        xs', ys' := xs + [P.Send(m, now)], ys;
        ExecSnoc(xs, P.Send(m, now));
        SubmitSimulated(l, P.Exec(xs), P.Exec(ys), m, now);
      case Arrive(d, damage, now) =>
        xs', ys' := ArriveSimulated(l, xs, ys, d, damage, now);
      case Clock(now) =>
        xs', ys' := xs, ys;
        if !l.downA {
          xs' := xs + [P.Tick(now)];
          ExecSnoc(xs, P.Tick(now));
          ClockSimulated(l, P.Exec(xs), P.Exec(ys), now);
        }
    }
  }

  lemma NextSimulated(l: Link, xs: seq<P.Event>, ys: seq<P.Event>, e: Event)
    returns (xs': seq<P.Event>, ys': seq<P.Event>)
    requires Follows(l, xs, ys)
    ensures Follows(Next(l, e), xs', ys')
  {
    if e.atA {
      xs', ys' := AtASimulated(l, xs, ys, e.local);
    } else {
      ys', xs' := AtASimulated(Swap(l), ys, xs, e.local);
    }
  }

  lemma {:induction false} FoldSimulated(l: Link, xs: seq<P.Event>, ys: seq<P.Event>, events: seq<Event>)
    returns (xs': seq<P.Event>, ys': seq<P.Event>)
    requires Follows(l, xs, ys)
    ensures Follows(Runs.Fold(Next, l, events), xs', ys')
    decreases |events|
  {
    if events == [] {
      xs', ys' := xs, ys;
    } else {
      var xs1, ys1 := NextSimulated(l, xs, ys, events[0]);
      xs', ys' := FoldSimulated(Next(l, events[0]), xs1, ys1, events[1..]);
    }
  }

  /**
   Every run of the link is, in each direction, a run of the one-way protocol, so that all results about
   those runs hold of it.
   */
  lemma EveryRunSimulated(events: seq<Event>) returns (xs: seq<P.Event>, ys: seq<P.Event>)
    ensures Simulates(Exec(events), P.Exec(xs), P.Exec(ys))
  {
    P.ReachableInv([]);
    xs, ys := FoldSimulated(INITIAL, [], [], events);
  }

  /**
   Bytes in, bytes out: in both directions at once, over a wire that loses, repeats, reorders and corrupts
   datagrams, each application receives exactly a prefix of the messages the other one sent.
   */
  lemma BothDirectionsDeliver(events: seq<Event>)
    ensures Exec(events).gotB <= Payloads(Exec(events).sentA)
    ensures Exec(events).gotA <= Payloads(Exec(events).sentB)
  {
    var xs, ys := EveryRunSimulated(events);
    DeliversPrefix(P.Exec(xs));
    DeliversPrefix(P.Exec(ys));
  }

  /** The window partition holds of both senders, in every run over bytes. */
  lemma BothWindowsPartitioned(events: seq<Event>)
    ensures PT.ThreeParts(Exec(events).a.sender, Stream(Exec(events).sentA))
    ensures PT.ThreeParts(Exec(events).b.sender, Stream(Exec(events).sentB))
  {
    var xs, ys := EveryRunSimulated(events);
    PT.WindowPartition(xs);
    PT.WindowPartition(ys);
  }

  /** No datagram that arrives is ever dropped for being beyond the receive window. */
  lemma NothingDropped(events: seq<Event>)
    ensures Exec(events).a.receiver.stats.drop == 0 && Exec(events).b.receiver.stats.drop == 0
  {
    var xs, ys := EveryRunSimulated(events);
    PT.NothingBeyondWindow(xs);
    PT.NothingBeyondWindow(ys);
  }

  /** Each side's sender has made a run of the sending engine, so its congestion and timing results apply. */
  lemma BothSendersRun(events: seq<Event>) returns (atA: seq<SP.Op>, atB: seq<SP.Op>)
    ensures SP.Run(P.MAX_RWND, atA).state == Exec(events).a.sender
    ensures SP.Run(P.MAX_RWND, atB).state == Exec(events).b.sender
  {
    var xs, ys := EveryRunSimulated(events);
    atA := PT.SenderRun(xs);
    atB := PT.SenderRun(ys);
  }

  lemma DeliversPrefix(s: P.System)
    requires P.Inv(s)
    ensures s.Received().delivered <= Payloads(s.messages)
  {
    var j := PT.InvDelivered(s);
    assert Payloads(s.messages[..j]) == Payloads(s.messages)[..j];
  }
}
