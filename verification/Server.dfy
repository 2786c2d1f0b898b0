/** The server transport: one connection per peer address, created on first contact. */
module Server {
  import opened Wire
  import opened Fragment
  import opened Connection
  import opened ConnectionProofs

  type Addr = (string, nat)

  type Peers = map<Addr, Endpoint>

  /** What one call hands to the socket and to the application, by peer. */
  type Outputs = map<Addr, Output>

  datatype Event =
    | Submit(to: Addr, message: Message, now: real)
    | Datagram(source: Addr, data: Bytes, now: real)
    | Clock(now: real)

  /** A peer without a connection is treated as one with a fresh connection. */
  function Lookup(peers: Peers, a: Addr): Endpoint {
    if a in peers then peers[a] else FRESH
  }

  function OnSubmit(peers: Peers, to: Addr, m: Message, now: real): (Peers, Outputs) {
    var (c, out) := Send(Lookup(peers, to), m, now);
    (peers[to := c], map[to := out])
  }

  function OnArrival(peers: Peers, source: Addr, data: Bytes, now: real): (Peers, Outputs) {
    match Unpack(data)
    case Err(_) => (peers, map[])
    case Ok(p) =>
      var (c, out) := OnPacket(Lookup(peers, source), p, now);
      (peers[source := c], map[source := out])
  }

  function OnClock(peers: Peers, now: real): (Peers, Outputs) {
    (map a | a in peers :: Tick(peers[a], now).0, map a | a in peers :: Tick(peers[a], now).1)
  }

  /** The transport: whether its loop is running, and its connections. */
  datatype Transport = Transport(running: bool, peers: Peers)

  const STARTED := Transport(true, map[])

  /**
   The loop handles datagrams and ticks while it runs; an exception ends it. Messages may be submitted at any
   time.
   */
  function Step(t: Transport, e: Event): (Transport, Outputs) {
    match e
    case Submit(to, m, now) =>
      var (peers, outs) := OnSubmit(t.peers, to, m, now);
      (t.(peers := peers), outs)
    case Datagram(source, data, now) =>
      if !t.running then (t, map[])
      else
        var (peers, outs) := OnArrival(t.peers, source, data, now);
        (Transport(!(source in outs && outs[source].raised), peers), outs)
    case Clock(now) =>
      if !t.running then (t, map[])
      else
        var (peers, outs) := OnClock(t.peers, now);
        (t.(peers := peers), outs)
  }

  /** All connections but the `pending` ones have been ticked. */
  ghost predicate PartlyTicked(start: Peers, peers: Peers, outs: Outputs, pending: set<Addr>, now: real) {
    && pending <= peers.Keys == start.Keys
    && outs.Keys == peers.Keys - pending
    && (forall a :: a in peers ==> peers[a] == if a in pending then start[a] else Tick(start[a], now).0)
    && (forall a :: a in outs ==> outs[a] == Tick(start[a], now).1)
  }

  lemma TickOne(start: Peers, peers: Peers, outs: Outputs, pending: set<Addr>, a: Addr, now: real)
    requires PartlyTicked(start, peers, outs, pending, now) && a in pending
    ensures var (c, out) := Tick(peers[a], now);
            PartlyTicked(start, peers[a := c], outs[a := out], pending - {a}, now)
  {
  }

  lemma AllTicked(start: Peers, peers: Peers, outs: Outputs, now: real)
    requires PartlyTicked(start, peers, outs, {}, now)
    ensures peers == OnClock(start, now).0 && outs == OnClock(start, now).1
  {
  }

  // ---- The mutable transport -----------------------------------------------------------------------

  class RudpServerTransport {
    var running: bool
    var connections: map<Addr, RudpConnection>
    ghost var peers: Peers
    ghost var owner: map<object, Addr>

    /** `peers` are the values of the connections, and every engine belongs to one of them only. */
    ghost predicate Valid()
      reads this, owner.Keys
    {
      && this !in owner
      && peers.Keys == connections.Keys
      && (forall a {:trigger Mentioned(a)} :: Mentioned(a) && a in connections ==> Holds(a, connections[a]))
    }

    /** Marks the addresses whose connections a proof looks into. */
    ghost predicate Mentioned(a: Addr) {
      true
    }

    ghost predicate Holds(a: Addr, c: RudpConnection)
      reads this, owner.Keys
    {
      && c.sender in owner && owner[c.sender] == a
      && c.receiver in owner && owner[c.receiver] == a
      && a in peers && c.Value() == peers[a]
    }

    ghost function Value(): Transport
      reads this
    {
      Transport(running, peers)
    }

    constructor ()
      ensures Valid() && owner == map[] && Value() == Transport(false, map[])
    {
      running, connections := false, map[];
      peers, owner := map[], map[];
    }

    /** A new connection to a peer that has none. */
    method Open(addr: Addr)
      requires Valid() && addr !in connections
      modifies this`connections, this`peers, this`owner
      ensures Valid() && addr in connections && fresh(owner.Keys - old(owner.Keys))
      ensures peers == old(peers)[addr := FRESH]
    {
      var conn := new RudpConnection();
      connections := connections[addr := conn];
      peers := peers[addr := FRESH];
      owner := owner[conn.sender := addr][conn.receiver := addr];
    }

    method Connect(addr: Addr)
      requires Valid()
      modifies this`connections, this`peers, this`owner
      ensures Valid() && addr in connections && fresh(owner.Keys - old(owner.Keys))
      ensures peers == old(peers)[addr := Lookup(old(peers), addr)]
    {
      if addr !in connections {
        Open(addr);
      }
    }

    method Submitted(addr: Addr, data: Bytes, requestId: nat, now: real) returns (out: Output)
      requires Valid() && addr in connections
      modifies this`peers, owner.Keys
      ensures Valid()
      ensures var (c, o) := Send(old(peers)[addr], Message(data, requestId), now);
              peers == old(peers)[addr := c] && out == o
    {
      assert Mentioned(addr);
      out := connections[addr].SendMessage(data, requestId, now);
      peers := peers[addr := connections[addr].Value()];
    }

    method SendTo(data: Bytes, requestId: nat, clientAddr: Addr, now: real) returns (outs: Outputs)
      requires Valid()
      modifies this`connections, this`peers, this`owner, owner.Keys
      ensures Valid() && fresh(owner.Keys - old(owner.Keys))
      ensures peers == OnSubmit(old(peers), clientAddr, Message(data, requestId), now).0
      ensures outs == OnSubmit(old(peers), clientAddr, Message(data, requestId), now).1
    {
      Connect(clientAddr);
      var out := Submitted(clientAddr, data, requestId, now);
      outs := map[clientAddr := out];
    }

    method Received(addr: Addr, packet: Packet, now: real) returns (out: Output)
      requires Valid() && addr in connections
      modifies this`peers, owner.Keys
      ensures Valid()
      ensures var (c, o) := OnPacket(old(peers)[addr], packet, now);
              peers == old(peers)[addr := c] && out == o
    {
      assert Mentioned(addr);
      out := connections[addr].OnPacketReceived(packet, now);
      peers := peers[addr := connections[addr].Value()];
    }

    method Ticked(addr: Addr, now: real) returns (out: Output)
      requires Valid() && addr in connections
      modifies this`peers, owner.Keys
      ensures Valid()
      ensures var (c, o) := Tick(old(peers)[addr], now);
              peers == old(peers)[addr := c] && out == o
    {
      assert Mentioned(addr);
      out := connections[addr].TickSender(now);
      peers := peers[addr := connections[addr].Value()];
    }

    /** The packet goes to its connection, which is created if need be. */
    method Route(addr: Addr, packet: Packet, now: real) returns (out: Output)
      requires Valid()
      modifies this`connections, this`peers, this`owner, owner.Keys
      ensures Valid() && fresh(owner.Keys - old(owner.Keys))
      ensures var (c, o) := OnPacket(Lookup(old(peers), addr), packet, now);
              peers == old(peers)[addr := c] && out == o
    {
      Connect(addr);
      out := Received(addr, packet, now);
    }

    /** An exception ends the loop. */
    method EndIf(raised: bool)
      requires Valid()
      modifies this`running
      ensures Valid() && running == (old(running) && !raised)
    {
      running := running && !raised;
    }

    method HandleDatagram(data: Bytes, addr: Addr, now: real) returns (outs: Outputs)
      requires Valid()
      modifies this, owner.Keys
      ensures Valid() && fresh(owner.Keys - old(owner.Keys))
      ensures peers == OnArrival(old(peers), addr, data, now).0
      ensures outs == OnArrival(old(peers), addr, data, now).1
      ensures running == (old(running) && !(addr in outs && outs[addr].raised))
    {
      var packet := Unpack(data);
      if packet.Err? {
        return map[];
      }
      var out := Route(addr, packet.value, now);
      EndIf(out.raised);
      outs := map[addr := out];
    }

    method TickConnections(now: real) returns (outs: Outputs)
      requires Valid()
      modifies this`peers, owner.Keys
      ensures Valid()
      ensures peers == OnClock(old(peers), now).0
      ensures outs == OnClock(old(peers), now).1
    {
      outs := map[];
      var pending := connections.Keys;
      while pending != {}
        invariant Valid()
        invariant PartlyTicked(old(peers), peers, outs, pending, now)
        decreases pending
      {
        var a :| a in pending;
        ghost var before, sent := peers, outs;
        var out := Ticked(a, now);
        TickOne(old(peers), before, sent, pending, a, now);
        outs := outs[a := out];
        pending := pending - {a};
      }
      AllTicked(old(peers), peers, outs, now);
    }

    method Dispatch(e: Event) returns (outs: Outputs)
      requires Valid()
      modifies this, owner.Keys
      ensures Valid() && fresh(owner.Keys - old(owner.Keys))
      ensures Value() == Step(old(Value()), e).0 && outs == Step(old(Value()), e).1
    {
      outs := map[];
      match e {
        case Submit(to, m, now) => outs := SendTo(m.data, m.msgId, to, now);
        case Datagram(source, data, now) =>
          if running {
            outs := HandleDatagram(data, source, now);
          }
        case Clock(now) =>
          if running {
            outs := TickConnections(now);
          }
      }
    }

    method Start()
      requires Valid()
      modifies this`running
      ensures Valid() && running
    {
      running := true;
    }

    /**
     The loop from the start, on whatever arrives and is submitted: its state and what it sends are the run of the
     specification, and each connection object is in the state that it would be in alone, as long as the loop runs.
     */
    method Serve(events: seq<Event>) returns (outs: seq<Outputs>)
      requires Valid() && peers == map[]
      modifies this, owner.Keys
      ensures Valid()
      ensures Value() == Run(events).transport && outs == Run(events).outs
      ensures running ==> forall a :: a in connections ==>
                connections[a].Value() == RunAlone(Project(events, a)).endpoint
    {
      Start();
      outs := [];
      for i := 0 to |events|
        invariant Valid() && fresh(owner.Keys - old(owner.Keys))
        invariant Value() == Run(events[..i]).transport && outs == Run(events[..i]).outs
      {
        assert events[..i + 1][..i] == events[..i];
        var out := Dispatch(events[i]);
        outs := outs + [out];
      }
      assert events[..|events|] == events;
      if running {
        forall a | a in connections
          ensures connections[a].Value() == RunAlone(Project(events, a)).endpoint
        {
          assert Mentioned(a);
          PeersAreIsolated(events, a);
        }
      }
    }
  }

  // ---- Runs --------------------------------------------------------------------------------------------

  /** The transport, and per call what went out. */
  datatype History = History(transport: Transport, outs: seq<Outputs>)

  function Next(h: History, e: Event): History {
    var (t, outs) := Step(h.transport, e);
    History(t, h.outs + [outs])
  }

  function Run(events: seq<Event>): History {
    if events == [] then History(STARTED, []) else Next(Run(events[..|events| - 1]), events[|events| - 1])
  }

  function Append(x: Output, y: Output): Output {
    Output(x.datagrams + y.datagrams, x.messages + y.messages, x.raised || y.raised)
  }

  /** Everything that went to, or was delivered from, peer `a`. */
  function OutputsFor(outs: seq<Outputs>, a: Addr): Output {
    if outs == [] then NOTHING
    else
      var last := outs[|outs| - 1];
      Append(OutputsFor(outs[..|outs| - 1], a), if a in last then last[a] else NOTHING)
  }

  // ---- Peers do not influence each other -------------------------------------------------------------

  /** The event concerns peer `a`: it is its own, or a clock tick. */
  predicate Concerns(e: Event, a: Addr) {
    match e
    case Submit(to, _, _) => to == a
    case Datagram(source, _, _) => source == a
    case Clock(_) => true
  }

  function Project(events: seq<Event>, a: Addr): seq<Event> {
    if events == [] then []
    else Project(events[..|events| - 1], a) + if Concerns(events[|events| - 1], a) then [events[|events| - 1]] else []
  }

  /** One peer on its own: its connection and everything it was sent or delivered. */
  datatype Peer = Peer(endpoint: Endpoint, out: Output)

  function Act(c: Endpoint, e: Event): (Endpoint, Output) {
    match e
    case Submit(_, m, now) => Send(c, m, now)
    case Datagram(_, data, now) => OnDatagram(c, data, now)
    case Clock(now) => Tick(c, now)
  }

  /** Once an exception has left its loop, a connection on its own sees only what is submitted. */
  function Alone(p: Peer, e: Event): Peer {
    if p.out.raised && !e.Submit? then p
    else
      var (c, out) := Act(p.endpoint, e);
      Peer(c, Append(p.out, out))
  }

  function RunAlone(events: seq<Event>): Peer {
    if events == [] then Peer(FRESH, NOTHING) else Alone(RunAlone(events[..|events| - 1]), events[|events| - 1])
  }

  /** A tick on a fresh connection does nothing, so it does not matter when a connection is created. */
  lemma FreshTick(now: real)
    ensures Tick(FRESH, now) == (FRESH, NOTHING)
  {
  }

  /** What one call sends to peer `a` or delivers from it. */
  function Mine(outs: Outputs, a: Addr): Output {
    if a in outs then outs[a] else NOTHING
  }

  lemma StepIsolated(t: Transport, e: Event, a: Addr)
    requires t.running
    ensures var (t', outs) := Step(t, e);
            if Concerns(e, a)
            then Lookup(t'.peers, a) == Act(Lookup(t.peers, a), e).0 && Mine(outs, a) == Act(Lookup(t.peers, a), e).1
            else Lookup(t'.peers, a) == Lookup(t.peers, a) && Mine(outs, a) == NOTHING
  {
    if e.Clock? {
      FreshTick(e.now);
    }
  }

  /** The loop ends with the event that raises, and does not start again. */
  lemma StepRunning(t: Transport, e: Event)
    ensures Step(t, e).0.running <==> t.running && !(e.Datagram? && Mine(Step(t, e).1, e.source).raised)
  {
  }

  lemma AppendNothing(x: Output)
    ensures Append(x, NOTHING) == x
  {
    assert x.datagrams + [] == x.datagrams && x.messages + [] == x.messages;
  }

  lemma ProjectSnoc(events: seq<Event>, a: Addr)
    requires events != []
    ensures var init, e := events[..|events| - 1], events[|events| - 1];
            RunAlone(Project(events, a)) ==
              if Concerns(e, a) then Alone(RunAlone(Project(init, a)), e) else RunAlone(Project(init, a))
  {
    var init, e := events[..|events| - 1], events[|events| - 1];
    var mine := Project(init, a);
    if Concerns(e, a) {
      assert (mine + [e])[..|mine|] == mine;
    } else {
      assert mine + [] == mine;
    }
  }

  /**
   Peer isolation: for every interleaving of traffic of any number of peers, as long as the loop runs, each
   peer's connection and everything sent to it and delivered from it are those of a fresh connection that sees
   only that peer's events and the clock.
   */
  lemma {:induction false} PeersAreIsolated(events: seq<Event>, a: Addr)
    requires Run(events).transport.running
    ensures var alone := RunAlone(Project(events, a));
            && Lookup(Run(events).transport.peers, a) == alone.endpoint
            && OutputsFor(Run(events).outs, a) == alone.out
            && !alone.out.raised
  {
    if events != [] {
      var init, e := events[..|events| - 1], events[|events| - 1];
      StepRunning(Run(init).transport, e);
      PeersAreIsolated(init, a);
      ProjectSnoc(events, a);
      NextIsolated(Run(init), RunAlone(Project(init, a)), e, a);
    }
  }

  /** The transport does to peer `a` what its connection would do alone. */
  ghost predicate AsAlone(h: History, p: Peer, a: Addr) {
    Lookup(h.transport.peers, a) == p.endpoint && OutputsFor(h.outs, a) == p.out && !p.out.raised
  }

  lemma NextIsolated(h: History, p: Peer, e: Event, a: Addr)
    requires AsAlone(h, p, a) && h.transport.running && Next(h, e).transport.running
    ensures AsAlone(Next(h, e), if Concerns(e, a) then Alone(p, e) else p, a)
  {
    StepIsolated(h.transport, e, a);
    StepRunning(h.transport, e);
    OutputsSnoc(h.outs, Step(h.transport, e).1, a);
    AppendNothing(p.out);
    ActQuiet(p.endpoint, e);
  }

  lemma OutputsSnoc(outs: seq<Outputs>, last: Outputs, a: Addr)
    ensures OutputsFor(outs + [last], a) == Append(OutputsFor(outs, a), Mine(last, a))
  {
    assert (outs + [last])[..|outs|] == outs;
  }

  /** Only the handling of a datagram can raise. */
  lemma ActQuiet(c: Endpoint, e: Event)
    ensures !e.Datagram? ==> !Act(c, e).1.raised
  {
  }

  lemma RaisedStays(p: Peer, e: Event)
    requires p.out.raised
    ensures Alone(p, e).out.raised
  {
  }

  /** The loop has ended exactly if some peer would, on its own, have ended it. */
  lemma {:induction false} StopsIff(events: seq<Event>)
    ensures Run(events).transport.running <==> forall a :: !RunAlone(Project(events, a)).out.raised
  {
    if Run(events).transport.running {
      forall a
        ensures !RunAlone(Project(events, a)).out.raised
      {
        PeersAreIsolated(events, a);
      }
    } else {
      var a := Culprit(events);
      assert RunAlone(Project(events, a)).out.raised;
    }
  }

  lemma {:induction false} Culprit(events: seq<Event>) returns (a: Addr)
    requires !Run(events).transport.running
    ensures RunAlone(Project(events, a)).out.raised
  {
    var init, e := events[..|events| - 1], events[|events| - 1];
    StepRunning(Run(init).transport, e);
    if Run(init).transport.running {
      a := e.source;
      PeersAreIsolated(init, a);
      StepIsolated(Run(init).transport, e, a);
      ProjectSnoc(events, a);
    } else {
      a := Culprit(init);
      ProjectSnoc(events, a);
      RaisedStays(RunAlone(Project(init, a)), e);
    }
  }

  /** A peer ends the loop exactly by completing the sequence number space. */
  lemma {:induction false} AloneSpent(events: seq<Event>)
    ensures var p := RunAlone(events); Spent(p.endpoint, p.out.raised)
  {
    if events != [] {
      var init, e := events[..|events| - 1], events[|events| - 1];
      AloneSpent(init);
      var p := RunAlone(init);
      if e.Datagram? && !p.out.raised {
        RaisesAtLimit(p.endpoint, e.data, e.now);
      }
    }
  }
}
