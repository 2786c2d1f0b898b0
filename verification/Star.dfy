/** One server and any number of clients, each behind its own unreliable wire. */
module Star {
  import opened Wire
  import opened Fragment
  import opened Connection
  import D = Duplex
  import PT = ProtocolTheorems
  import Runs
  import S = Server

  type Addr = S.Addr

  /**
   A client and its wire: all datagrams ever sent either way, the messages that either application sent and
   received, and whether the client's receive loop, or the server's on handling this client, has ended.
   */
  datatype Client = Client(
    endpoint: Endpoint, down: bool,
    toClient: seq<Bytes>, toServer: seq<Bytes>,
    requests: seq<Message>, heard: seq<Bytes>,
    answers: seq<Message>, got: seq<Bytes>,
    endedServer: bool)

  const NEWCOMER := Client(FRESH, false, [], [], [], [], [], [], false)

  datatype Net = Net(server: S.Transport, clients: map<Addr, Client>)

  const INITIAL := Net(S.STARTED, map[])

  datatype Event =
    | AtClient(a: Addr, local: D.Local)
    | ToServer(a: Addr, datagram: Bytes, damage: Option<D.Damage>, now: real)
    | Answer(a: Addr, message: Message, now: real)
    | Clock(now: real)

  function At(net: Net, a: Addr): Client {
    if a in net.clients then net.clients[a] else NEWCOMER
  }

  /** The client as side A and its connection on the server as side B. */
  function LinkOf(net: Net, a: Addr): D.Link {
    var c := At(net, a);
    D.Link(c.endpoint, S.Lookup(net.server.peers, a), c.toClient, c.toServer, c.requests, c.answers, c.got, c.heard,
           c.down, c.endedServer)
  }

  function ClientOf(l: D.Link): Client {
    Client(l.a, l.downA, l.toA, l.toB, l.sentA, l.gotB, l.sentB, l.gotA, l.downB)
  }

  /** What the server hands out for a client goes on its wire and to the server's application. */
  function Served(c: Client, out: Output): Client {
    c.(toClient := c.toClient + out.datagrams, heard := c.heard + out.messages,
       endedServer := c.endedServer || out.raised)
  }

  function Next(net: Net, e: Event): Net {
    match e
    case AtClient(a, local) => net.(clients := net.clients[a := ClientOf(D.AtA(LinkOf(net, a), local))])
    case ToServer(a, d, damage, now) =>
      if d !in At(net, a).toServer then net
      else
        var (t, outs) := S.Step(net.server, S.Datagram(a, D.Damaged(d, damage), now));
        Net(t, net.clients[a := Served(At(net, a), S.Mine(outs, a))])
    case Answer(a, m, now) =>
      var (t, outs) := S.Step(net.server, S.Submit(a, m, now));
      var c := At(net, a);
      Net(t, net.clients[a := Served(c.(answers := c.answers + [m]), S.Mine(outs, a))])
    case Clock(now) =>
      var (t, outs) := S.Step(net.server, S.Clock(now));
      Net(t, map a | a in net.clients.Keys + outs.Keys :: Served(At(net, a), S.Mine(outs, a)))
  }

  function Run(events: seq<Event>): Net {
    Runs.Fold(Next, INITIAL, events)
  }

  // ---- Each client sees a link of its own ------------------------------------------------------------------

  /** While the server's loop runs, no client has ended it. */
  ghost predicate Inv(net: Net) {
    net.server.running ==> forall a :: a in net.clients ==> !net.clients[a].endedServer
  }

  /** What the event is on the link of client `a`, if anything. */
  function OnLink(net: Net, e: Event, a: Addr): Option<D.Event> {
    match e
    case AtClient(b, local) => if a == b then Some(D.Event(true, local)) else None
    case ToServer(b, d, damage, now) =>
      if a == b && net.server.running then Some(D.Event(false, D.Arrive(d, damage, now))) else None
    case Answer(b, m, now) => if a == b then Some(D.Event(false, D.Submit(m, now))) else None
    case Clock(now) => if net.server.running then Some(D.Event(false, D.Clock(now))) else None
  }

  function OptionalNext(l: D.Link, e: Option<D.Event>): D.Link {
    match e
    case None => l
    case Some(x) => D.Next(l, x)
  }

  lemma ServedNothing(c: Client)
    ensures Served(c, NOTHING) == c
  {
    assert c.toClient + [] == c.toClient && c.heard + [] == c.heard;
  }

  lemma ToServerOnLink(net: Net, e: Event, a: Addr)
    requires Inv(net) && e.ToServer?
    ensures LinkOf(Next(net, e), a) == OptionalNext(LinkOf(net, a), OnLink(net, e, a))
  {
    ServedNothing(At(net, e.a));
    if e.datagram in At(net, e.a).toServer && net.server.running {
      S.StepIsolated(net.server, S.Datagram(e.a, D.Damaged(e.datagram, e.damage), e.now), a);
    }
  }

  lemma ClockOnLink(net: Net, now: real, a: Addr)
    requires Inv(net)
    ensures LinkOf(Next(net, Clock(now)), a) == OptionalNext(LinkOf(net, a), OnLink(net, Clock(now), a))
  {
    ServedNothing(At(net, a));
    if net.server.running {
      S.StepIsolated(net.server, S.Clock(now), a);
    }
  }

  lemma AnswerOnLink(net: Net, e: Event, a: Addr)
    requires e.Answer?
    ensures LinkOf(Next(net, e), a) == OptionalNext(LinkOf(net, a), OnLink(net, e, a))
  {
    var c := At(net, e.a);
    assert c.heard + [] == c.heard;
  }

  lemma NextOnLink(net: Net, e: Event, a: Addr)
    requires Inv(net)
    ensures LinkOf(Next(net, e), a) == OptionalNext(LinkOf(net, a), OnLink(net, e, a))
  {
    match e {
      case AtClient(_, _) =>
      case ToServer(_, _, _, _) => ToServerOnLink(net, e, a);
      case Answer(_, _, _) => AnswerOnLink(net, e, a);
      case Clock(now) => ClockOnLink(net, now, a);
    }
  }

  lemma NextInv(net: Net, e: Event)
    requires Inv(net)
    ensures Inv(Next(net, e))
  {
    if e.Clock? && net.server.running {
      var outs := S.Step(net.server, S.Clock(e.now)).1;
      assert forall a :: a in outs ==> !outs[a].raised;
    }
  }

  lemma {:induction false} RunInv(events: seq<Event>)
    ensures Inv(Run(events))
  {
    if events != [] {
      var init, e := events[..|events| - 1], events[|events| - 1];
      assert init + [e] == events;
      Runs.FoldSnoc(Next, INITIAL, init, e);
      RunInv(init);
      NextInv(Run(init), e);
    }
  }

  /** Whatever all the others do, each client and its connection on the server make a run of the two-way link. */
  lemma {:induction false} EveryClientHasALink(events: seq<Event>, a: Addr) returns (ds: seq<D.Event>)
    ensures LinkOf(Run(events), a) == D.Exec(ds)
  {
    if events == [] {
      ds := [];
    } else {
      var init, e := events[..|events| - 1], events[|events| - 1];
      assert init + [e] == events;
      Runs.FoldSnoc(Next, INITIAL, init, e);
      RunInv(init);
      NextOnLink(Run(init), e, a);
      ds := EveryClientHasALink(init, a);
      var d := OnLink(Run(init), e, a);
      if d.Some? {
        Runs.FoldSnoc(D.Next, D.INITIAL, ds, d.value);
        ds := ds + [d.value];
      }
    }
  }

  /**
   With any number of clients at once, over wires that lose, repeat, reorder and corrupt datagrams: what the
   server's application receives from each client is a prefix of what that client sent, and what that client
   receives is a prefix of what the server sent to it.
   */
  lemma EveryClientIsServed(events: seq<Event>, a: Addr)
    ensures At(Run(events), a).heard <= Payloads(At(Run(events), a).requests)
    ensures At(Run(events), a).got <= Payloads(At(Run(events), a).answers)
  {
    var ds := EveryClientHasALink(events, a);
    D.BothDirectionsDeliver(ds);
  }

  /** The sender of every connection keeps its window partition. */
  lemma EveryWindowPartitioned(events: seq<Event>, a: Addr)
    ensures var net := Run(events);
            && PT.ThreeParts(At(net, a).endpoint.sender, Stream(At(net, a).requests))
            && PT.ThreeParts(S.Lookup(net.server.peers, a).sender, Stream(At(net, a).answers))
  {
    var ds := EveryClientHasALink(events, a);
    D.BothWindowsPartitioned(ds);
  }

  // ---- The server's part is a run of the server -------------------------------------------------------------

  function ServerEvents(net: Net, e: Event): seq<S.Event> {
    match e
    case AtClient(_, _) => []
    case ToServer(a, d, damage, now) =>
      if d in At(net, a).toServer then [S.Datagram(a, D.Damaged(d, damage), now)] else []
    case Answer(a, m, now) => [S.Submit(a, m, now)]
    case Clock(now) => [S.Clock(now)]
  }

  lemma {:induction false} ServerRun(events: seq<Event>) returns (es: seq<S.Event>)
    ensures S.Run(es).transport == Run(events).server
  {
    if events == [] {
      es := [];
    } else {
      var init, e := events[..|events| - 1], events[|events| - 1];
      assert init + [e] == events;
      Runs.FoldSnoc(Next, INITIAL, init, e);
      es := ServerRun(init);
      var more := ServerEvents(Run(init), e);
      if more != [] {
        assert (es + more)[..|es|] == es;
        es := es + more;
      }
    }
  }
}
