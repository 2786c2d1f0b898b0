/** What the lease table answers, in terms of the answers it gave before. */
module DhcpHistory {
  import opened Wire
  import opened Dhcp
  import opened DhcpProofs

  // ---- The history of one client -----------------------------------------------------------------------------

  /** A positive answer to a client: an address offered, or a REQUEST for it acknowledged. */
  datatype Grant = Grant(ip: Ip, xid: int, time: real, acknowledged: bool)

  /** The positive answer that the event gives to client `mac`, if it does. */
  function GrantOf(pool: Pool, s: State, e: Event, mac: Mac): Option<Grant> {
    match e
    case Discovered(m, xid, now) =>
      var offered := Discover(pool, s, m, xid, now).1;
      if m == mac && offered.Some? then Some(Grant(offered.value, xid, now, false)) else None
    case Requested(m, xid, ip, now) =>
      if m == mac && Request(s, m, xid, ip, now).1 then Some(Grant(ip, xid, now, true)) else None
    case Swept(_) => None
  }

  /** All positive answers to client `mac` in a run. */
  function Grants(pool: Pool, events: seq<Event>, mac: Mac): seq<Grant> {
    if events == [] then []
    else
      var init := events[..|events| - 1];
      var g := GrantOf(pool, Exec(pool, init), events[|events| - 1], mac);
      Grants(pool, init, mac) + if g.Some? then [g.value] else []
  }

  predicate Ordered(events: seq<Event>) {
    forall i, j :: 0 <= i < j < |events| ==> events[i].now <= events[j].now
  }

  /** The clock has not gone back behind any event. */
  predicate NotBefore(events: seq<Event>, now: real) {
    forall i :: 0 <= i < |events| ==> events[i].now <= now
  }

  function Last(gs: seq<Grant>): Grant
    requires gs != []
  {
    gs[|gs| - 1]
  }

  /** The last positive answer is at most an hour old. */
  predicate Live(gs: seq<Grant>, now: real) {
    gs != [] && now <= Last(gs).time + 3600.0
  }

  /** Answer `i` acknowledged a REQUEST, and since then the client used the same transaction and let nothing lapse. */
  predicate SettledBy(gs: seq<Grant>, i: nat) {
    && i < |gs| && gs[i].acknowledged
    && forall j :: i < j < |gs| ==> gs[j].xid == gs[i].xid && gs[j].time <= gs[j - 1].time + 3600.0
  }

  predicate Settled(gs: seq<Grant>) {
    exists i :: 0 <= i < |gs| && SettledBy(gs, i)
  }

  lemma SettledLonger(gs: seq<Grant>, g: Grant, i: nat)
    requires SettledBy(gs, i) && g.xid == Last(gs).xid && g.time <= Last(gs).time + 3600.0
    ensures SettledBy(gs + [g], i)
  {
    forall j | i < j < |gs + [g]|
      ensures (gs + [g])[j].xid == gs[i].xid && (gs + [g])[j].time <= (gs + [g])[j - 1].time + 3600.0
    {
      assert j < |gs| ==> (gs + [g])[j] == gs[j];
    }
  }

  lemma SettledShorter(gs: seq<Grant>, g: Grant, i: nat)
    requires SettledBy(gs + [g], i) && i < |gs|
    ensures SettledBy(gs, i) && g.xid == Last(gs).xid && g.time <= Last(gs).time + 3600.0
  {
    var all := gs + [g];
    assert all[|gs|] == g && all[|gs| - 1] == Last(gs);
    assert g.xid == all[i].xid;
    forall j | i < j < |gs|
      ensures gs[j].xid == gs[i].xid && gs[j].time <= gs[j - 1].time + 3600.0
    {
      assert all[j] == gs[j] && all[j - 1] == gs[j - 1];
    }
  }

  lemma SettledSnoc(gs: seq<Grant>, g: Grant)
    ensures Settled(gs + [g])
       <==> g.acknowledged || (Settled(gs) && g.xid == Last(gs).xid && g.time <= Last(gs).time + 3600.0)
  {
    if g.acknowledged {
      assert SettledBy(gs + [g], |gs|);
    } else {
      if i :| 0 <= i < |gs + [g]| && SettledBy(gs + [g], i) {
        assert (gs + [g])[|gs|] == g;
        SettledShorter(gs, g, i);
      }
      if i :| 0 <= i < |gs| && SettledBy(gs, i) {
        if g.xid == Last(gs).xid && g.time <= Last(gs).time + 3600.0 {
          SettledLonger(gs, g, i);
        }
      }
    }
  }

  // ---- The table is the history ------------------------------------------------------------------------------------

  /** What the history says about the lease of a client. */
  function LeaseFrom(gs: seq<Grant>): Lease
    requires gs != []
  {
    var g := Last(gs);
    Lease(g.ip, g.xid, g.time + 3600.0, if Settled(gs) then Bound else Selecting)
  }

  /** A lease in the table is the one of the history; a client without one has none that is live at `now`. */
  predicate Tells(s: State, mac: Mac, gs: seq<Grant>, now: real) {
    if mac in s.leases then gs != [] && s.leases[mac] == LeaseFrom(gs) else !Live(gs, now)
  }

  lemma CleanedTells(s: State, mac: Mac, gs: seq<Grant>, before: real, now: real)
    requires Tells(s, mac, gs, before) && before <= now
    ensures Tells(Cleaned(s, now), mac, gs, now) && (mac in Cleaned(s, now).leases <==> Live(gs, now))
  {
  }

  lemma DiscoverTells(pool: Pool, s: State, mac: Mac, gs: seq<Grant>, before: real, xid: int, now: real)
    requires Tells(s, mac, gs, before) && before <= now
    ensures var (t, offered) := Discover(pool, s, mac, xid, now);
            && (Live(gs, now) ==> offered == Some(Last(gs).ip))
            && (offered.Some? ==> Tells(t, mac, gs + [Grant(offered.value, xid, now, false)], now))
            && (offered.None? ==> Tells(t, mac, gs, now))
  {
    CleanedTells(s, mac, gs, before, now);
    var offered := Discover(pool, s, mac, xid, now).1;
    if offered.Some? {
      SettledSnoc(gs, Grant(offered.value, xid, now, false));
    }
  }

  /** A REQUEST is acknowledged exactly if the history says so. */
  predicate Acknowledges(gs: seq<Grant>, xid: int, ip: Ip, now: real) {
    Live(gs, now) && Last(gs).ip == ip && (!Settled(gs) || Last(gs).xid == xid)
  }

  lemma RequestTells(s: State, mac: Mac, gs: seq<Grant>, before: real, xid: int, ip: Ip, now: real)
    requires Tells(s, mac, gs, before) && before <= now
    ensures var (t, acknowledged) := Request(s, mac, xid, ip, now);
            && (acknowledged <==> Acknowledges(gs, xid, ip, now))
            && Tells(t, mac, if acknowledged then gs + [Grant(ip, xid, now, true)] else gs, now)
  {
    CleanedTells(s, mac, gs, before, now);
    SettledSnoc(gs, Grant(ip, xid, now, true));
  }

  lemma NextTells(pool: Pool, s: State, mac: Mac, gs: seq<Grant>, before: real, e: Event)
    requires Tells(s, mac, gs, before) && before <= e.now
    ensures var g := GrantOf(pool, s, e, mac);
            Tells(Next(pool, s, e), mac, if g.Some? then gs + [g.value] else gs, e.now)
  {
    CleanedTells(s, mac, gs, before, e.now);
    match e {
      case Discovered(m, xid, now) =>
        if m == mac {
          DiscoverTells(pool, s, mac, gs, before, xid, now);
        }
      case Requested(m, xid, ip, now) =>
        if m == mac {
          RequestTells(s, mac, gs, before, xid, ip, now);
        }
      case Swept(_) =>
    }
  }

  lemma {:induction false} RunSnoc(pool: Pool, s: State, events: seq<Event>, e: Event)
    ensures DhcpProofs.Run(pool, s, events + [e]) == Next(pool, DhcpProofs.Run(pool, s, events), e)
    decreases |events|
  {
    if events == [] {
      assert (events + [e])[1..] == [];
    } else {
      RunSnoc(pool, Next(pool, s, events[0]), events[1..], e);
      assert (events + [e])[1..] == events[1..] + [e];
    }
  }

  /** In every run with a clock that does not go back, the table holds exactly what the answers so far say. */
  lemma {:induction false} TableIsHistory(pool: Pool, events: seq<Event>, mac: Mac, now: real)
    requires Ordered(events) && NotBefore(events, now)
    ensures Tells(Exec(pool, events), mac, Grants(pool, events, mac), now)
  {
    if events != [] {
      var init, e := events[..|events| - 1], events[|events| - 1];
      TableIsHistory(pool, init, mac, e.now);
      assert events == init + [e];
      RunSnoc(pool, EMPTY, init, e);
      var gs, g := Grants(pool, init, mac), GrantOf(pool, Exec(pool, init), e, mac);
      NextTells(pool, Exec(pool, init), mac, gs, e.now, e);
      assert gs + [] == gs;
      Later(Exec(pool, events), mac, Grants(pool, events, mac), e.now, now);
    }
  }

  lemma Later(s: State, mac: Mac, gs: seq<Grant>, before: real, now: real)
    requires Tells(s, mac, gs, before) && before <= now
    ensures Tells(s, mac, gs, now)
  {
  }

  // ---- Acknowledgement ---------------------------------------------------------------------------------------------

  /**
   In every run: a REQUEST is acknowledged if and only if the client's last positive answer is at most an hour old
   and was about that address, and either no acknowledgement still stands or the REQUEST repeats its transaction.
   */
  lemma AcknowledgedIff(pool: Pool, events: seq<Event>, mac: Mac, xid: int, ip: Ip, now: real)
    requires Ordered(events) && NotBefore(events, now)
    ensures Request(Exec(pool, events), mac, xid, ip, now).1 <==> Acknowledges(Grants(pool, events, mac), xid, ip, now)
  {
    TableIsHistory(pool, events, mac, now);
    RequestTells(Exec(pool, events), mac, Grants(pool, events, mac), now, xid, ip, now);
  }

  /** No event of these is one of the client's. */
  predicate OfOthers(events: seq<Event>, mac: Mac) {
    forall i :: 0 <= i < |events| ==> events[i].Swept? || events[i].mac != mac
  }

  lemma {:induction false} OthersGrantNothing(pool: Pool, events: seq<Event>, others: seq<Event>, mac: Mac)
    requires OfOthers(others, mac)
    ensures Grants(pool, events + others, mac) == Grants(pool, events, mac)
    decreases |others|
  {
    if others == [] {
      assert events + others == events;
    } else {
      var init := others[..|others| - 1];
      OthersGrantNothing(pool, events, init, mac);
      assert (events + others)[..|events + others| - 1] == events + init;
      assert Grants(pool, events, mac) + [] == Grants(pool, events, mac);
    }
  }

  /**
   An offer can be taken up: after a DISCOVER at time `t` that offered an address, and whatever other clients do, a
   REQUEST for it within the hour is acknowledged if it carries the same transaction, and with any transaction
   unless the DISCOVER only repeated one that had been acknowledged and still stood.
   */
  lemma OfferCanBeTakenUp(pool: Pool, before: seq<Event>, mac: Mac, xid: int, t: real, others: seq<Event>,
                          ip: Ip, xid': int, now: real)
    requires var events := before + [Discovered(mac, xid, t)] + others;
             Ordered(events) && NotBefore(events, now) && OfOthers(others, mac)
    requires Discover(pool, Exec(pool, before), mac, xid, t).1 == Some(ip) && now <= t + 3600.0
    ensures var events := before + [Discovered(mac, xid, t)] + others;
            var gs := Grants(pool, before, mac);
            var repeated := Settled(gs) && Live(gs, t) && xid == Last(gs).xid;
            Request(Exec(pool, events), mac, xid', ip, now).1 <==> xid' == xid || !repeated
  {
    var asked := before + [Discovered(mac, xid, t)];
    assert asked[..|before|] == before;
    OthersGrantNothing(pool, asked, others, mac);
    AcknowledgedIff(pool, asked + others, mac, xid', ip, now);
    SettledSnoc(Grants(pool, before, mac), Grant(ip, xid, t, false));
  }

  // ---- Offers -----------------------------------------------------------------------------------------------

  function Clients(events: seq<Event>): set<Mac> {
    set i | 0 <= i < |events| && !events[i].Swept? :: events[i].mac
  }

  /** The clients whose last positive answer is at most an hour old. */
  function LiveClients(pool: Pool, events: seq<Event>, now: real): set<Mac> {
    set m | m in Clients(events) && Live(Grants(pool, events, m), now)
  }

  /** The addresses that those answers were about. */
  function LiveAddresses(pool: Pool, events: seq<Event>, now: real): set<Ip> {
    set m | m in LiveClients(pool, events, now) :: Last(Grants(pool, events, m)).ip
  }

  lemma {:induction false} GrantedIsClient(pool: Pool, events: seq<Event>, mac: Mac)
    requires Grants(pool, events, mac) != []
    ensures mac in Clients(events)
  {
    var n := |events| - 1;
    if Grants(pool, events[..n], mac) != [] {
      GrantedIsClient(pool, events[..n], mac);
      assert Clients(events[..n]) <= Clients(events);
    } else {
      assert events[n].mac == mac;
    }
  }

  lemma LiveTable(pool: Pool, events: seq<Event>, now: real)
    requires Ordered(events) && NotBefore(events, now)
    ensures Cleaned(Exec(pool, events), now).leases.Keys == LiveClients(pool, events, now)
    ensures Cleaned(Exec(pool, events), now).taken == LiveAddresses(pool, events, now)
  {
    var s := Cleaned(Exec(pool, events), now);
    forall m
      ensures m in s.leases <==> m in LiveClients(pool, events, now)
      ensures m in s.leases ==> s.leases[m].ip == Last(Grants(pool, events, m)).ip
    {
      TableIsHistory(pool, events, m, now);
      CleanedTells(Exec(pool, events), m, Grants(pool, events, m), now, now);
      if Grants(pool, events, m) != [] {
        GrantedIsClient(pool, events, m);
      }
    }
    LeasesStayDistinct(pool, events);
    CleanedInv(pool, Exec(pool, events), now);
    SameTaken(pool, s, LiveClients(pool, events, now), LiveAddresses(pool, events, now));
  }

  lemma SameTaken(pool: Pool, s: State, macs: set<Mac>, ips: set<Ip>)
    requires Inv(pool, s) && s.leases.Keys == macs && ips == set m | m in macs :: s.leases[m].ip
    ensures s.taken == ips
  {
    forall ip
      ensures ip in s.taken <==> ip in ips
    {
      if ip in ips {
        var m :| m in macs && s.leases[m].ip == ip;
        assert Leased(pool, s, m);
      }
    }
  }

  /**
   In every run, what a DISCOVER offers: a client whose last positive answer is at most an hour old gets the same
   address again; any other client gets the lowest address of the pool that no such client has, and is refused if
   and only if there are as many such clients as addresses.
   */
  lemma OfferIsExact(pool: Pool, events: seq<Event>, mac: Mac, xid: int, now: real)
    requires Ordered(events) && NotBefore(events, now)
    ensures var offered := Discover(pool, Exec(pool, events), mac, xid, now).1;
            var gs, held := Grants(pool, events, mac), LiveAddresses(pool, events, now);
            if Live(gs, now) then offered == Some(Last(gs).ip)
            else match offered
                 case None => |LiveClients(pool, events, now)| == pool.Size()
                 case Some(ip) =>
                   && |LiveClients(pool, events, now)| != pool.Size()
                   && pool.Contains(ip) && ip !in held
                   && forall n :: ToInt(pool.first) <= n < ToInt(ip) ==> FromInt(n) in held
  {
    var s := Exec(pool, events);
    TableIsHistory(pool, events, mac, now);
    DiscoverTells(pool, s, mac, Grants(pool, events, mac), now, xid, now);
    CleanedTells(s, mac, Grants(pool, events, mac), now, now);
    LiveTable(pool, events, now);
    if !Live(Grants(pool, events, mac), now) {
      RefusedIffExhausted(pool, events, mac, xid, now);
      FirstFreeSpec(Cleaned(s, now).taken, ToInt(pool.first), ToInt(pool.last));
    }
  }
}
