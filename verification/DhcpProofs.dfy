/** No address is ever leased twice, and the pool is used to the last address. */
module DhcpProofs {
  import opened Wire
  import opened Dhcp
  import Ranges
  import WireProofs

  // ---- Address arithmetic --------------------------------------------------------------------------------

  /** Dotted decimal: the first octet is the most significant. */
  lemma ToIntIs(ip: Ip)
    ensures ToInt(ip) == ip.a as int * 0x100_0000 + ip.b as int * 0x1_0000 + ip.c as int * 0x100 + ip.d as int
  {
    WireProofs.WordValue([ip.a, ip.b, ip.c, ip.d]);
  }

  lemma FromToInt(ip: Ip)
    ensures FromInt(ToInt(ip)) == ip
  {
    WireProofs.EncodeDecode([ip.a, ip.b, ip.c, ip.d]);
  }

  lemma ToFromInt(n: nat)
    requires n < 0x1_0000_0000
    ensures ToInt(FromInt(n)) == n
  {
    var octets := BigEndian(n, 4);
    assert octets == [octets[0], octets[1], octets[2], octets[3]];
    WireProofs.DecodeEncode(n, 4);
  }

  // ---- The invariant ---------------------------------------------------------------------------------------

  predicate Leased(pool: Pool, s: State, mac: Mac)
    requires mac in s.leases
  {
    s.leases[mac].ip in s.taken && pool.Contains(s.leases[mac].ip)
  }

  /** The set of addresses in use is exactly that of the leases, which are in the pool and pairwise distinct. */
  ghost predicate Inv(pool: Pool, s: State) {
    && (forall m :: m in s.leases ==> Leased(pool, s, m))
    && (forall ip :: ip in s.taken ==> exists m :: m in s.leases && s.leases[m].ip == ip)
    && (forall m, n :: m in s.leases && n in s.leases && m != n ==> s.leases[m].ip != s.leases[n].ip)
  }

  lemma CleanedInv(pool: Pool, s: State, now: real)
    requires Inv(pool, s)
    ensures Inv(pool, Cleaned(s, now))
  {
    var t := Cleaned(s, now);
    forall m | m in t.leases
      ensures Leased(pool, t, m)
    {
      assert Leased(pool, s, m);
    }
    forall ip | ip in t.taken
      ensures exists m :: m in t.leases && t.leases[m].ip == ip
    {
      var m :| m in s.leases && s.leases[m].ip == ip;
      assert m in t.leases;
    }
  }

  /** The search returns a free address of the pool, or finds every one in use. */
  lemma {:induction false} FirstFreeSpec(taken: set<Ip>, n: nat, last: nat)
    requires last < 0x1_0000_0000
    ensures match FirstFree(taken, n, last)
            case Some(ip) =>
              && ip !in taken && n <= ToInt(ip) <= last
              && forall i :: n <= i < ToInt(ip) ==> FromInt(i) in taken
            case None => forall i :: n <= i <= last ==> FromInt(i) in taken
    decreases last - n
  {
    if n <= last {
      ToFromInt(n);
      if FromInt(n) in taken {
        FirstFreeSpec(taken, n + 1, last);
      }
    }
  }

  lemma DiscoverInv(pool: Pool, s0: State, mac: Mac, xid: int, now: real)
    requires Inv(pool, s0)
    ensures Inv(pool, Discover(pool, s0, mac, xid, now).0)
  {
    CleanedInv(pool, s0, now);
    var s := Cleaned(s0, now);
    FirstFreeSpec(s.taken, ToInt(pool.first), ToInt(pool.last));
    var t := Discover(pool, s0, mac, xid, now).0;
    if mac in s.leases {
      SameAddresses(pool, s, t);
    } else if Available(pool, s).Some? {
      AddressAdded(pool, s, mac, t.leases[mac]);
    }
  }

  lemma SameAddresses(pool: Pool, s: State, t: State)
    requires Inv(pool, s) && t.taken == s.taken && t.leases.Keys == s.leases.Keys
    requires forall m :: m in s.leases ==> t.leases[m].ip == s.leases[m].ip
    ensures Inv(pool, t)
  {
    forall m | m in t.leases
      ensures Leased(pool, t, m)
    {
      assert Leased(pool, s, m);
    }
    forall ip | ip in t.taken
      ensures exists m :: m in t.leases && t.leases[m].ip == ip
    {
      var m :| m in s.leases && s.leases[m].ip == ip;
      assert m in t.leases;
    }
  }

  lemma AddressAdded(pool: Pool, s: State, mac: Mac, l: Lease)
    requires Inv(pool, s) && mac !in s.leases && l.ip !in s.taken && pool.Contains(l.ip)
    ensures Inv(pool, State(s.leases[mac := l], s.taken + {l.ip}))
  {
    var t := State(s.leases[mac := l], s.taken + {l.ip});
    forall m | m in t.leases
      ensures Leased(pool, t, m)
    {
      assert m != mac ==> Leased(pool, s, m);
    }
    forall ip | ip in t.taken
      ensures exists m :: m in t.leases && t.leases[m].ip == ip
    {
      if ip == l.ip {
        assert mac in t.leases;
      } else {
        var m :| m in s.leases && s.leases[m].ip == ip;
        assert m in t.leases;
      }
    }
    forall m, n | m in t.leases && n in t.leases && m != n
      ensures t.leases[m].ip != t.leases[n].ip
    {
      assert m != mac ==> Leased(pool, s, m);
      assert n != mac ==> Leased(pool, s, n);
    }
  }

  lemma RequestInv(pool: Pool, s0: State, mac: Mac, xid: int, ip: Ip, now: real)
    requires Inv(pool, s0)
    ensures Inv(pool, Request(s0, mac, xid, ip, now).0)
  {
    CleanedInv(pool, s0, now);
    SameAddresses(pool, Cleaned(s0, now), Request(s0, mac, xid, ip, now).0);
  }

  // ---- Runs ---------------------------------------------------------------------------------------------------

  datatype Event =
    | Discovered(mac: Mac, xid: int, now: real)
    | Requested(mac: Mac, xid: int, ip: Ip, now: real)
    | Swept(now: real)

  function Next(pool: Pool, s: State, e: Event): State {
    match e
    case Discovered(mac, xid, now) => Discover(pool, s, mac, xid, now).0
    case Requested(mac, xid, ip, now) => Request(s, mac, xid, ip, now).0
    case Swept(now) => Cleaned(s, now)
  }

  function Run(pool: Pool, s: State, events: seq<Event>): State
    decreases |events|
  {
    if events == [] then s else Run(pool, Next(pool, s, events[0]), events[1..])
  }

  lemma NextInv(pool: Pool, s: State, e: Event)
    requires Inv(pool, s)
    ensures Inv(pool, Next(pool, s, e))
  {
    match e {
      case Discovered(mac, xid, now) => DiscoverInv(pool, s, mac, xid, now);
      case Requested(mac, xid, ip, now) => RequestInv(pool, s, mac, xid, ip, now);
      case Swept(now) => CleanedInv(pool, s, now);
    }
  }

  /** The table after `events`, from the manager's creation on. */
  function Exec(pool: Pool, events: seq<Event>): State {
    Run(pool, EMPTY, events)
  }

  lemma {:induction false} RunInv(pool: Pool, s: State, events: seq<Event>)
    requires Inv(pool, s)
    ensures Inv(pool, Run(pool, s, events))
    decreases |events|
  {
    if events != [] {
      NextInv(pool, s, events[0]);
      RunInv(pool, Next(pool, s, events[0]), events[1..]);
    }
  }

  /** In every run the two tables agree and no two clients share an address. */
  lemma LeasesStayDistinct(pool: Pool, events: seq<Event>)
    ensures Inv(pool, Exec(pool, events))
  {
    RunInv(pool, EMPTY, events);
  }

  // ---- Exclusivity ---------------------------------------------------------------------------------------------

  /** `mac` keeps address `ip` at least until `deadline`. */
  predicate Holds(s: State, mac: Mac, ip: Ip, deadline: real) {
    mac in s.leases && s.leases[mac].ip == ip && deadline <= s.leases[mac].expiresAt
  }

  lemma NextHolds(pool: Pool, s: State, e: Event, mac: Mac, ip: Ip, t: real)
    requires Holds(s, mac, ip, t + LEASE_TIME) && t <= e.now <= t + LEASE_TIME
    ensures Holds(Next(pool, s, e), mac, ip, t + LEASE_TIME)
  {
  }

  /** All events happen between `t` and the end of a lease granted at `t`. */
  predicate During(events: seq<Event>, t: real) {
    forall i :: 0 <= i < |events| ==> t <= events[i].now <= t + LEASE_TIME
  }

  lemma {:induction false} HeldThroughout(pool: Pool, s: State, events: seq<Event>, mac: Mac, ip: Ip, t: real)
    requires Holds(s, mac, ip, t + LEASE_TIME) && During(events, t)
    ensures Holds(Run(pool, s, events), mac, ip, t + LEASE_TIME)
    decreases |events|
  {
    if events != [] {
      NextHolds(pool, s, events[0], mac, ip, t);
      HeldThroughout(pool, Next(pool, s, events[0]), events[1..], mac, ip, t);
    }
  }

  /** An address offered or acknowledged at time `t` is held until a lease time later. */
  lemma GrantHolds(pool: Pool, s: State, mac: Mac, xid: int, ip: Ip, t: real)
    ensures Discover(pool, s, mac, xid, t).1 == Some(ip)
        ==> Holds(Discover(pool, s, mac, xid, t).0, mac, ip, t + LEASE_TIME)
    ensures Request(s, mac, xid, ip, t).1 ==> Holds(Request(s, mac, xid, ip, t).0, mac, ip, t + LEASE_TIME)
  {
  }

  /**
   After a REQUEST is acknowledged at time `t`, whatever happens until the lease runs out, no other client is
   offered the address and no other client's REQUEST for it is acknowledged.
   */
  lemma Exclusive(pool: Pool, before: seq<Event>, mac: Mac, xid: int, ip: Ip, t: real, events: seq<Event>,
                  other: Mac, otherXid: int, now: real)
    requires Request(Exec(pool, before), mac, xid, ip, t).1
    requires During(events, t) && t <= now <= t + LEASE_TIME && other != mac
    ensures var u := Run(pool, Request(Exec(pool, before), mac, xid, ip, t).0, events);
            Discover(pool, u, other, otherXid, now).1 != Some(ip) && !Request(u, other, otherXid, ip, now).1
  {
    var s := Exec(pool, before);
    var g := Request(s, mac, xid, ip, t).0;
    LeasesStayDistinct(pool, before);
    GrantHolds(pool, s, mac, xid, ip, t);
    RequestInv(pool, s, mac, xid, ip, t);
    RunInv(pool, g, events);
    HeldThroughout(pool, g, events, mac, ip, t);
    HeldExcludes(pool, Run(pool, g, events), mac, ip, t, other, otherXid, now);
  }

  lemma HeldExcludes(pool: Pool, u: State, mac: Mac, ip: Ip, t: real, other: Mac, otherXid: int, now: real)
    requires Inv(pool, u) && Holds(u, mac, ip, t + LEASE_TIME) && t <= now <= t + LEASE_TIME && other != mac
    ensures Discover(pool, u, other, otherXid, now).1 != Some(ip) && !Request(u, other, otherXid, ip, now).1
  {
    CleanedInv(pool, u, now);
    var s := Cleaned(u, now);
    assert mac in s.leases && Leased(pool, s, mac);
    FirstFreeSpec(s.taken, ToInt(pool.first), ToInt(pool.last));
  }

  // ---- Refusal exactly when the pool is exhausted -------------------------------------------------------------

  function Numbers(ips: set<Ip>): set<nat> {
    set ip | ip in ips :: ToInt(ip)
  }

  lemma {:induction false} NumbersSize(ips: set<Ip>)
    ensures |Numbers(ips)| == |ips|
  {
    if ips != {} {
      var ip :| ip in ips;
      var rest := ips - {ip};
      NumbersSize(rest);
      forall other | other in rest
        ensures ToInt(other) != ToInt(ip)
      {
        FromToInt(other);
        FromToInt(ip);
      }
      assert Numbers(ips) == Numbers(rest) + {ToInt(ip)};
    }
  }

  lemma {:induction false} LeaseCount(pool: Pool, s: State)
    requires Inv(pool, s)
    ensures |s.leases| == |s.taken|
    decreases |s.leases|
  {
    if s.leases == map[] {
      assert s.taken == {};
    } else {
      var mac :| mac in s.leases;
      assert Leased(pool, s, mac);
      EvictInv(pool, s, mac);
      EvictSizes(s, mac);
      LeaseCount(pool, Evict(s, mac));
    }
  }

  lemma EvictSizes(s: State, mac: Mac)
    requires mac in s.leases && s.leases[mac].ip in s.taken
    ensures |s.leases| == |Evict(s, mac).leases| + 1 && |s.taken| == |Evict(s, mac).taken| + 1
  {
    assert Evict(s, mac).leases.Keys == s.leases.Keys - {mac};
  }

  lemma EvictInv(pool: Pool, s: State, mac: Mac)
    requires Inv(pool, s) && mac in s.leases
    ensures Inv(pool, Evict(s, mac))
  {
    var t := Evict(s, mac);
    forall m | m in t.leases
      ensures Leased(pool, t, m)
    {
      assert Leased(pool, s, m);
    }
    forall ip | ip in t.taken
      ensures exists m :: m in t.leases && t.leases[m].ip == ip
    {
      var m :| m in s.leases && s.leases[m].ip == ip;
      assert m in t.leases;
    }
  }

  lemma FullIffNoneFree(pool: Pool, s: State)
    requires Inv(pool, s)
    ensures |s.leases| <= pool.Size()
    ensures Available(pool, s).None? <==> |s.leases| == pool.Size()
  {
    LeaseCount(pool, s);
    NumbersSize(s.taken);
    var first, last := ToInt(pool.first), ToInt(pool.last);
    FirstFreeSpec(s.taken, first, last);
    forall n | n in Numbers(s.taken)
      ensures first <= n <= last
    {
      var ip :| ip in s.taken && ToInt(ip) == n;
      var m :| m in s.leases && s.leases[m].ip == ip;
      assert Leased(pool, s, m);
    }
    if first > last {
      assert Numbers(s.taken) == {};
    } else {
      Ranges.WithinInterval(Numbers(s.taken), first, last + 1);
      match Available(pool, s) {
        case None =>
          forall n | first <= n < last + 1
            ensures n in Numbers(s.taken)
          {
            ToFromInt(n);
            assert FromInt(n) in s.taken;
          }
          Ranges.CoversInterval(Numbers(s.taken), first, last + 1);
        case Some(ip) =>
          OneMore(pool, s, ip);
      }
    }
  }

  lemma OneMore(pool: Pool, s: State, ip: Ip)
    requires ip !in s.taken && pool.Contains(ip)
        && forall n :: n in Numbers(s.taken) ==> ToInt(pool.first) <= n <= ToInt(pool.last)
    ensures |s.taken| < pool.Size()
  {
    NumbersSize(s.taken + {ip});
    assert |s.taken + {ip}| == |s.taken| + 1;
    forall n | n in Numbers(s.taken + {ip})
      ensures ToInt(pool.first) <= n < ToInt(pool.last) + 1
    {
      var x :| x in s.taken + {ip} && ToInt(x) == n;
      if x in s.taken {
        assert n in Numbers(s.taken);
      }
    }
    Ranges.WithinInterval(Numbers(s.taken + {ip}), ToInt(pool.first), ToInt(pool.last) + 1);
  }

  /** A client without a live lease is refused exactly when the live leases use up the whole pool. */
  lemma RefusedIffExhausted(pool: Pool, events: seq<Event>, mac: Mac, xid: int, now: real)
    requires mac !in Cleaned(Exec(pool, events), now).leases
    ensures var s := Exec(pool, events);
            Discover(pool, s, mac, xid, now).1.None? <==> |Cleaned(s, now).leases| == pool.Size()
  {
    var s := Exec(pool, events);
    LeasesStayDistinct(pool, events);
    CleanedInv(pool, s, now);
    FullIffNoneFree(pool, Cleaned(s, now));
  }
}
