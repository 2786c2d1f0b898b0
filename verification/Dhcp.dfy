/** The DHCP lease table: allocation from a pool, the DISCOVER/REQUEST handshake and expiry. */
module Dhcp {
  import opened Wire

  const LEASE_TIME: real := 3600.0

  type Mac = string

  datatype Ip = Ip(a: Byte, b: Byte, c: Byte, d: Byte)

  datatype Phase = Selecting | Bound

  datatype Lease = Lease(ip: Ip, xid: int, expiresAt: real, phase: Phase)

  /** The lease table and, kept separately, the set of addresses in use. */
  datatype State = State(leases: map<Mac, Lease>, taken: set<Ip>)

  const EMPTY := State(map[], {})

  /** The address as a 32-bit number, most significant octet first. */
  function ToInt(ip: Ip): (n: nat)
    ensures n < 0x1_0000_0000
  {
    FromBigEndianBound([ip.a, ip.b, ip.c, ip.d]);
    assert Pow256(4) == 0x1_0000_0000;
    FromBigEndian([ip.a, ip.b, ip.c, ip.d])
  }

  function FromInt(n: nat): Ip {
    var octets := BigEndian(n, 4);
    Ip(octets[0], octets[1], octets[2], octets[3])
  }

  /** The addresses from number `first` to number `last`. */
  datatype Pool = Pool(first: Ip, last: Ip) {
    predicate Contains(ip: Ip) {
      ToInt(first) <= ToInt(ip) <= ToInt(last)
    }

    function Size(): nat {
      if ToInt(first) <= ToInt(last) then ToInt(last) - ToInt(first) + 1 else 0
    }
  }

  // ---- Expiry -------------------------------------------------------------------------------------------

  predicate Expired(l: Lease, now: real) {
    now > l.expiresAt
  }

  function Evict(s: State, mac: Mac): State
    requires mac in s.leases
  {
    State(s.leases - {mac}, s.taken - {s.leases[mac].ip})
  }

  /** The table without its expired leases; their addresses are free again. */
  function Cleaned(s: State, now: real): State {
    State(map m | m in s.leases && !Expired(s.leases[m], now) :: s.leases[m],
          s.taken - set m | m in s.leases && Expired(s.leases[m], now) :: s.leases[m].ip)
  }

  // ---- Allocation ---------------------------------------------------------------------------------------

  /** The first free address numbered from `n` to `last`. */
  function FirstFree(taken: set<Ip>, n: nat, last: nat): Option<Ip>
    decreases last - n
  {
    if n > last then None
    else if FromInt(n) !in taken then Some(FromInt(n))
    else FirstFree(taken, n + 1, last)
  }

  function Available(pool: Pool, s: State): Option<Ip> {
    FirstFree(s.taken, ToInt(pool.first), ToInt(pool.last))
  }

  function Discover(pool: Pool, s0: State, mac: Mac, xid: int, now: real): (State, Option<Ip>) {
    var s := Cleaned(s0, now);
    if mac in s.leases then
      var l := s.leases[mac];
      var phase := if l.xid == xid then l.phase else Selecting;
      var renewed := l.(xid := xid, expiresAt := now + LEASE_TIME, phase := phase);
      (s.(leases := s.leases[mac := renewed]), Some(l.ip))
    else
      match Available(pool, s)
      case None => (s, None)
      case Some(ip) =>
        (State(s.leases[mac := Lease(ip, xid, now + LEASE_TIME, Selecting)], s.taken + {ip}), Some(ip))
  }

  function Request(s0: State, mac: Mac, xid: int, requested: Ip, now: real): (State, bool) {
    var s := Cleaned(s0, now);
    if mac !in s.leases || s.leases[mac].ip != requested then (s, false)
    else
      var l := s.leases[mac];
      if (l.xid == xid && l.phase == Bound) || l.phase == Selecting
      then (s.(leases := s.leases[mac := l.(xid := xid, phase := Bound, expiresAt := now + LEASE_TIME)]), true)
      else (s, false)
  }

  // ---- The mutable manager --------------------------------------------------------------------------------

  class IPManager {
    const pool: Pool
    var leasedIps: map<Mac, Lease>
    var allocatedIps: set<Ip>

    ghost function Value(): State
      reads this
    {
      State(leasedIps, allocatedIps)
    }

    constructor (startIp: Ip, endIp: Ip)
      ensures pool == Pool(startIp, endIp) && Value() == EMPTY
    {
      pool := Pool(startIp, endIp);
      leasedIps, allocatedIps := map[], {};
    }

    method GetNextAvailableIp() returns (ip: Option<Ip>)
      ensures ip == Available(pool, Value())
    {
      var end: int := ToInt(pool.last);
      var i := ToInt(pool.first);
      while i <= end
        invariant 0 <= i
        invariant FirstFree(allocatedIps, i, end) == Available(pool, Value())
        decreases end - i
      {
        if FromInt(i) !in allocatedIps {
          return Some(FromInt(i));
        }
        i := i + 1;
      }
      return None;
    }

    method CleanupExpiredLeases(now: real)
      modifies this
      ensures Value() == Cleaned(old(Value()), now)
    {
      var expiredMacs := set m | m in leasedIps && now > leasedIps[m].expiresAt;
      ghost var gone: set<Mac> := {};
      while expiredMacs != {}
        invariant gone !! expiredMacs
        invariant gone + expiredMacs == set m | m in old(leasedIps) && Expired(old(leasedIps)[m], now)
        invariant leasedIps == old(leasedIps) - gone
        invariant allocatedIps == old(allocatedIps) - set m | m in gone :: old(leasedIps)[m].ip
        decreases expiredMacs
      {
        var mac :| mac in expiredMacs;
        allocatedIps := allocatedIps - {leasedIps[mac].ip};
        leasedIps := leasedIps - {mac};
        expiredMacs := expiredMacs - {mac};
        gone := gone + {mac};
      }
    }

    method HandleDiscover(mac: Mac, xid: int, now: real) returns (offered: Option<Ip>, leaseTime: real)
      modifies this
      ensures (Value(), offered) == Discover(pool, old(Value()), mac, xid, now)
      ensures leaseTime == if offered.Some? then LEASE_TIME else 0.0
    {
      CleanupExpiredLeases(now);
      if mac in leasedIps {
        var lease := leasedIps[mac];
        if lease.xid == xid {
          leasedIps := leasedIps[mac := lease.(expiresAt := now + LEASE_TIME)];
          return Some(lease.ip), LEASE_TIME;
        }
        leasedIps := leasedIps[mac := lease.(xid := xid, phase := Selecting, expiresAt := now + LEASE_TIME)];
        return Some(lease.ip), LEASE_TIME;
      }
      offered := GetNextAvailableIp();
      if offered.None? {
        return None, 0.0;
      }
      allocatedIps := allocatedIps + {offered.value};
      leasedIps := leasedIps[mac := Lease(offered.value, xid, now + LEASE_TIME, Selecting)];
      leaseTime := LEASE_TIME;
    }

    method HandleRequest(mac: Mac, xid: int, requestedIp: Ip, now: real) returns (ack: bool)
      modifies this
      ensures (Value(), ack) == Request(old(Value()), mac, xid, requestedIp, now)
    {
      CleanupExpiredLeases(now);
      if mac !in leasedIps {
        return false;
      }
      var lease := leasedIps[mac];
      if lease.ip != requestedIp {
        return false;
      }
      if lease.xid == xid && lease.phase == Bound {
        leasedIps := leasedIps[mac := lease.(expiresAt := now + LEASE_TIME)];
        return true;
      }
      if lease.phase == Selecting {
        leasedIps := leasedIps[mac := lease.(xid := xid, phase := Bound, expiresAt := now + LEASE_TIME)];
        return true;
      }
      return false;
    }
  }
}
