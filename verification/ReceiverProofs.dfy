/**
 The receiver refines a set: it behaves as if it kept every accepted segment for ever, handed over
 the gap-free beginning and acknowledged the least missing number.
 */
module ReceiverProofs {
  import opened Wire
  import opened Receiver
  import Fragment
  import Ranges
  import Runs

  type Accepted = map<nat, Packet>

  // ---- The simple receiver -------------------------------------------------------------------

  /** Least number, from `i` on, that has not been accepted. */
  function LeastFrom(acc: Accepted, i: nat): (n: nat)
    requires forall j :: 0 <= j < i ==> j in acc
    ensures n !in acc && forall j :: 0 <= j < n ==> j in acc
    decreases |acc| - i
  {
    Ranges.CoversInterval(acc.Keys, 0, i);
    if i in acc then
      Ranges.CoversInterval(acc.Keys, 0, i + 1);
      LeastFrom(acc, i + 1)
    else i
  }

  function Least(acc: Accepted): (n: nat)
    ensures n !in acc && forall j :: 0 <= j < n ==> j in acc
  {
    LeastFrom(acc, 0)
  }

  function Accept(acc: Accepted, p: Packet): Accepted {
    if p.seqNum in acc || p.seqNum >= Least(acc) + MAX_RWND then acc else acc[p.seqNum := p]
  }

  function AcceptAll(arrivals: seq<Packet>): Accepted {
    if arrivals == [] then map[] else Accept(AcceptAll(arrivals[..|arrivals| - 1]), arrivals[|arrivals| - 1])
  }

  /** The first `n` segments, in order. */
  function InOrder(acc: Accepted, n: nat): seq<Packet>
    requires forall j :: 0 <= j < n ==> j in acc
  {
    seq(n, i requires 0 <= i < n => acc[i])
  }

  // ---- The real receiver over a whole arrival sequence ---------------------------------------

  datatype History = History(state: State, delivered: seq<Bytes>, replies: seq<Reply>)

  function Extend(h: History, p: Packet): History {
    var (s, reply, out) := Process(h.state, p);
    History(s, h.delivered + out, h.replies + [reply])
  }

  function Run(arrivals: seq<Packet>): History {
    if arrivals == [] then History(INITIAL, [], [])
    else Extend(Run(arrivals[..|arrivals| - 1]), arrivals[|arrivals| - 1])
  }

  lemma RunSnoc(arrivals: seq<Packet>, p: Packet)
    ensures Run(arrivals + [p]) == Extend(Run(arrivals), p)
  {
    assert (arrivals + [p])[..|arrivals|] == arrivals;
  }

  function Beyond(acc: Accepted, n: nat): Accepted {
    map k | k in acc && n <= k :: acc[k]
  }

  lemma BeyondNext(acc: Accepted, n: nat)
    ensures Beyond(acc, n) - {n} == Beyond(acc, n + 1)
  {
  }

  /** All accepted segments below `expected` are assembled, all others are buffered. */
  predicate Tracks(s: State, delivered: seq<Bytes>, acc: Accepted) {
    && (forall j :: 0 <= j < s.expected ==> j in acc)
    && s.ooo == Beyond(acc, s.expected)
    && Fragment.Assembly(delivered, s.assembly) == Fragment.Assemble(InOrder(acc, s.expected))
  }

  /** Everything accepted lies in the window. */
  predicate Confined(s: State, acc: Accepted) {
    forall k :: k in acc ==> k < s.expected + MAX_RWND
  }

  lemma TakeTracks(s: State, delivered: seq<Bytes>, acc: Accepted)
    requires Tracks(s, delivered, acc) && s.expected in acc
    ensures var (t, out) := Take(s.(ooo := s.ooo - {s.expected}), acc[s.expected]);
            Tracks(t, delivered + out, acc)
  {
    var p := acc[s.expected];
    var (t, out) := Take(s.(ooo := s.ooo - {s.expected}), p);
    BeyondNext(acc, s.expected);
    assert InOrder(acc, t.expected) == InOrder(acc, s.expected) + [p];
    Fragment.AssembleSnoc(InOrder(acc, s.expected), p);
  }

  lemma {:induction false} DrainTracks(s: State, delivered: seq<Bytes>, acc: Accepted)
    requires Tracks(s, delivered, acc)
    ensures Tracks(Drain(s).0, delivered + Drain(s).1, acc)
    ensures Drain(s).0.expected == Least(acc) && s.expected <= Drain(s).0.expected
    decreases |s.ooo|
  {
    if s.expected in s.ooo {
      var (t, first) := Take(s.(ooo := s.ooo - {s.expected}), s.ooo[s.expected]);
      TakeTracks(s, delivered, acc);
      DrainUnfolds(s, t, first, delivered);
      DrainTracks(t, delivered + first, acc);
    } else {
      assert delivered + [] == delivered;
      LeastUnique(acc, s.expected);
    }
  }

  lemma LeastUnique(acc: Accepted, n: nat)
    requires n !in acc && forall j :: 0 <= j < n ==> j in acc
    ensures Least(acc) == n
  {
  }

  predicate Refined(s: State, delivered: seq<Bytes>, acc: Accepted) {
    Tracks(s, delivered, acc) && s.expected == Least(acc) && Confined(s, acc)
  }

  lemma TakeExpected(s: State, delivered: seq<Bytes>, acc: Accepted, p: Packet)
    requires Tracks(s, delivered, acc) && p.seqNum == s.expected && s.expected !in acc
    ensures var (t, first) := Take(s, p);
            Tracks(t, delivered + first, acc[p.seqNum := p]) && t.expected == s.expected + 1
  {
    var acc' := acc[p.seqNum := p];
    assert InOrder(acc', s.expected) == InOrder(acc, s.expected);
    var u := s.(ooo := s.ooo[p.seqNum := p]);
    assert Tracks(u, delivered, acc');
    assert s == u.(ooo := u.ooo - {s.expected});
    TakeTracks(u, delivered, acc');
  }

  lemma PlaceExpected(s: State, delivered: seq<Bytes>, acc: Accepted, p: Packet)
    requires Refined(s, delivered, acc) && p.seqNum == s.expected
    ensures Refined(Place(s, p).0, delivered + Place(s, p).1, acc[p.seqNum := p])
        && s.expected <= Place(s, p).0.expected
  {
    var (t, first) := Take(s, p);
    var acc' := acc[p.seqNum := p];
    TakeExpected(s, delivered, acc, p);
    DrainTracks(t, delivered + first, acc');
    PlaceUnfolds(s, p, t, first, delivered);
    assert Confined(Drain(t).0, acc');
  }

  lemma PlaceUnfolds(s: State, p: Packet, t: State, first: seq<Bytes>, delivered: seq<Bytes>)
    requires p.seqNum == s.expected && (t, first) == Take(s, p)
    ensures Place(s, p).0 == Drain(t).0 && delivered + Place(s, p).1 == (delivered + first) + Drain(t).1
  {
  }

  lemma PlaceAhead(s: State, delivered: seq<Bytes>, acc: Accepted, p: Packet)
    requires Refined(s, delivered, acc) && s.expected < p.seqNum < s.expected + MAX_RWND && p.seqNum !in acc
    ensures var t := s.(ooo := s.ooo[p.seqNum := p]);
            Refined(t, delivered, acc[p.seqNum := p])
  {
    var acc' := acc[p.seqNum := p];
    assert InOrder(acc', s.expected) == InOrder(acc, s.expected);
    LeastUnique(acc', s.expected);
  }

  lemma PlaceRefines(s: State, delivered: seq<Bytes>, acc: Accepted, p: Packet)
    requires Refined(s, delivered, acc)
    ensures var (t, out) := Place(s, p);
            Refined(t, delivered + out, Accept(acc, p)) && s.expected <= t.expected
  {
    assert delivered + [] == delivered;
    if p.seqNum == s.expected {
      PlaceExpected(s, delivered, acc, p);
    } else if InWindow(s, p.seqNum) && p.seqNum !in s.ooo {
      PlaceAhead(s, delivered, acc, p);
    } else {
      assert Accept(acc, p) == acc;
    }
  }

  /**
   After any arrival sequence the real receiver holds exactly what the simple one holds: the expected
   number is the least one missing, the buffer is the accepted segments above it, and the messages
   handed over and the partial one are the assembly of those below it.
   */
  lemma {:induction false} RunRefinesSet(arrivals: seq<Packet>)
    ensures Refined(Run(arrivals).state, Run(arrivals).delivered, AcceptAll(arrivals))
  {
    if arrivals == [] {
      assert InOrder(map[], 0) == [];
    } else {
      var init := arrivals[..|arrivals| - 1];
      RunRefinesSet(init);
      PlaceRefines(Run(init).state, Run(init).delivered, AcceptAll(init), arrivals[|arrivals| - 1]);
    }
  }

  // ---- Every single append -------------------------------------------------------------------

  /** All appends of a run, in order. */
  function AllAppends(arrivals: seq<Packet>): seq<Appended> {
    if arrivals == [] then []
    else
      var init := arrivals[..|arrivals| - 1];
      AllAppends(init) + Appends(Run(init).state, arrivals[|arrivals| - 1])
  }

  /** Append number `k` puts the accepted segment `k` behind what the ones below it leave in the buffer. */
  predicate AppendIs(a: Appended, acc: Accepted, k: nat) {
    && (forall j :: 0 <= j <= k ==> j in acc)
    && a == Appended(|Fragment.Assemble(InOrder(acc, k)).partial|, acc[k])
  }

  predicate AppendsAre(log: seq<Appended>, acc: Accepted, from: nat) {
    forall i :: 0 <= i < |log| ==> AppendIs(log[i], acc, from + i)
  }

  lemma {:induction false} DrainAppendsAre(s: State, delivered: seq<Bytes>, acc: Accepted)
    requires Tracks(s, delivered, acc)
    ensures AppendsAre(DrainAppends(s), acc, s.expected)
    ensures |DrainAppends(s)| == Drain(s).0.expected - s.expected
    decreases |s.ooo|
  {
    if s.expected in s.ooo {
      var (t, first) := Take(s.(ooo := s.ooo - {s.expected}), s.ooo[s.expected]);
      TakeTracks(s, delivered, acc);
      DrainUnfolds(s, t, first, delivered);
      DrainAppendsAre(t, delivered + first, acc);
      AppendsCons(Appended(|s.assembly|, s.ooo[s.expected]), DrainAppends(t), acc, s.expected);
    }
  }

  lemma AppendsCons(a: Appended, rest: seq<Appended>, acc: Accepted, from: nat)
    requires AppendIs(a, acc, from) && AppendsAre(rest, acc, from + 1)
    ensures AppendsAre([a] + rest, acc, from)
  {
    forall i | 0 <= i < |[a] + rest|
      ensures AppendIs(([a] + rest)[i], acc, from + i)
    {
      assert i > 0 ==> AppendIs(rest[i - 1], acc, from + 1 + (i - 1));
    }
  }

  lemma StepAppendsAre(s: State, delivered: seq<Bytes>, acc: Accepted, p: Packet)
    requires Refined(s, delivered, acc)
    ensures AppendsAre(Appends(s, p), Accept(acc, p), s.expected)
    ensures |Appends(s, p)| == Place(s, p).0.expected - s.expected
  {
    if p.seqNum == s.expected {
      var (t, first) := Take(s, p);
      var acc' := acc[p.seqNum := p];
      TakeExpected(s, delivered, acc, p);
      DrainAppendsAre(t, delivered + first, acc');
      assert InOrder(acc', s.expected) == InOrder(acc, s.expected);
      AppendsCons(Appended(|s.assembly|, p), DrainAppends(t), acc', s.expected);
      PlaceUnfolds(s, p, t, first, delivered);
    }
  }

  lemma AppendsKept(log: seq<Appended>, acc: Accepted, p: Packet)
    requires AppendsAre(log, acc, 0)
    ensures AppendsAre(log, Accept(acc, p), 0)
  {
    forall i | 0 <= i < |log|
      ensures AppendIs(log[i], Accept(acc, p), 0 + i)
    {
      assert AppendIs(log[i], acc, 0 + i);
      assert InOrder(Accept(acc, p), i) == InOrder(acc, i);
    }
  }

  /**
   In-order and drained appends alike: append number `k` of any run is the accepted segment `k`, and the
   buffer it goes to holds the unfinished message that the segments before it leave.
   */
  lemma {:induction false} RunAppendsAre(arrivals: seq<Packet>)
    ensures AppendsAre(AllAppends(arrivals), AcceptAll(arrivals), 0)
    ensures |AllAppends(arrivals)| == Run(arrivals).state.expected
  {
    if arrivals != [] {
      var init, p := arrivals[..|arrivals| - 1], arrivals[|arrivals| - 1];
      RunAppendsAre(init);
      RunRefinesSet(init);
      StepAppendsAre(Run(init).state, Run(init).delivered, AcceptAll(init), p);
      AppendsKept(AllAppends(init), AcceptAll(init), p);
      AppendsJoin(AllAppends(init), Appends(Run(init).state, p), AcceptAll(arrivals));
    }
  }

  lemma AppendsJoin(xs: seq<Appended>, ys: seq<Appended>, acc: Accepted)
    requires AppendsAre(xs, acc, 0) && AppendsAre(ys, acc, |xs|)
    ensures AppendsAre(xs + ys, acc, 0)
  {
    forall i | 0 <= i < |xs + ys|
      ensures AppendIs((xs + ys)[i], acc, 0 + i)
    {
      assert i >= |xs| ==> AppendIs(ys[i - |xs|], acc, |xs| + (i - |xs|));
      assert i < |xs| ==> AppendIs(xs[i], acc, 0 + i);
    }
  }

  /** One more arrival: the reply acknowledges the least number then missing, never less than before. */
  lemma LastReply(arrivals: seq<Packet>)
    requires arrivals != []
    ensures var init := arrivals[..|arrivals| - 1];
            && Run(arrivals).replies == Run(init).replies
               + [Reply(Least(AcceptAll(arrivals)), Advertised(Run(arrivals).state))]
            && Least(AcceptAll(init)) <= Least(AcceptAll(arrivals))
  {
    var init, p := arrivals[..|arrivals| - 1], arrivals[|arrivals| - 1];
    RunRefinesSet(init);
    PlaceRefines(Run(init).state, Run(init).delivered, AcceptAll(init), p);
  }

  /** Every reply acknowledges the least number missing at that point. */
  lemma {:induction false} RepliesAreLeast(arrivals: seq<Packet>, i: nat)
    requires i < |arrivals|
    ensures |Run(arrivals).replies| == |arrivals|
    ensures Run(arrivals).replies[i].ackNum == Least(AcceptAll(arrivals[..i + 1]))
  {
    var init := arrivals[..|arrivals| - 1];
    LastReply(arrivals);
    ReplyCount(init);
    if i == |arrivals| - 1 {
      Runs.PrefixOfPrefix(arrivals, i, i);
    } else {
      RepliesAreLeast(init, i);
      Runs.PrefixOfPrefix(arrivals, i + 1, |arrivals| - 1);
    }
  }

  lemma {:induction false} ReplyCount(arrivals: seq<Packet>)
    ensures |Run(arrivals).replies| == |arrivals|
  {
    if arrivals != [] {
      ReplyCount(arrivals[..|arrivals| - 1]);
    }
  }

  /** Acknowledgement numbers never decrease. */
  lemma {:induction false} LeastMonotone(arrivals: seq<Packet>, i: nat)
    requires i <= |arrivals|
    ensures Least(AcceptAll(arrivals[..i])) <= Least(AcceptAll(arrivals))
  {
    if i == |arrivals| {
      assert arrivals[..i] == arrivals;
    } else {
      var init := arrivals[..|arrivals| - 1];
      LeastMonotone(init, i);
      assert init[..i] == arrivals[..i];
      LastReply(arrivals);
    }
  }

  lemma RepliesMonotone(arrivals: seq<Packet>, i: nat, j: nat)
    requires i <= j < |arrivals|
    ensures |Run(arrivals).replies| == |arrivals| && Run(arrivals).replies[i].ackNum <= Run(arrivals).replies[j].ackNum
  {
    RepliesAreLeast(arrivals, i);
    RepliesAreLeast(arrivals, j);
    LeastMonotone(arrivals[..j + 1], i + 1);
    assert arrivals[..j + 1][..i + 1] == arrivals[..i + 1];
  }

  // ---- Flow control --------------------------------------------------------------------------

  /** What holds of the receiver after any arrivals whatsoever. */
  predicate Valid(s: State) {
    && (forall k :: k in s.ooo ==> s.expected < k < s.expected + MAX_RWND)
    && (s.flow == Normal ==> |s.ooo| < HIGH_THRESHOLD)
    && (s.flow == Throttle ==> |s.ooo| > LOW_THRESHOLD)
    && s.stats.delivered == s.expected
    && s.stats.fcThrottle == s.stats.fcNormal + (if s.flow == Throttle then 1 else 0)
  }

  lemma RwndPositive(s: State)
    requires forall k :: k in s.ooo ==> s.expected < k < s.expected + MAX_RWND
    ensures |s.ooo| < MAX_RWND && 1 <= Advertised(s) <= MAX_RWND && Advertised(s) == MAX_RWND - |s.ooo|
  {
    Ranges.WithinInterval(s.ooo.Keys, s.expected + 1, s.expected + MAX_RWND);
  }

  lemma {:induction false} DrainKeeps(s: State)
    requires forall k :: k in s.ooo ==> s.expected <= k < s.expected + MAX_RWND
    requires s.stats.delivered == s.expected
    ensures var t := Drain(s).0;
            && (forall k :: k in t.ooo ==> t.expected < k < t.expected + MAX_RWND)
            && t.stats == s.stats.(delivered := t.expected)
            && t.flow == s.flow
    decreases |s.ooo|
  {
    if s.expected in s.ooo {
      DrainKeeps(Take(s.(ooo := s.ooo - {s.expected}), s.ooo[s.expected]).0);
    }
  }

  lemma ProcessKeepsValid(s: State, p: Packet)
    requires Valid(s)
    ensures var (t, reply, out) := Process(s, p);
            Valid(t) && reply.ackNum == t.expected && 1 <= reply.rwnd <= MAX_RWND && reply.rwnd + |t.ooo| == MAX_RWND
  {
    if p.seqNum == s.expected {
      DrainKeeps(Take(s, p).0);
    }
    RwndPositive(Place(s, p).0);
  }

  lemma {:induction false} DrainAdvances(s: State)
    ensures s.expected <= Drain(s).0.expected && Drain(s).0.stats.drop == s.stats.drop
    decreases |s.ooo|
  {
    if s.expected in s.ooo {
      DrainAdvances(Take(s.(ooo := s.ooo - {s.expected}), s.ooo[s.expected]).0);
    }
  }

  /** A segment below the window's end is not dropped, and the expected one moves the window. */
  lemma ProcessAdvances(s: State, p: Packet)
    ensures var (t, reply, out) := Process(s, p);
            && s.expected <= t.expected && reply.ackNum == t.expected
            && (p.seqNum < s.expected + MAX_RWND ==> t.stats.drop == s.stats.drop)
            && (p.seqNum == s.expected ==> s.expected < t.expected)
  {
    if p.seqNum == s.expected {
      DrainAdvances(Take(s, p).0);
    }
  }

  /**
   After any arrivals: buffered numbers lie strictly inside the window, the advertised window is the
   free space and never zero, and the flow state lags the watermarks exactly as far as hysteresis allows.
   */
  lemma {:induction false} RunValid(arrivals: seq<Packet>)
    ensures Valid(Run(arrivals).state)
    ensures forall r :: r in Run(arrivals).replies ==> 1 <= r.rwnd <= MAX_RWND
  {
    if arrivals != [] {
      var init := arrivals[..|arrivals| - 1];
      RunValid(init);
      ProcessKeepsValid(Run(init).state, arrivals[|arrivals| - 1]);
    }
  }

  // ---- Counters ------------------------------------------------------------------------------

  /** What an arrival is, given the segments accepted before it. */
  datatype Kind = Late | TooFar | Awaited | Ahead | Held

  function KindOf(acc: Accepted, p: Packet): Kind {
    if p.seqNum < Least(acc) then Late
    else if p.seqNum >= Least(acc) + MAX_RWND then TooFar
    else if p.seqNum == Least(acc) then Awaited
    else if p.seqNum in acc then Held
    else Ahead
  }

  /** How many arrivals are of the given kind. */
  function Tally(arrivals: seq<Packet>, kind: Kind): nat {
    if arrivals == [] then 0
    else
      var init := arrivals[..|arrivals| - 1];
      Tally(init, kind) + if KindOf(AcceptAll(init), arrivals[|arrivals| - 1]) == kind then 1 else 0
  }

  lemma ProcessCounts(s: State, delivered: seq<Bytes>, acc: Accepted, p: Packet)
    requires Refined(s, delivered, acc) && Valid(s)
    ensures var (t, kind) := (Process(s, p).0, KindOf(acc, p));
            && t.stats.dup == s.stats.dup + (if kind == Late then 1 else 0)
            && t.stats.drop == s.stats.drop + (if kind == TooFar then 1 else 0)
            && t.stats.buffered == s.stats.buffered + (if kind == Ahead then 1 else 0)
            && t.stats.dropInvalid == s.stats.dropInvalid
  {
    if p.seqNum == s.expected {
      DrainKeeps(Take(s, p).0);
    }
  }

  /**
   The counters count: late arrivals, arrivals beyond the window and arrivals set aside. Every arrival is of
   one kind, and those that are awaited or set aside are the accepted ones.
   */
  lemma {:induction false} CountersCount(arrivals: seq<Packet>)
    ensures var stats := Run(arrivals).state.stats;
            && stats.dup == Tally(arrivals, Late)
            && stats.drop == Tally(arrivals, TooFar)
            && stats.buffered == Tally(arrivals, Ahead)
            && stats.dropInvalid == 0
    ensures |AcceptAll(arrivals)| == Tally(arrivals, Awaited) + Tally(arrivals, Ahead)
    ensures |arrivals| == Tally(arrivals, Late) + Tally(arrivals, TooFar) + Tally(arrivals, Awaited)
                        + Tally(arrivals, Ahead) + Tally(arrivals, Held)
  {
    if arrivals != [] {
      var init, p := arrivals[..|arrivals| - 1], arrivals[|arrivals| - 1];
      CountersCount(init);
      RunRefinesSet(init);
      RunValid(init);
      ProcessCounts(Run(init).state, Run(init).delivered, AcceptAll(init), p);
      AcceptCounts(AcceptAll(init), p);
    }
  }

  lemma AcceptCounts(acc: Accepted, p: Packet)
    ensures |Accept(acc, p)| == |acc| + (if KindOf(acc, p) in {Awaited, Ahead} then 1 else 0)
  {
    assert KindOf(acc, p) in {Awaited, Ahead} <==> Accept(acc, p) != acc;
    if Accept(acc, p) != acc {
      assert Accept(acc, p).Keys == acc.Keys + {p.seqNum};
      assert |acc.Keys + {p.seqNum}| == |acc.Keys| + 1;
    }
  }

  // ---- Order and duplication do not matter within the first window -----------------------------

  predicate SameNumberSamePacket(ps: set<Packet>) {
    forall p, q :: p in ps && q in ps && p.seqNum == q.seqNum ==> p == q
  }

  predicate FirstWindow(arrivals: seq<Packet>) {
    forall p :: p in arrivals ==> p.seqNum < MAX_RWND
  }

  function SetOf(arrivals: seq<Packet>): set<Packet> {
    set p | p in arrivals
  }

  lemma {:induction false} FirstWindowAcceptsAll(arrivals: seq<Packet>)
    requires FirstWindow(arrivals) && SameNumberSamePacket(SetOf(arrivals))
    ensures var acc := AcceptAll(arrivals);
            && (forall p :: p in arrivals ==> p.seqNum in acc && acc[p.seqNum] == p)
            && (forall k :: k in acc ==> acc[k] in arrivals && acc[k].seqNum == k)
  {
    if arrivals != [] {
      var init := arrivals[..|arrivals| - 1];
      assert forall p :: p in arrivals <==> p in init || p == arrivals[|arrivals| - 1];
      assert SetOf(init) <= SetOf(arrivals);
      FirstWindowAcceptsAll(init);
    }
  }

  /** The final data state and the messages delivered depend only on which segments arrived. */
  lemma OrderIrrelevant(xs: seq<Packet>, ys: seq<Packet>)
    requires FirstWindow(xs) && FirstWindow(ys)
    requires SetOf(xs) == SetOf(ys) && SameNumberSamePacket(SetOf(xs))
    ensures var (a, b) := (Run(xs), Run(ys));
            && a.state.expected == b.state.expected
            && a.state.ooo == b.state.ooo
            && a.state.assembly == b.state.assembly
            && a.delivered == b.delivered
            && (!(LOW_THRESHOLD < |a.state.ooo| < HIGH_THRESHOLD) ==> a.state.flow == b.state.flow)
  {
    FirstWindowAcceptsAll(xs);
    FirstWindowAcceptsAll(ys);
    assert forall p :: p in xs <==> p in SetOf(xs);
    assert forall p :: p in ys <==> p in SetOf(ys);
    assert AcceptAll(xs) == AcceptAll(ys);
    RunRefinesSet(xs);
    RunRefinesSet(ys);
    RunValid(xs);
    RunValid(ys);
  }
}
