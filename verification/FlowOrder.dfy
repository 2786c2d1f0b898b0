/**
 The one part of the receiver's state that remembers the order of arrival: the watermark state. This
 module says for which sets of first-window segments the order can be told from it.
 */
module FlowOrder {
  import opened Wire
  import opened Receiver
  import opened ReceiverProofs
  import Ranges

  function Numbers(ps: seq<Packet>): set<nat> {
    set p | p in ps :: p.seqNum
  }

  function Above(numbers: set<nat>, n: nat): set<nat> {
    set k | k in numbers && k > n
  }

  /** First-window arrivals in which a number stands for one packet. */
  ghost predicate Coherent(ps: seq<Packet>) {
    FirstWindow(ps) && SameNumberSamePacket(SetOf(ps))
  }

  /** `n` is the least number that does not occur. */
  ghost predicate Gap(ps: seq<Packet>, n: nat) {
    n !in Numbers(ps) && forall j :: 0 <= j < n ==> j in Numbers(ps)
  }

  lemma CoherentPart(part: seq<Packet>, whole: seq<Packet>)
    requires Coherent(whole) && forall p :: p in part ==> p in whole
    ensures Coherent(part)
  {
    assert forall p :: p in SetOf(part) ==> p in SetOf(whole);
  }

  /** The buffer holds the numbers that arrived above the gap. */
  lemma BufferIs(ps: seq<Packet>, n: nat)
    requires Coherent(ps) && Gap(ps, n)
    ensures Run(ps).state.expected == n && Run(ps).state.ooo.Keys == Above(Numbers(ps), n)
    ensures |Run(ps).state.ooo| == |Above(Numbers(ps), n)|
  {
    AcceptedNumbers(ps);
    LeastUnique(AcceptAll(ps), n);
    RunRefinesSet(ps);
    var ooo := Run(ps).state.ooo;
    assert ooo.Keys == Above(Numbers(ps), n);
    assert |ooo| == |ooo.Keys|;
  }

  lemma AcceptedNumbers(ps: seq<Packet>)
    requires Coherent(ps)
    ensures AcceptAll(ps).Keys == Numbers(ps)
  {
    FirstWindowAcceptsAll(ps);
  }

  lemma BufferWithin(ps: seq<Packet>, numbers: set<nat>)
    requires Coherent(ps) && Numbers(ps) <= numbers
    ensures |Run(ps).state.ooo| <= |Above(numbers, 0)|
  {
    FirstWindowAcceptsAll(ps);
    RunRefinesSet(ps);
    RunValid(ps);
    Ranges.SubsetSize(Run(ps).state.ooo.Keys, Above(numbers, 0));
  }

  // ---- Staying on one side ---------------------------------------------------------------------

  lemma StepKeepsFlow(s: State, p: Packet)
    requires Valid(s)
    ensures var t := Process(s, p).0;
            && (s.flow == Normal && |t.ooo| < HIGH_THRESHOLD ==> t.flow == Normal)
            && (s.flow == Throttle && |t.ooo| > LOW_THRESHOLD ==> t.flow == Throttle)
  {
    if p.seqNum == s.expected {
      DrainKeeps(Take(s, p).0);
    }
  }

  lemma NormalAfter(ps: seq<Packet>)
    requires ps != [] && Run(ps[..|ps| - 1]).state.flow == Normal && |Run(ps).state.ooo| < HIGH_THRESHOLD
    ensures Run(ps).state.flow == Normal
  {
    RunValid(ps[..|ps| - 1]);
    StepKeepsFlow(Run(ps[..|ps| - 1]).state, ps[|ps| - 1]);
  }

  lemma NormalAfterLast(ps: seq<Packet>, init: seq<Packet>)
    requires ps != [] && init == ps[..|ps| - 1] && Run(init).state.flow == Normal
    requires |Run(ps).state.ooo| < HIGH_THRESHOLD
    ensures Run(ps).state.flow == Normal
  {
    NormalAfter(ps);
  }

  /** With too few numbers to fill the buffer, no order throttles. */
  lemma {:induction false} TooFewToThrottle(ps: seq<Packet>, numbers: set<nat>)
    requires Coherent(ps) && Numbers(ps) <= numbers && |Above(numbers, 0)| < HIGH_THRESHOLD
    ensures Run(ps).state.flow == Normal
  {
    if ps != [] {
      var init := ps[..|ps| - 1];
      CoherentPart(init, ps);
      TooFewToThrottle(init, numbers);
      BufferWithin(ps, numbers);
      NormalAfter(ps);
    }
  }

  // ---- The two orders ------------------------------------------------------------------------

  function Later(ps: seq<Packet>, n: nat): (r: seq<Packet>)
    ensures forall p :: p in r <==> p in ps && p.seqNum > n
  {
    if ps == [] then []
    else Later(ps[..|ps| - 1], n) + (if ps[|ps| - 1].seqNum > n then [ps[|ps| - 1]] else [])
  }

  /** Moving the first segment to the end neither adds nor loses one. */
  lemma HeldBack(ps: seq<Packet>, first: Packet)
    requires Coherent(ps) && first in ps && first.seqNum == 0
    ensures SetOf(Later(ps, 0) + [first]) == SetOf(ps)
  {
    forall p | p in ps
      ensures p in Later(ps, 0) + [first]
    {
      assert p in SetOf(ps) && first in SetOf(ps);
    }
  }

  lemma WithoutFirst(ps: seq<Packet>)
    requires Coherent(ps) && |Above(Numbers(ps), 0)| >= HIGH_THRESHOLD
    ensures Run(Later(ps, 0)).state.flow == Throttle && Valid(Run(Later(ps, 0)).state)
  {
    var later := Later(ps, 0);
    CoherentPart(later, ps);
    assert Above(Numbers(later), 0) == Above(Numbers(ps), 0);
    BufferIs(later, 0);
    RunValid(later);
  }

  /** Holding the first segment back until everything else is there throttles. */
  lemma FirstLastThrottles(ps: seq<Packet>, n: nat) returns (xs: seq<Packet>)
    requires Coherent(ps) && Gap(ps, n)
    requires LOW_THRESHOLD < |Above(Numbers(ps), n)| < HIGH_THRESHOLD <= |Above(Numbers(ps), 0)|
    ensures SetOf(xs) == SetOf(ps) && Run(xs).state.flow == Throttle
  {
    assert n != 0;
    assert 0 in Numbers(ps);
    var first :| first in ps && first.seqNum == 0;
    xs := Later(ps, 0) + [first];
    HeldBack(ps, first);
    SameNumbers(xs, ps);
    BufferIs(xs, n);
    WithoutFirst(ps);
    RunSnoc(Later(ps, 0), first);
    StepKeepsFlow(Run(Later(ps, 0)).state, first);
  }

  /** The segments below the gap in order, then the rest. */
  lemma InOrderStaysNormal(ps: seq<Packet>, n: nat) returns (ys: seq<Packet>)
    requires Coherent(ps) && Gap(ps, n) && |Above(Numbers(ps), n)| < HIGH_THRESHOLD
    ensures SetOf(ys) == SetOf(ps) && Run(ys).state.flow == Normal
  {
    FirstWindowAcceptsAll(ps);
    var acc := AcceptAll(ps);
    assert acc.Keys == Numbers(ps);
    var head, tail := InOrder(acc, n), Later(ps, n);
    ys := head + tail;
    Split(ps, n, acc, head, tail);
    SameNumbers(ys, ps);
    CoherentPart(head, ps);
    HeadIsNormal(head, n);
    TailStaysNormal(head, tail, n);
  }

  lemma HeadIsNormal(head: seq<Packet>, n: nat)
    requires Coherent(head) && |head| == n && forall i :: 0 <= i < n ==> head[i].seqNum == i
    ensures Gap(head, n) && Run(head).state.flow == Normal
  {
    forall i | 0 <= i < n
      ensures i in Numbers(head)
    {
      assert head[i] in head;
    }
    assert Above(Numbers(head), n) == {};
    BufferIs(head, n);
    RunValid(head);
  }

  lemma Split(ps: seq<Packet>, n: nat, acc: Accepted, head: seq<Packet>, tail: seq<Packet>)
    requires Gap(ps, n) && (forall j :: 0 <= j < n ==> j in acc)
    requires forall p :: p in ps ==> p.seqNum in acc && acc[p.seqNum] == p
    requires forall k :: k in acc ==> acc[k] in ps && acc[k].seqNum == k
    requires head == InOrder(acc, n) && tail == Later(ps, n)
    ensures SetOf(head + tail) == SetOf(ps) && (forall p :: p in head + tail <==> p in ps)
    ensures forall i :: 0 <= i < n ==> head[i].seqNum == i
  {
    forall p | p in ps
      ensures p in head + tail
    {
      assert p.seqNum in Numbers(ps);
      assert p.seqNum < n ==> head[p.seqNum] == p;
    }
    forall p | p in head + tail
      ensures p in ps
    {
      assert p in head ==> p in ps;
    }
  }

  /** Arrivals above the gap cannot throttle if the final buffer is below the high watermark. */
  lemma {:induction false} TailStaysNormal(head: seq<Packet>, tail: seq<Packet>, n: nat)
    requires Coherent(head + tail) && Gap(head, n) && (forall p :: p in tail ==> p.seqNum > n)
    requires |Above(Numbers(head + tail), n)| < HIGH_THRESHOLD && Run(head).state.flow == Normal
    ensures Run(head + tail).state.flow == Normal
    decreases |tail|
  {
    if tail == [] {
      assert head + tail == head;
    } else {
      var init := tail[..|tail| - 1];
      assert (head + tail)[..|head + tail| - 1] == head + init;
      CoherentPart(head + init, head + tail);
      Ranges.SubsetSize(Above(Numbers(head + init), n), Above(Numbers(head + tail), n));
      TailStaysNormal(head, init, n);
      GapStays(head, tail, n);
      BufferIs(head + tail, n);
      NormalAfterLast(head + tail, head + init);
    }
  }

  lemma GapStays(head: seq<Packet>, tail: seq<Packet>, n: nat)
    requires Gap(head, n) && forall p :: p in tail ==> p.seqNum > n
    ensures Gap(head + tail, n)
  {
    assert Numbers(head + tail) == Numbers(head) + Numbers(tail);
  }

  /** Two arrival orders of the same segments that end in different watermark states. */
  ghost predicate Tells(ps: seq<Packet>, xs: seq<Packet>, ys: seq<Packet>) {
    SetOf(xs) == SetOf(ps) && SetOf(ys) == SetOf(ps) && Run(xs).state.flow != Run(ys).state.flow
  }

  lemma SameNumbers(xs: seq<Packet>, ps: seq<Packet>)
    requires SetOf(xs) == SetOf(ps)
    ensures Numbers(xs) == Numbers(ps) && (Coherent(ps) ==> Coherent(xs))
  {
    assert forall p :: p in xs <==> p in SetOf(xs);
    assert forall p :: p in ps <==> p in SetOf(ps);
  }

  lemma TellingNeeds(ps: seq<Packet>, n: nat, xs: seq<Packet>, ys: seq<Packet>)
    requires Coherent(ps) && Gap(ps, n) && Tells(ps, xs, ys)
    ensures LOW_THRESHOLD < |Above(Numbers(ps), n)| < HIGH_THRESHOLD <= |Above(Numbers(ps), 0)|
  {
    SameNumbers(xs, ps);
    SameNumbers(ys, ps);
    BufferIs(xs, n);
    BufferIs(ys, n);
    OrderIrrelevant(xs, ys);
    if |Above(Numbers(ps), 0)| < HIGH_THRESHOLD {
      TooFewToThrottle(xs, Numbers(ps));
      TooFewToThrottle(ys, Numbers(ps));
      assert false;
    }
  }

  /**
   The watermark state depends on the order of arrival exactly for those sets of segments that leave the
   buffer between the watermarks although they could have filled it to the high one.
   */
  lemma FlowDependsOnOrderIff(ps: seq<Packet>, n: nat)
    requires Coherent(ps) && Gap(ps, n)
    ensures (exists xs, ys :: Tells(ps, xs, ys))
            <==> LOW_THRESHOLD < |Above(Numbers(ps), n)| < HIGH_THRESHOLD <= |Above(Numbers(ps), 0)|
  {
    if xs, ys :| Tells(ps, xs, ys) {
      TellingNeeds(ps, n, xs, ys);
    }
    if LOW_THRESHOLD < |Above(Numbers(ps), n)| < HIGH_THRESHOLD <= |Above(Numbers(ps), 0)| {
      var xs := FirstLastThrottles(ps, n);
      var ys := InOrderStaysNormal(ps, n);
      assert Tells(ps, xs, ys);
    }
  }
}
