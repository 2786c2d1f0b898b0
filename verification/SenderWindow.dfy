/**
 The sender's window in every run: what is in flight, what is queued, how much one call may send, and
 which packets a round-trip sample can come from.
 */
module SenderWindow {
  import opened Extrema
  import opened Wire
  import opened Sender
  import opened SenderProofs
  import Fragment
  import Congestion
  import Rtt
  import Ranges

  /** Least sequence number that was never transmitted. */
  function Unsent(s: State): int {
    s.nextSeq - |s.queue|
  }

  /**
   The queue holds exactly the numbers from `Unsent` on, in order; in-flight packets are filed under
   their own, smaller, number; and the byte counter is the sum of the in-flight payloads.
   */
  predicate Numbered(s: State) {
    && 0 <= Unsent(s)
    && (forall i :: 0 <= i < |s.queue| ==> Slot(s.queue[i], Unsent(s) + i))
    && (forall q :: q in s.unacked ==> q < Unsent(s) && Slot(s.unacked[q].packet, q))
    && s.inflightBytes == BytesBelow(s.unacked, Unsent(s))
    && s.lastAck == s.base
  }

  /** `p` carries number `q` and at most one segment's worth of payload. */
  predicate Slot(p: Packet, q: int) {
    p.seqNum == q && |p.payload| <= Fragment.MSS
  }

  // ---- Byte sums -----------------------------------------------------------------------------

  lemma {:induction false} BytesBelowAgree(m: map<nat, Inflight>, m': map<nat, Inflight>, n: nat)
    requires forall q :: 0 <= q < n ==> (q in m <==> q in m') && (q in m ==> m[q].packet == m'[q].packet)
    ensures BytesBelow(m, n) == BytesBelow(m', n)
  {
    if n > 0 {
      BytesBelowAgree(m, m', n - 1);
    }
  }

  lemma {:induction false} BytesBelowSplit(m: map<nat, Inflight>, ack: nat, n: nat)
    requires forall q :: q in m ==> q < n
    ensures BytesBelow(From(m, ack), n) == BytesBelow(m, n) - BytesBelow(m, ack)
  {
    if ack <= n {
      SplitUpTo(m, ack, n);
    } else {
      BytesBelowNone(From(m, ack), n);
      BytesBelowBeyond(m, n, ack);
    }
  }

  lemma {:induction false} SplitUpTo(m: map<nat, Inflight>, ack: nat, n: nat)
    requires ack <= n
    ensures BytesBelow(From(m, ack), n) == BytesBelow(m, n) - BytesBelow(m, ack)
  {
    if ack < n {
      SplitUpTo(m, ack, n - 1);
    } else {
      BytesBelowNone(From(m, ack), n);
    }
  }

  lemma {:induction false} BytesBelowBeyond(m: map<nat, Inflight>, n: nat, k: nat)
    requires n <= k && forall q :: q in m ==> q < n
    ensures BytesBelow(m, k) == BytesBelow(m, n)
    decreases k
  {
    if n < k {
      BytesBelowBeyond(m, n, k - 1);
    }
  }

  function CountBelow(m: map<nat, Inflight>, n: nat): nat {
    if n == 0 then 0 else CountBelow(m, n - 1) + if n - 1 in m then 1 else 0
  }

  function KeysBelow(m: map<nat, Inflight>, n: nat): set<nat> {
    set q | q in m && q < n
  }

  lemma {:induction false} CountIsSize(m: map<nat, Inflight>, n: nat)
    ensures CountBelow(m, n) == |KeysBelow(m, n)|
  {
    if n > 0 {
      CountIsSize(m, n - 1);
      assert KeysBelow(m, n) == KeysBelow(m, n - 1) + if n - 1 in m then {n - 1} else {};
    }
  }

  lemma {:induction false} BytesPerCount(m: map<nat, Inflight>, n: nat)
    requires forall q :: q in m ==> Slot(m[q].packet, q)
    ensures BytesBelow(m, n) <= CountBelow(m, n) * Fragment.MSS
  {
    if n > 0 {
      BytesPerCount(m, n - 1);
    }
  }

  /** No more than MSS bytes per packet in flight. */
  lemma BytesPerPacket(m: map<nat, Inflight>, n: nat)
    requires forall q :: q in m ==> Slot(m[q].packet, q)
    ensures BytesBelow(m, n) <= |m| * Fragment.MSS
  {
    BytesPerCount(m, n);
    CountIsSize(m, n);
    Ranges.SubsetSize(KeysBelow(m, n), m.Keys);
  }

  // ---- Launching and sending -------------------------------------------------------------------

  lemma LaunchNumbered(s: State, now: real)
    requires Numbered(s) && s.queue != []
    ensures Numbered(Launch(s, now))
  {
    var u := Unsent(s);
    var t := Launch(s, now);
    BytesBelowAgree(s.unacked, t.unacked, u);
    assert BytesBelow(t.unacked, u + 1) == BytesBelow(t.unacked, u) + |s.queue[0].payload|;
  }

  /** `t` is `s` with the first `sent` of its queue moved into flight at time `now`. */
  ghost predicate Launched(s: State, t: State, sent: seq<Packet>, now: real) {
    && sent <= s.queue
    && t.queue == s.queue[|sent|..]
    && Flown(s.unacked, t.unacked, Unsent(s), s.queue, |sent|, now)
  }

  /** `after` is `before` with the first `k` of `queue` put in flight under the numbers from `u` on. */
  ghost predicate Flown(before: map<nat, Inflight>, after: map<nat, Inflight>, u: int, queue: seq<Packet>, k: nat,
                        now: real)
    requires k <= |queue|
  {
    && (forall q :: q in after <==> q in before || u <= q < u + k)
    && (forall q :: q in before ==> q in after && after[q] == before[q])
    && (forall q :: u <= q < u + k ==> after[q] == Inflight(queue[q - u], now, false))
  }

  /** Either nothing is sent, or the first packet is launched and sending goes on from there. */
  ghost predicate SendsOn(s: State, now: real) {
    s.queue != [] && TrySend(s, now) != (s, []) && |s.unacked| < Window(s.control.cwnd, s.peerRwnd)
  }

  function First(s: State, now: real): State
    requires s.queue != []
  {
    Launch(s.(effectiveWindow := Window(s.control.cwnd, s.peerRwnd)), now)
  }

  lemma TrySendCases(s: State, now: real)
    ensures if SendsOn(s, now)
            then TrySend(s, now).0 == TrySend(First(s, now), now).0
                 && TrySend(s, now).1 == [s.queue[0]] + TrySend(First(s, now), now).1
            else TrySend(s, now).1 == []
                 && TrySend(s, now).0 == s.(effectiveWindow := TrySend(s, now).0.effectiveWindow)
  {
  }

  lemma {:induction false} TrySendNumbered(s: State, now: real)
    requires Numbered(s)
    ensures Numbered(TrySend(s, now).0)
    decreases |s.queue|
  {
    TrySendCases(s, now);
    if SendsOn(s, now) {
      LaunchNumbered(s.(effectiveWindow := Window(s.control.cwnd, s.peerRwnd)), now);
      TrySendNumbered(First(s, now), now);
    }
  }

  lemma {:induction false} TrySendLaunches(s: State, now: real)
    requires Numbered(s)
    ensures Launched(s, TrySend(s, now).0, TrySend(s, now).1, now)
    decreases |s.queue|
  {
    TrySendCases(s, now);
    if SendsOn(s, now) {
      var l := First(s, now);
      LaunchNumbered(s.(effectiveWindow := Window(s.control.cwnd, s.peerRwnd)), now);
      TrySendLaunches(l, now);
      LaunchedFirst(s, l, TrySend(l, now).0, TrySend(l, now).1, now);
    }
  }

  lemma LaunchedFirst(s: State, l: State, t: State, sent: seq<Packet>, now: real)
    requires Numbered(s) && s.queue != [] && Launched(l, t, sent, now)
    requires l.queue == s.queue[1..] && l.nextSeq == s.nextSeq
    requires l.unacked == s.unacked[Unsent(s) := Inflight(s.queue[0], now, false)]
    ensures Launched(s, t, [s.queue[0]] + sent, now)
  {
    assert s.queue[|[s.queue[0]] + sent|..] == l.queue[|sent|..];
    FlownFirst(s.unacked, t.unacked, Unsent(s), s.queue, |sent|, now);
  }

  lemma FlownFirst(before: map<nat, Inflight>, after: map<nat, Inflight>, u: int, queue: seq<Packet>, k: nat, now: real)
    requires k < |queue| && u >= 0 && u !in before
        && Flown(before[u := Inflight(queue[0], now, false)], after, u + 1, queue[1..], k, now)
    ensures Flown(before, after, u, queue, k + 1, now)
  {
    forall q | u <= q < u + k + 1
      ensures q in after && after[q] == Inflight(queue[q - u], now, false)
    {
      assert q != u ==> queue[1..][q - (u + 1)] == queue[q - u];
    }
  }

  /** A window of at least one segment admits by segment count only what also fits by bytes. */
  lemma SegmentGuardSuffices(s: State)
    requires Numbered(s) && s.control.cwnd >= Congestion.MSS && s.queue != []
    requires |s.unacked| < Window(s.control.cwnd, s.peerRwnd)
    ensures BytesFit(s)
  {
    BytesPerPacket(s.unacked, Unsent(s));
    WholeWindowFits(s.control.cwnd, |s.unacked| + 1);
  }

  lemma WholeWindowFits(cwnd: real, k: nat)
    requires cwnd >= Congestion.MSS && k as int <= (cwnd / Congestion.MSS).Floor
    ensures (k * Fragment.MSS) as real <= cwnd
  {
    var ratio := cwnd / Congestion.MSS;
    assert ratio * Congestion.MSS == cwnd;
    assert k as real <= ratio;
  }

  /**
   One call sends exactly as many queued packets as the effective window has room for, and leaves the
   bytes in flight within the congestion window.
   */
  lemma {:induction false} TrySendFillsWindow(s: State, now: real)
    requires Numbered(s) && s.control.cwnd >= Congestion.MSS
    ensures var (t, sent) := TrySend(s, now);
            var window := Window(s.control.cwnd, s.peerRwnd);
            && |sent| == Min(|s.queue|, Max(0, window - |s.unacked|))
            && (sent != [] ==> t.inflightBytes as real <= s.control.cwnd && |t.unacked| <= window)
    decreases |s.queue|
  {
    var window := Window(s.control.cwnd, s.peerRwnd);
    if s.queue != [] && |s.unacked| < window {
      SegmentGuardSuffices(s);
      var l := Launch(s.(effectiveWindow := window), now);
      LaunchNumbered(s.(effectiveWindow := window), now);
      assert l.unacked.Keys == s.unacked.Keys + {Unsent(s)};
      TrySendFillsWindow(l, now);
      TrySendNothing(l, now);
    } else {
      TrySendNothing(s, now);
    }
  }

  lemma TrySendNothing(s: State, now: real)
    ensures s.queue == [] || |s.unacked| >= Window(s.control.cwnd, s.peerRwnd) ==> TrySend(s, now).1 == []
    ensures TrySend(s, now).1 == [] ==>
              TrySend(s, now).0.inflightBytes == s.inflightBytes && TrySend(s, now).0.unacked == s.unacked
  {
  }

  // ---- The numbering survives every operation ----------------------------------------------------

  lemma QueuedNumbered(s: State, m: Fragment.Message)
    requires Numbered(s)
    ensures Numbered(Queued(s, m)) && Unsent(Queued(s, m)) == Unsent(s)
  {
    var cs := Fragment.Chunks(m.data);
    var segs := Fragment.Fragments(m, s.nextSeq);
    Fragment.ChunksBounded(m.data);
    forall i | 0 <= i < |segs|
      ensures Slot(segs[i], s.nextSeq + i)
    {
      Fragment.SegmentsAt(cs, m.msgId, s.nextSeq, 0, i);
    }
  }

  lemma AcknowledgedNumbered(s: State, ack: nat, now: real)
    requires Numbered(s)
    ensures Numbered(Acknowledged(s, ack, now)) && Unsent(Acknowledged(s, ack, now)) == Unsent(s)
  {
    BytesBelowSplit(s.unacked, ack, Unsent(s));
  }

  lemma ResendNumbered(s: State, now: real)
    requires Numbered(s)
    ensures Numbered(Resend(s, now).0) && Unsent(Resend(s, now).0) == Unsent(s)
  {
    BytesBelowAgree(s.unacked, Resend(s, now).0.unacked, Unsent(s));
  }

  lemma StepNumbered(s: State, op: Op)
    requires Numbered(s)
    ensures Numbered(Step(s, op).0)
  {
    match op {
      case Send(m, now) =>
        QueuedNumbered(s, m);
        TrySendNumbered(Queued(s, m), now);
      case Ack(ackNum, rwnd, now) => AckNumbered(s, ackNum, rwnd, now);
      case Tick(now) =>
        ResendNumbered(s.(control := Congestion.OnTimeout(s.control), timer := Rtt.Backoff(s.timer)), now);
    }
  }

  lemma AckNumbered(s: State, ackNum: nat, rwnd: nat, now: real)
    requires Numbered(s)
    ensures Numbered(OnAck(s, ackNum, rwnd, now).0)
  {
    var w := s.(peerRwnd := rwnd);
    if ackNum > s.base {
      AcknowledgedNumbered(w, ackNum, now);
      TrySendNumbered(Acknowledged(w, ackNum, now), now);
    } else {
      var d := w.(control := Congestion.OnDupAck(s.control));
      assert Numbered(d);
      if Congestion.EntersRecovery(s.control) {
        ResendNumbered(d, now);
      } else {
        TrySendNumbered(d, now);
      }
    }
  }

  // ---- Round-trip samples (Karn's rule, section 3 of RFC 6298) -----------------------------------

  /** How often number `q` was transmitted. */
  function Count(log: seq<Packet>, q: nat): nat {
    if log == [] then 0 else Count(log[..|log| - 1], q) + if log[|log| - 1].seqNum == q then 1 else 0
  }

  lemma {:induction false} CountAppend(a: seq<Packet>, b: seq<Packet>, q: nat)
    ensures Count(a + b, q) == Count(a, q) + Count(b, q)
    decreases |b|
  {
    if b == [] {
      assert a + b == a;
    } else {
      CountAppend(a, b[..|b| - 1], q);
      assert (a + b)[..|a + b| - 1] == a + b[..|b| - 1];
    }
  }

  lemma {:induction false} CountConsecutive(ps: seq<Packet>, u: nat, q: nat)
    requires forall i :: 0 <= i < |ps| ==> Slot(ps[i], u + i)
    ensures Count(ps, q) == if u <= q < u + |ps| then 1 else 0
    decreases |ps|
  {
    if ps != [] {
      CountConsecutive(ps[..|ps| - 1], u, q);
    }
  }

  lemma {:induction false} CountBeyond(log: seq<Packet>, u: nat, q: nat)
    requires (forall p :: p in log ==> p.seqNum < u) && u <= q
    ensures Count(log, q) == 0
  {
    if log != [] {
      CountBeyond(log[..|log| - 1], u, q);
    }
  }

  /** The retransmission mark tells exactly which in-flight packets were transmitted more than once. */
  predicate Marked(i: Inflight, transmissions: nat) {
    transmissions >= 1 && (i.retransmitted <==> transmissions >= 2)
  }

  predicate Logged(s: State, log: seq<Packet>) {
    && (forall p :: p in log ==> p.seqNum < Unsent(s))
    && (forall q :: q in s.unacked ==> Marked(s.unacked[q], Count(log, q)))
  }

  lemma LaunchedLogged(s: State, t: State, sent: seq<Packet>, now: real, log: seq<Packet>)
    requires Numbered(s) && Launched(s, t, sent, now) && Logged(s, log) && t.nextSeq == s.nextSeq
    ensures Logged(t, log + sent)
  {
    forall q | q in t.unacked
      ensures Marked(t.unacked[q], Count(log + sent, q))
    {
      CountAppend(log, sent, q);
      assert forall i :: 0 <= i < |sent| ==> sent[i] == s.queue[i];
      CountConsecutive(sent, Unsent(s), q);
      if q >= Unsent(s) {
        CountBeyond(log, Unsent(s), q);
      }
    }
    forall p | p in log + sent
      ensures p.seqNum < Unsent(t)
    {
      if p !in log {
        var i :| 0 <= i < |sent| && sent[i] == p;
        assert Slot(s.queue[i], Unsent(s) + i);
      }
    }
  }

  lemma TrySendLogged(s: State, now: real, log: seq<Packet>)
    requires Numbered(s) && Logged(s, log)
    ensures Logged(TrySend(s, now).0, log + TrySend(s, now).1)
  {
    TrySendLaunches(s, now);
    TrySendFrame(s, now);
    LaunchedLogged(s, TrySend(s, now).0, TrySend(s, now).1, now, log);
  }

  lemma ResendLogged(s: State, now: real, log: seq<Packet>)
    requires Numbered(s) && Logged(s, log)
    ensures Logged(Resend(s, now).0, log + Resend(s, now).1)
  {
    var (t, sent) := Resend(s, now);
    forall q | q in t.unacked
      ensures Marked(t.unacked[q], Count(log + sent, q))
    {
      CountAppend(log, sent, q);
      if s.base in s.unacked {
        assert Slot(s.unacked[s.base].packet, s.base);
        CountConsecutive(sent, s.base, q);
      }
    }
  }

  lemma AckLogged(s: State, ackNum: nat, rwnd: nat, now: real, log: seq<Packet>)
    requires Numbered(s) && Logged(s, log)
    ensures var (t, sent) := OnAck(s, ackNum, rwnd, now); Logged(t, log + sent)
  {
    assert log + [] == log;
    var w := s.(peerRwnd := rwnd);
    if ackNum > s.base {
      AcknowledgedNumbered(w, ackNum, now);
      TrySendLogged(Acknowledged(w, ackNum, now), now, log);
    } else {
      var d := w.(control := Congestion.OnDupAck(s.control));
      ResendLogged(d, now, log);
      TrySendLogged(d, now, log);
    }
  }

  lemma StepLogged(s: State, op: Op, log: seq<Packet>)
    requires Numbered(s) && Logged(s, log)
    ensures Logged(Step(s, op).0, log + Step(s, op).1)
  {
    assert log + [] == log;
    match op {
      case Send(m, now) =>
        QueuedNumbered(s, m);
        TrySendLogged(Queued(s, m), now, log);
      case Ack(ackNum, rwnd, now) => AckLogged(s, ackNum, rwnd, now, log);
      case Tick(now) =>
        ResendLogged(s.(control := Congestion.OnTimeout(s.control), timer := Rtt.Backoff(s.timer)), now, log);
    }
  }

  /** In every run, with whatever acknowledgements, numbering, byte count and retransmission marks are right. */
  lemma {:induction false} WindowInEveryRun(windowSize: nat, ops: seq<Op>)
    ensures Numbered(Run(windowSize, ops).state) && Logged(Run(windowSize, ops).state, Run(windowSize, ops).log)
  {
    if ops != [] {
      var before := Run(windowSize, ops[..|ops| - 1]);
      WindowInEveryRun(windowSize, ops[..|ops| - 1]);
      StepNumbered(before.state, ops[|ops| - 1]);
      StepLogged(before.state, ops[|ops| - 1], before.log);
    }
  }

  /** Every round-trip sample is measured on a packet that was transmitted exactly once. */
  lemma SamplesAreUnambiguous(windowSize: nat, ops: seq<Op>, op: Op)
    requires SampleOf(Run(windowSize, ops).state, op).Some?
    ensures op.Ack? && op.ackNum > 0 && Count(Run(windowSize, ops).log, op.ackNum - 1) == 1
  {
    WindowInEveryRun(windowSize, ops);
    var s := Run(windowSize, ops).state;
    assert Marked(s.unacked[op.ackNum - 1], Count(Run(windowSize, ops).log, op.ackNum - 1));
  }

  // ---- Send guards in every run ----------------------------------------------------------------------

  /** `k` packets may be in flight: no more than the peer takes, and no more full segments than the window, but one. */
  predicate Admits(s: State, k: nat) {
    k <= s.peerRwnd && (k <= 1 || k as real * 1200.0 <= s.control.cwnd)
  }

  lemma FloorAdmits(cwnd: real, k: nat)
    ensures k as int <= (cwnd / 1200.0).Floor <==> k as real * 1200.0 <= cwnd
  {
    var ratio := cwnd / 1200.0;
    assert ratio * 1200.0 == cwnd;
    assert k as int <= ratio.Floor <==> k as real <= ratio;
  }

  /** The effective window is the greatest number admitted. */
  lemma WindowAdmits(s: State, k: nat)
    ensures k <= Window(s.control.cwnd, s.peerRwnd) <==> Admits(s, k)
  {
    FloorAdmits(s.control.cwnd, k);
  }

  /** No more bytes in flight than the congestion window, and no more packets than are admitted. */
  predicate WithinWindows(s: State) {
    s.inflightBytes as real <= s.control.cwnd && Admits(s, |s.unacked|)
  }

  /** Nothing more can be sent. */
  predicate Exhausted(s: State) {
    s.queue == [] || !Admits(s, |s.unacked| + 1)
  }

  /** The window that the send loop has stored. */
  predicate StoredWindow(s: State) {
    Admits(s, s.effectiveWindow) && !Admits(s, s.effectiveWindow + 1)
  }

  lemma {:induction false} TrySendStores(s: State, now: real)
    ensures TrySend(s, now).1 != [] ==> TrySend(s, now).0.effectiveWindow == Window(s.control.cwnd, s.peerRwnd)
    decreases |s.queue|
  {
    TrySendCases(s, now);
    if SendsOn(s, now) {
      TrySendStores(First(s, now), now);
      TrySendKeeps(First(s, now), now);
    }
  }

  lemma TrySendKeeps(s: State, now: real)
    requires s.effectiveWindow == Window(s.control.cwnd, s.peerRwnd)
    ensures TrySend(s, now).1 == [] ==> TrySend(s, now).0.effectiveWindow == s.effectiveWindow
  {
  }

  lemma {:induction false} TrySendCounts(s: State, now: real)
    requires Numbered(s)
    ensures var (t, sent) := TrySend(s, now);
            |t.unacked| == |s.unacked| + |sent| && |t.queue| == |s.queue| - |sent|
    decreases |s.queue|
  {
    TrySendCases(s, now);
    if SendsOn(s, now) {
      LaunchNumbered(s.(effectiveWindow := Window(s.control.cwnd, s.peerRwnd)), now);
      assert First(s, now).unacked.Keys == s.unacked.Keys + {Unsent(s)};
      TrySendCounts(First(s, now), now);
    }
  }

  /** What a call of the send loop guarantees from state `s` on. */
  predicate Guarded(s: State, t: State, sent: seq<Packet>) {
    && Unsent(t) == Unsent(s) + |sent|
    && (sent != [] ==> WithinWindows(t) && StoredWindow(t))
    && Exhausted(t)
  }

  lemma TrySendGuarded(s: State, now: real)
    requires Numbered(s) && Congestion.Valid(s.control)
    ensures Guarded(s, TrySend(s, now).0, TrySend(s, now).1)
  {
    TrySendFillsWindow(s, now);
    TrySendCounts(s, now);
    TrySendFrame(s, now);
    TrySendStores(s, now);
    var t := TrySend(s, now).0;
    WindowAdmits(t, |t.unacked|);
    WindowAdmits(t, |t.unacked| + 1);
    WindowAdmits(t, t.effectiveWindow);
    WindowAdmits(t, t.effectiveWindow + 1);
  }

  /** The operation runs the send loop. */
  predicate Pumps(s: State, op: Op) {
    op.Send? || IsNewAck(s, op) || (IsDupAck(s, op) && Congestion.Inflates(s.control))
  }

  lemma AckGuarded(s: State, ack: nat, rwnd: nat, now: real)
    requires Numbered(s) && Congestion.Valid(s.control)
    ensures var (t, sent) := OnAck(s, ack, rwnd, now);
            if Pumps(s, Ack(ack, rwnd, now)) then Guarded(s, t, sent) else Unsent(t) == Unsent(s)
  {
    var w := s.(peerRwnd := rwnd);
    if ack > s.base {
      AcknowledgedNumbered(w, ack, now);
      Congestion.NewAckKeepsValid(s.control);
      TrySendGuarded(Acknowledged(w, ack, now), now);
    } else if IsDuplicate(s, ack) {
      var d := w.(control := Congestion.OnDupAck(s.control));
      assert Numbered(d);
      Congestion.DupAckKeepsValid(s.control);
      if Congestion.EntersRecovery(s.control) {
        ResendNumbered(d, now);
      } else if Congestion.Inflates(s.control) {
        TrySendGuarded(d, now);
      }
    }
  }

  lemma SendGuarded(s: State, m: Fragment.Message, now: real)
    requires Numbered(s) && Congestion.Valid(s.control)
    ensures Guarded(s, Enqueue(s, m, now).0, Enqueue(s, m, now).1)
  {
    QueuedNumbered(s, m);
    TrySendGuarded(Queued(s, m), now);
  }

  /**
   In every run, with whatever acknowledgements: an operation that transmits packets for the first time
   leaves the bytes and the packets in flight within both windows, it stops only when nothing is queued or
   the effective window is full, and no other operation transmits a packet for the first time.
   */
  lemma SendGuardsInEveryRun(windowSize: nat, ops: seq<Op>, op: Op)
    ensures Careful(Run(windowSize, ops).state, op)
  {
    WindowInEveryRun(windowSize, ops);
    CongestionInEveryRun(windowSize, ops);
    StepGuarded(Run(windowSize, ops).state, op);
  }

  /** An operation that runs the send loop is guarded; no other sends anything for the first time. */
  ghost predicate Careful(s: State, op: Op) {
    var (t, sent) := Step(s, op);
    if Pumps(s, op) then Guarded(s, t, sent) else Unsent(t) == Unsent(s)
  }

  lemma StepGuarded(s: State, op: Op)
    requires Numbered(s) && Congestion.Valid(s.control)
    ensures Careful(s, op)
  {
    match op {
      case Send(m, now) => SendGuarded(s, m, now);
      case Ack(ackNum, rwnd, now) => AckGuarded(s, ackNum, rwnd, now);
      case Tick(now) =>
        ResendNumbered(s.(control := Congestion.OnTimeout(s.control), timer := Rtt.Backoff(s.timer)), now);
    }
  }
}
