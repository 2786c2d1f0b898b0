/** Exactly when the sender retransmits, samples and backs off, and by how much its window moves, in every run. */
module SenderExact {
  import opened Extrema
  import opened Wire
  import opened Sender
  import opened SenderProofs
  import opened SenderHistory
  import C = Congestion
  import Rtt
  import SG = SenderGrowth
  import SW = SenderWindow

  // ---- Timeouts ------------------------------------------------------------------------------------------------

  /** The oldest packet is in flight and was last transmitted a timeout ago, or longer. */
  predicate Due(windowSize: nat, ops: seq<Op>, now: real) {
    var s, b := Run(windowSize, ops).state, MaxAck(ops);
    var last := LastTime(Transmissions(windowSize, ops), b);
    b in s.unacked && last.Some? && now - last.value >= s.timer.rto
  }

  /**
   In every run a tick transmits if and only if the timeout has passed since the last transmission of the oldest
   packet in flight. It then transmits exactly that packet and marks it; otherwise it changes nothing at all.
   */
  lemma TickIsExact(windowSize: nat, ops: seq<Op>, now: real)
    ensures var s, b := Run(windowSize, ops).state, MaxAck(ops);
            var (t, sent) := Step(s, Tick(now));
            if Due(windowSize, ops, now)
            then sent == [s.unacked[b].packet] && sent[0].seqNum == b
                 && t.unacked == s.unacked[b := Inflight(sent[0], now, true)] && t.queue == s.queue
            else t == s && sent == []
  {
    CountersInEveryRun(windowSize, ops);
    TimesInEveryRun(windowSize, ops);
    SW.WindowInEveryRun(windowSize, ops);
    var s, b := Run(windowSize, ops).state, MaxAck(ops);
    if b in s.unacked {
      assert SW.Slot(s.unacked[b].packet, b);
    }
  }

  // ---- Round-trip samples ----------------------------------------------------------------------------------------

  /**
   The time that has passed since the one transmission of the newest packet acknowledged, if that packet is in
   flight and was transmitted only once.
   */
  function Measured(windowSize: nat, ops: seq<Op>, op: Op): Option<real> {
    var before := Run(windowSize, ops);
    MeasuredIn(before.state.unacked, before.log, Transmissions(windowSize, ops), MaxAck(ops), op)
  }

  function MeasuredIn(inFlight: map<nat, Inflight>, log: seq<Packet>, times: seq<Sent>, base: nat,
                      op: Op): Option<real> {
    if !op.Ack? || op.ackNum <= base then None
    else
      var newest := op.ackNum - 1;
      var last := LastTime(times, newest);
      if newest in inFlight && SW.Count(log, newest) == 1 && last.Some? then Some(op.now - last.value) else None
  }

  lemma SampleIn(s: State, log: seq<Packet>, times: seq<Sent>, op: Op)
    requires SW.Logged(s, log) && TimesKept(s, times)
    ensures SampleOf(s, op) == MeasuredIn(s.unacked, log, times, s.base, op)
  {
    if op.Ack? && op.ackNum > s.base && op.ackNum - 1 in s.unacked {
      assert SW.Marked(s.unacked[op.ackNum - 1], SW.Count(log, op.ackNum - 1));
    }
  }

  lemma SampleIsMeasured(windowSize: nat, ops: seq<Op>, op: Op)
    ensures SampleOf(Run(windowSize, ops).state, op) == Measured(windowSize, ops, op)
  {
    CountersInEveryRun(windowSize, ops);
    TimesInEveryRun(windowSize, ops);
    SW.WindowInEveryRun(windowSize, ops);
    SampleIn(Run(windowSize, ops).state, Run(windowSize, ops).log, Transmissions(windowSize, ops), op);
  }

  /** All measurements of a run. */
  function Measurements(windowSize: nat, ops: seq<Op>): seq<real> {
    if ops == [] then []
    else
      var init, r := ops[..|ops| - 1], Measured(windowSize, ops[..|ops| - 1], ops[|ops| - 1]);
      Measurements(windowSize, init) + if r.Some? then [r.value] else []
  }

  /** How many ticks have transmitted since the last measurement. */
  function TimeoutsSince(windowSize: nat, ops: seq<Op>): nat {
    if ops == [] then 0
    else
      var init, op := ops[..|ops| - 1], ops[|ops| - 1];
      if Measured(windowSize, init, op).Some? then 0
      else TimeoutsSince(windowSize, init) + if op.Tick? && Due(windowSize, init, op.now) then 1 else 0
  }

  /** The timeout right after the measurements `samples`, before any backoff. */
  function Base(samples: seq<real>): real {
    if samples == [] then 0.5
    else
      var wanted := Rtt.Weighted(0.125, samples) + 4.0 * Rtt.Weighted(0.25, Rtt.Deviations(samples));
      MaxReal(0.1, MinReal(wanted, 4.0))
  }

  lemma {:induction false} EstimateInEveryRun(windowSize: nat, ops: seq<Op>)
    ensures Run(windowSize, ops).state.timer.estimate == Rtt.EstimateOf(Measurements(windowSize, ops))
  {
    if ops != [] {
      var init, op := ops[..|ops| - 1], ops[|ops| - 1];
      EstimateInEveryRun(windowSize, init);
      StepControls(Run(windowSize, init).state, op);
      SampleIsMeasured(windowSize, init, op);
      var ms, r := Measurements(windowSize, init), Measured(windowSize, init, op);
      if r.Some? {
        assert (ms + [r.value])[..|ms|] == ms;
      } else {
        assert ms + [] == ms;
      }
    }
  }

  lemma SampledBase(t: Rtt.Timer, ms: seq<real>, r: real)
    requires t.estimate == Rtt.EstimateOf(ms)
    ensures Rtt.OnSample(t, r).rto == Base(ms + [r])
  {
    assert (ms + [r])[..|ms|] == ms;
    Rtt.EstimateIsWeighted(ms + [r]);
  }

  lemma TimeoutIsDue(windowSize: nat, ops: seq<Op>, op: Op)
    ensures IsTimeout(Run(windowSize, ops).state, op) <==> op.Tick? && Due(windowSize, ops, op.now)
  {
    CountersInEveryRun(windowSize, ops);
    TimesInEveryRun(windowSize, ops);
  }

  lemma {:induction false} BaseInRange(samples: seq<real>)
    ensures 0.1 <= Base(samples) <= 4.0
  {
  }

  /**
   The timeout in every run, as a number: the clamped estimate of all measurements so far, doubled for every
   timeout since the last one, up to four seconds.
   */
  lemma {:induction false} TimeoutIsExact(windowSize: nat, ops: seq<Op>)
    ensures Run(windowSize, ops).state.timer.rto
         == MinReal(Rtt.Doubled(Base(Measurements(windowSize, ops)), TimeoutsSince(windowSize, ops)), 4.0)
  {
    if ops != [] {
      var init, op := ops[..|ops| - 1], ops[|ops| - 1];
      TimeoutIsExact(windowSize, init);
      EstimateInEveryRun(windowSize, init);
      SampleIsMeasured(windowSize, init, op);
      TimeoutIsDue(windowSize, init, op);
      assert Measurements(windowSize, init) + [] == Measurements(windowSize, init);
      TimeoutStep(Run(windowSize, init).state, op, Measurements(windowSize, init), TimeoutsSince(windowSize, init));
    }
  }

  lemma TimeoutStep(s: State, op: Op, ms: seq<real>, k: nat)
    requires s.timer.rto == MinReal(Rtt.Doubled(Base(ms), k), 4.0) && s.timer.estimate == Rtt.EstimateOf(ms)
    ensures var t, r := Step(s, op).0, SampleOf(s, op);
            t.timer.rto ==
              if r.Some? then MinReal(Rtt.Doubled(Base(ms + [r.value]), 0), 4.0)
              else MinReal(Rtt.Doubled(Base(ms), k + if IsTimeout(s, op) then 1 else 0), 4.0)
  {
    var r := SampleOf(s, op);
    StepControls(s, op);
    if r.Some? {
      SampledBase(s.timer, ms, r.value);
      BaseInRange(ms + [r.value]);
    } else {
      BackoffStep(s, op, Base(ms), k);
    }
  }

  /**
   Spacing: in every run a tick that transmits does so at least that timeout after the packet was last transmitted,
   so with `k` timeouts and no measurement since, at least `k` times doubled.
   */
  lemma RetransmissionsAreSpaced(windowSize: nat, ops: seq<Op>, now: real)
    requires Step(Run(windowSize, ops).state, Tick(now)).1 != []
    ensures var last := LastTime(Transmissions(windowSize, ops), MaxAck(ops));
            var k, base := TimeoutsSince(windowSize, ops), Base(Measurements(windowSize, ops));
            last.Some? && now - last.value >= MinReal(Rtt.Doubled(base, k), 4.0)
  {
    TickIsExact(windowSize, ops, now);
    TimeoutIsExact(windowSize, ops);
  }

  // ---- Retransmissions --------------------------------------------------------------------------------------

  /** The greatest acknowledgement is repeated for the third time. */
  predicate ThirdRepeat(ops: seq<Op>, op: Op) {
    op.Ack? && op.ackNum == MaxAck(ops) && Repeats(ops) == 2
  }

  lemma TrySendIsNew(s: State, now: real)
    requires SW.Numbered(s)
    ensures forall p :: p in TrySend(s, now).1 ==> p.seqNum >= SW.Unsent(s)
  {
    SW.TrySendLaunches(s, now);
    var sent := TrySend(s, now).1;
    forall i | 0 <= i < |sent|
      ensures sent[i].seqNum >= SW.Unsent(s)
    {
      assert sent[i] == s.queue[i] && SW.Slot(s.queue[i], SW.Unsent(s) + i);
    }
  }

  lemma AckSends(s: State, ack: nat, rwnd: nat, now: real)
    requires SW.Numbered(s) && C.Valid(s.control)
    ensures var (t, sent) := OnAck(s, ack, rwnd, now);
            if ack == s.base && s.control.dupAcks == 2
            then if s.base in s.unacked
                 then sent == [s.unacked[s.base].packet]
                      && t.unacked == s.unacked[s.base := Inflight(sent[0], now, true)] && t.queue == s.queue
                 else sent == [] && t.unacked == s.unacked && t.queue == s.queue
            else forall p :: p in sent ==> p.seqNum >= SW.Unsent(s)
  {
    var w := s.(peerRwnd := rwnd);
    if ack > s.base {
      SW.AcknowledgedNumbered(w, ack, now);
      TrySendIsNew(Acknowledged(w, ack, now), now);
    } else if ack == s.base && !C.EntersRecovery(s.control) {
      var d := w.(control := C.OnDupAck(s.control));
      assert SW.Numbered(d);
      TrySendIsNew(d, now);
    }
  }

  /**
   Fast retransmit, in every run: an acknowledgement retransmits if and only if it repeats the greatest one for the
   third time, and then it retransmits and marks exactly the packet at the base, if that is in flight.
   */
  lemma FastRetransmitIsExact(windowSize: nat, ops: seq<Op>, op: Op)
    requires op.Ack?
    ensures var s, b := Run(windowSize, ops).state, MaxAck(ops);
            var (t, sent) := Step(s, op);
            if ThirdRepeat(ops, op)
            then if b in s.unacked
                 then sent == [s.unacked[b].packet]
                      && t.unacked == s.unacked[b := Inflight(sent[0], op.now, true)] && t.queue == s.queue
                 else sent == [] && t.unacked == s.unacked && t.queue == s.queue
            else forall p :: p in sent ==> SW.Count(Run(windowSize, ops).log, p.seqNum) == 0
  {
    CountersInEveryRun(windowSize, ops);
    CongestionInEveryRun(windowSize, ops);
    SW.WindowInEveryRun(windowSize, ops);
    var before := Run(windowSize, ops);
    AckSends(before.state, op.ackNum, op.rwnd, op.now);
    if !ThirdRepeat(ops, op) {
      NeverSent(before.state, before.log, Step(before.state, op).1);
    }
  }

  lemma NeverSent(s: State, log: seq<Packet>, sent: seq<Packet>)
    requires SW.Numbered(s) && SW.Logged(s, log) && forall p :: p in sent ==> p.seqNum >= SW.Unsent(s)
    ensures forall p :: p in sent ==> SW.Count(log, p.seqNum) == 0
  {
    forall p | p in sent
      ensures SW.Count(log, p.seqNum) == 0
    {
      SW.CountBeyond(log, SW.Unsent(s), p.seqNum);
    }
  }

  /** Submitting a message transmits nothing that was transmitted before. */
  lemma SendsAreNew(windowSize: nat, ops: seq<Op>, op: Op)
    requires op.Send?
    ensures forall p :: p in Step(Run(windowSize, ops).state, op).1 ==>
              SW.Count(Run(windowSize, ops).log, p.seqNum) == 0
  {
    SW.WindowInEveryRun(windowSize, ops);
    var before := Run(windowSize, ops);
    SW.QueuedNumbered(before.state, op.message);
    TrySendIsNew(Queued(before.state, op.message), op.now);
    NeverSent(before.state, before.log, Step(before.state, op).1);
  }

  // ---- The congestion window, step by step ------------------------------------------------------------------

  /** Nothing about the window changes. */
  predicate SameWindow(c: C.Control, d: C.Control) {
    d.state == c.state && d.cwnd == c.cwnd && d.ssthresh == c.ssthresh
  }

  /** After a loss: half of the window, but at least two segments, becomes the threshold. */
  predicate ThresholdHalved(c: C.Control, d: C.Control) {
    2.0 * d.ssthresh == MaxReal(c.cwnd, 4800.0)
  }

  /** The effect of a new acknowledgement on the window. */
  predicate Grown(c: C.Control, d: C.Control) {
    && d.ssthresh == c.ssthresh
    && match c.state
       case SlowStart => d.cwnd == c.cwnd + 1200.0 && (d.state == C.SlowStart <==> d.cwnd < d.ssthresh)
       case Avoidance => d.state == C.Avoidance && d.cwnd == c.cwnd + 1440000.0 / c.cwnd
       case FastRecovery => d.state == C.Avoidance && d.cwnd == c.ssthresh
  }

  lemma NewAckGrows(c: C.Control)
    ensures Grown(c, C.OnNewAck(c)) && (C.OnNewAck(c).state != C.FastRecovery)
  {
  }

  /**
   In every run the window moves only as follows: a new acknowledgement grows it, the third repetition of one
   enters recovery with half the window and three segments, each further repetition in recovery adds a segment, and
   a tick that transmits falls back to one segment with half the window as the threshold.
   */
  lemma WindowIsExact(windowSize: nat, ops: seq<Op>, op: Op)
    ensures var s := Run(windowSize, ops).state;
            var c, d := s.control, Step(s, op).0.control;
            if op.Ack? && op.ackNum > MaxAck(ops) then Grown(c, d)
            else if ThirdRepeat(ops, op) then
              d.state == C.FastRecovery && ThresholdHalved(c, d) && d.cwnd == d.ssthresh + 3600.0
            else if op.Ack? && op.ackNum == MaxAck(ops) && c.state == C.FastRecovery then
              d.state == C.FastRecovery && d.ssthresh == c.ssthresh && d.cwnd == c.cwnd + 1200.0
            else if op.Tick? && Due(windowSize, ops, op.now) then
              d.state == C.SlowStart && ThresholdHalved(c, d) && d.cwnd == 1200.0
            else SameWindow(c, d)
  {
    CountersInEveryRun(windowSize, ops);
    CongestionInEveryRun(windowSize, ops);
    StepControls(Run(windowSize, ops).state, op);
    TimeoutIsDue(windowSize, ops, op);
    NewAckGrows(Run(windowSize, ops).state.control);
  }
}
