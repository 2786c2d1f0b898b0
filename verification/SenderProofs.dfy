/**
 What holds of the sending engine in every run, whatever acknowledgements arrive and whenever the
 clock ticks.
 */
module SenderProofs {
  import opened Extrema
  import opened Wire
  import opened Sender
  import Fragment
  import Congestion
  import Rtt

  // ---- Runs ----------------------------------------------------------------------------------

  datatype Op =
    | Send(message: Fragment.Message, now: real)
    | Ack(ackNum: nat, rwnd: nat, now: real)
    | Tick(now: real)

  function Step(s: State, op: Op): (State, seq<Packet>) {
    match op
    case Send(m, now) => Enqueue(s, m, now)
    case Ack(ackNum, rwnd, now) => OnAck(s, ackNum, rwnd, now)
    case Tick(now) => CheckTimeouts(s, now)
  }

  /** State after a run, and every packet handed to the network during it. */
  datatype Trace = Trace(state: State, log: seq<Packet>)

  function Run(windowSize: nat, ops: seq<Op>): Trace {
    if ops == [] then Trace(Initial(windowSize), [])
    else
      var before := Run(windowSize, ops[..|ops| - 1]);
      var (s, sent) := Step(before.state, ops[|ops| - 1]);
      Trace(s, before.log + sent)
  }

  /** Continue a run from any state. */
  function Continue(s: State, ops: seq<Op>): State {
    if ops == [] then s else Step(Continue(s, ops[..|ops| - 1]), ops[|ops| - 1]).0
  }

  function StateAt(windowSize: nat, ops: seq<Op>, i: nat): State
    requires i <= |ops|
  {
    Run(windowSize, ops[..i]).state
  }

  // ---- The window controls are touched only by the three congestion events ---------------------

  lemma {:induction false} TrySendFrame(s: State, now: real)
    ensures var t := TrySend(s, now).0;
            t == s.(queue := t.queue, unacked := t.unacked, inflightBytes := t.inflightBytes,
              effectiveWindow := t.effectiveWindow)
    decreases |s.queue|
  {
    if s.queue != [] && BytesFit(s) {
      var w := s.(effectiveWindow := Window(s.control.cwnd, s.peerRwnd));
      if |s.unacked| < w.effectiveWindow {
        TrySendFrame(Launch(w, now), now);
      }
    }
  }

  predicate IsNewAck(s: State, op: Op) {
    op.Ack? && op.ackNum > s.base
  }

  predicate IsDupAck(s: State, op: Op) {
    op.Ack? && op.ackNum <= s.base && IsDuplicate(s, op.ackNum)
  }

  predicate IsTimeout(s: State, op: Op) {
    op.Tick? && Expired(s, op.now)
  }

  function SampleOf(s: State, op: Op): Option<real> {
    if op.Ack? then Sample(s, op.ackNum, op.now) else None
  }

  function NextBase(s: State, op: Op): nat {
    if IsNewAck(s, op) then op.ackNum else s.base
  }

  function NextControl(s: State, op: Op): Congestion.Control {
    if IsNewAck(s, op) then Congestion.OnNewAck(s.control)
    else if IsDupAck(s, op) then Congestion.OnDupAck(s.control)
    else if IsTimeout(s, op) then Congestion.OnTimeout(s.control)
    else s.control
  }

  function NextTimer(s: State, op: Op): Rtt.Timer {
    if SampleOf(s, op).Some? then Rtt.OnSample(s.timer, SampleOf(s, op).value)
    else if IsTimeout(s, op) then Rtt.Backoff(s.timer)
    else s.timer
  }

  lemma StepControls(s: State, op: Op)
    ensures var t := Step(s, op).0;
            t.base == NextBase(s, op) && t.control == NextControl(s, op) && t.timer == NextTimer(s, op)
  {
    match op {
      case Send(m, now) => TrySendFrame(Queued(s, m), now);
      case Ack(ackNum, rwnd, now) => AckControls(s, ackNum, rwnd, now);
      case Tick(now) =>
    }
  }

  lemma AckControls(s: State, ack: nat, rwnd: nat, now: real)
    ensures var t, op := OnAck(s, ack, rwnd, now).0, Ack(ack, rwnd, now);
            t.base == NextBase(s, op) && t.control == NextControl(s, op) && t.timer == NextTimer(s, op)
  {
    var w := s.(peerRwnd := rwnd);
    if ack > s.base {
      TrySendFrame(Acknowledged(w, ack, now), now);
    } else {
      TrySendFrame(w.(control := Congestion.OnDupAck(s.control)), now);
    }
  }

  // ---- Congestion control in every run ---------------------------------------------------------

  function AckCount(ops: seq<Op>): nat {
    if ops == [] then 0 else AckCount(ops[..|ops| - 1]) + (if ops[|ops| - 1].Ack? then 1 else 0)
  }

  /** Every run keeps the congestion invariant and at most one segment of growth per acknowledgement. */
  lemma {:induction false} CongestionInEveryRun(windowSize: nat, ops: seq<Op>)
    ensures var c := Run(windowSize, ops).state.control;
            Congestion.Valid(c) && Congestion.Bounded(c, AckCount(ops))
  {
    if ops == [] {
      Congestion.Quotient(1.0);
    } else {
      var init, op := ops[..|ops| - 1], ops[|ops| - 1];
      var s := Run(windowSize, init).state;
      CongestionInEveryRun(windowSize, init);
      StepControls(s, op);
      ControlStep(s, op, AckCount(init));
    }
  }

  lemma ControlStep(s: State, op: Op, acks: nat)
    requires Congestion.Valid(s.control) && Congestion.Bounded(s.control, acks)
    ensures Congestion.Valid(NextControl(s, op))
    ensures Congestion.Bounded(NextControl(s, op), acks + if op.Ack? then 1 else 0)
  {
    Congestion.NewAckKeepsValid(s.control);
    Congestion.DupAckKeepsValid(s.control);
    Congestion.TimeoutKeepsValid(s.control);
    Congestion.NewAckBounded(s.control, acks);
    Congestion.DupAckBounded(s.control, acks);
    Congestion.TimeoutBounded(s.control, acks);
  }

  /** `ops` are all new acknowledgements when run from `s`. */
  predicate AllNewAcks(s: State, ops: seq<Op>) {
    ops == [] || (AllNewAcks(s, ops[..|ops| - 1]) && IsNewAck(Continue(s, ops[..|ops| - 1]), ops[|ops| - 1]))
  }

  lemma {:induction false} NewAcksAccumulate(s: State, ops: seq<Op>)
    requires AllNewAcks(s, ops)
    ensures Continue(s, ops).control == Congestion.NewAcks(s.control, |ops|)
  {
    if ops != [] {
      NewAcksAccumulate(s, ops[..|ops| - 1]);
      StepControls(Continue(s, ops[..|ops| - 1]), ops[|ops| - 1]);
    }
  }

  /** In congestion avoidance a window's worth of consecutive new acknowledgements adds at most one segment. */
  lemma AvoidanceIsLinear(windowSize: nat, before: seq<Op>, ops: seq<Op>)
    requires var s := Run(windowSize, before).state;
             s.control.state == Congestion.Avoidance && AllNewAcks(s, ops)
               && Congestion.Times(|ops|, Congestion.MSS) <= s.control.cwnd
    ensures var s := Run(windowSize, before).state;
            s.control.cwnd <= Continue(s, ops).control.cwnd <= s.control.cwnd + Congestion.MSS
  {
    CongestionInEveryRun(windowSize, before);
    NewAcksAccumulate(Run(windowSize, before).state, ops);
    Congestion.OneSegmentPerWindow(Run(windowSize, before).state.control, |ops|);
  }

  // ---- One fast retransmit per window base -----------------------------------------------------

  predicate FastRetransmits(s: State, op: Op) {
    IsDupAck(s, op) && Congestion.EntersRecovery(s.control)
  }

  /** Three or more duplicates have been counted at base `b`, or the base has moved on. */
  predicate Counted(s: State, b: nat) {
    s.base > b || (s.base == b && s.control.dupAcks >= 3)
  }

  lemma StepCounted(s: State, op: Op, b: nat)
    requires Counted(s, b) || (s.base == b && FastRetransmits(s, op))
    ensures Counted(Step(s, op).0, b)
  {
    StepControls(s, op);
  }

  /** `states` is what `ops` leads through, from any start. */
  predicate IsRun(states: seq<State>, ops: seq<Op>) {
    |states| == |ops| + 1 && forall i :: 0 <= i < |ops| ==> states[i + 1] == Step(states[i], ops[i]).0
  }

  lemma {:induction false} StaysCounted(states: seq<State>, ops: seq<Op>, i: nat, j: nat)
    requires IsRun(states, ops) && i < j <= |ops| && FastRetransmits(states[i], ops[i])
    ensures Counted(states[j], states[i].base)
    decreases j
  {
    if i < j - 1 {
      StaysCounted(states, ops, i, j - 1);
    }
    StepCounted(states[j - 1], ops[j - 1], states[i].base);
  }

  /** Two fast retransmits of one run happen at different window bases. */
  lemma OneFastRetransmitPerBase(states: seq<State>, ops: seq<Op>, i: nat, j: nat)
    requires IsRun(states, ops) && i < j < |ops|
    requires FastRetransmits(states[i], ops[i]) && FastRetransmits(states[j], ops[j])
    ensures states[i].base < states[j].base
  {
    StaysCounted(states, ops, i, j);
  }

  // ---- Timeout estimation in every run ---------------------------------------------------------

  lemma {:induction false} RtoInEveryRun(windowSize: nat, ops: seq<Op>)
    ensures Rtt.Valid(Run(windowSize, ops).state.timer)
  {
    if ops != [] {
      RtoInEveryRun(windowSize, ops[..|ops| - 1]);
      StepControls(Run(windowSize, ops[..|ops| - 1]).state, ops[|ops| - 1]);
    }
  }

  /** All samples taken during a run lie in `[lo, hi]`. */
  predicate SamplesWithin(windowSize: nat, ops: seq<Op>, lo: real, hi: real) {
    forall i :: 0 <= i < |ops| ==>
      var r := SampleOf(StateAt(windowSize, ops, i), ops[i]);
      r.Some? ==> lo <= r.value <= hi
  }

  lemma {:induction false} EstimateFollowsSamples(windowSize: nat, ops: seq<Op>, lo: real, hi: real)
    requires 0.0 <= lo <= hi && SamplesWithin(windowSize, ops, lo, hi)
    ensures Rtt.Within(Run(windowSize, ops).state.timer, lo, hi)
  {
    if ops != [] {
      var n := |ops| - 1;
      var init, op := ops[..n], ops[n];
      var s := Run(windowSize, init).state;
      assert s == StateAt(windowSize, ops, n);
      forall i | 0 <= i < n
        ensures StateAt(windowSize, init, i) == StateAt(windowSize, ops, i)
      {
        assert init[..i] == ops[..i];
      }
      EstimateFollowsSamples(windowSize, init, lo, hi);
      StepControls(s, op);
      if SampleOf(s, op).Some? {
        Rtt.SampleKeepsWithin(s.timer, SampleOf(s, op).value, lo, hi);
      }
    }
  }

  function Timeouts(s: State, ops: seq<Op>): nat {
    if ops == [] then 0
    else
      var init := ops[..|ops| - 1];
      Timeouts(s, init) + if IsTimeout(Continue(s, init), ops[|ops| - 1]) then 1 else 0
  }

  predicate NoSamples(s: State, ops: seq<Op>) {
    ops == [] || (NoSamples(s, ops[..|ops| - 1]) && SampleOf(Continue(s, ops[..|ops| - 1]), ops[|ops| - 1]).None?)
  }

  /** Exponential backoff: `k` timeouts with no new sample in between double the timeout `k` times, up to the cap. */
  lemma {:induction false} BackoffInEveryRun(s: State, ops: seq<Op>)
    requires Rtt.Valid(s.timer) && NoSamples(s, ops)
    ensures Continue(s, ops).timer.rto == MinReal(Rtt.Doubled(s.timer.rto, Timeouts(s, ops)), Rtt.MAX_RTO)
  {
    if ops != [] {
      var init := ops[..|ops| - 1];
      BackoffInEveryRun(s, init);
      BackoffStep(Continue(s, init), ops[|ops| - 1], s.timer.rto, Timeouts(s, init));
    }
  }

  lemma BackoffStep(s: State, op: Op, start: real, k: nat)
    requires s.timer.rto == MinReal(Rtt.Doubled(start, k), Rtt.MAX_RTO) && SampleOf(s, op).None?
    ensures Step(s, op).0.timer.rto == MinReal(Rtt.Doubled(start, k + if IsTimeout(s, op) then 1 else 0), Rtt.MAX_RTO)
  {
    StepControls(s, op);
    Rtt.BackoffDoubles(s.timer, start, k);
  }
}
