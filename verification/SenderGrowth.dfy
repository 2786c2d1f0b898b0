/** How the congestion window moves in every run, in numbers. */
module SenderGrowth {
  import opened Extrema
  import opened Sender
  import opened SenderProofs
  import C = Congestion

  // ---- What happens to a sender, as seen from outside ------------------------------------------------------

  /** An acknowledgement of what is already acknowledged, and of nothing less. */
  predicate RepeatsAck(s: State, op: Op) {
    op.Ack? && op.ackNum == s.base
  }

  /** A tick that transmits. */
  predicate TickSends(s: State, op: Op) {
    op.Tick? && Step(s, op).1 != []
  }

  lemma TickSendsIff(s: State, op: Op)
    ensures TickSends(s, op) <==> IsTimeout(s, op)
  {
  }

  /** No acknowledgement is repeated and no tick transmits. */
  predicate Smooth(s: State, ops: seq<Op>) {
    ops == [] ||
    (var init, op := ops[..|ops| - 1], ops[|ops| - 1];
     Smooth(s, init) && !RepeatsAck(Continue(s, init), op) && !TickSends(Continue(s, init), op))
  }

  /** How many acknowledgements exceed all before them. */
  function NewAckCount(s: State, ops: seq<Op>): nat {
    if ops == [] then 0
    else
      var init, op := ops[..|ops| - 1], ops[|ops| - 1];
      NewAckCount(s, init) + if op.Ack? && op.ackNum > Continue(s, init).base then 1 else 0
  }

  lemma {:induction false} SmoothControl(s: State, ops: seq<Op>)
    requires Smooth(s, ops)
    ensures Continue(s, ops).control == C.NewAcks(s.control, NewAckCount(s, ops))
  {
    if ops != [] {
      var init, op := ops[..|ops| - 1], ops[|ops| - 1];
      SmoothControl(s, init);
      StepControls(Continue(s, init), op);
      TickSendsIff(Continue(s, init), op);
    }
  }

  // ---- Slow start ---------------------------------------------------------------------------------------------

  lemma {:induction false} SlowStartAccumulates(c: C.Control, n: nat)
    requires c.state == C.SlowStart && c.cwnd < c.ssthresh && (n == 0 || c.cwnd + C.Times(n - 1, 1200.0) < c.ssthresh)
    ensures var d := C.NewAcks(c, n);
            && d.cwnd == c.cwnd + C.Times(n, 1200.0) && d.ssthresh == c.ssthresh
            && d.state == if d.cwnd >= d.ssthresh then C.Avoidance else C.SlowStart
  {
    if n > 0 {
      SlowStartAccumulates(c, n - 1);
    }
  }

  lemma SlowStartControl(c: C.Control, n: nat)
    requires c.state == C.SlowStart && c.cwnd < c.ssthresh
    requires n == 0 || c.cwnd + (n - 1) as real * 1200.0 < c.ssthresh
    ensures var d := C.NewAcks(c, n);
            && d.cwnd == c.cwnd + n as real * 1200.0 && d.ssthresh == c.ssthresh
            && d.state == if d.cwnd >= d.ssthresh then C.Avoidance else C.SlowStart
  {
    C.TimesIsProduct(n, 1200.0);
    if n > 0 {
      C.TimesIsProduct(n - 1, 1200.0);
    }
    SlowStartAccumulates(c, n);
  }

  /**
   Slow start, in every run and whatever is sent in between: until the window has reached the threshold, `n` new
   acknowledgements raise it by exactly `n` segments, and congestion avoidance begins with the one that reaches it.
   */
  lemma SlowStartIsExact(windowSize: nat, before: seq<Op>, ops: seq<Op>)
    requires var s := Run(windowSize, before).state;
             var n := NewAckCount(s, ops);
             && s.control.state == C.SlowStart && Smooth(s, ops)
             && (n == 0 || s.control.cwnd + (n - 1) as real * 1200.0 < s.control.ssthresh)
    ensures var s := Run(windowSize, before).state;
            var t := Continue(s, ops);
            && t.control.cwnd == s.control.cwnd + NewAckCount(s, ops) as real * 1200.0
            && t.control.ssthresh == s.control.ssthresh
            && t.control.state == if t.control.cwnd >= t.control.ssthresh then C.Avoidance else C.SlowStart
  {
    var s := Run(windowSize, before).state;
    var n := NewAckCount(s, ops);
    CongestionInEveryRun(windowSize, before);
    SmoothControl(s, ops);
    SlowStartControl(s.control, n);
  }

  /** From the start: the window is one segment more than new acknowledgements, up to 64 segments. */
  lemma SlowStartFromTheStart(windowSize: nat, ops: seq<Op>)
    requires var s := Initial(windowSize); Smooth(s, ops) && NewAckCount(s, ops) <= 63
    ensures var s := Initial(windowSize);
            var n, c := NewAckCount(s, ops), Continue(s, ops).control;
            c.cwnd == (n + 1) as real * 1200.0 && (c.state == C.SlowStart <==> n < 63)
  {
    SlowStartIsExact(windowSize, [], ops);
  }

  // ---- Congestion avoidance ----------------------------------------------------------------------------------

  lemma {:induction false} AvoidanceGrows(c: C.Control, n: nat, top: C.Positive)
    requires C.Valid(c) && c.state == C.Avoidance && C.NewAcks(c, n).cwnd <= top
    ensures C.NewAcks(c, n).cwnd >= c.cwnd + C.Times(n, C.Increment(top))
  {
    if n > 0 {
      C.AvoidanceAccumulates(c, n - 1);
      C.AvoidanceAccumulates(c, n);
      var d := C.NewAcks(c, n - 1);
      AvoidanceGrows(c, n - 1, top);
      C.IncrementAntitone(d.cwnd, top);
    }
  }

  /** `growth` is at most one segment and at least `n` times MSS squared over `top`. */
  predicate AlmostLinear(growth: real, n: nat, top: real) {
    0.0 <= growth <= 1200.0 && growth * top >= n as real * 1440000.0
  }

  lemma TimesTop(n: nat, top: C.Positive, growth: real)
    requires C.Times(n, C.Increment(top)) <= growth <= 1200.0 && growth >= 0.0
    ensures AlmostLinear(growth, n, top)
  {
    var d := C.Increment(top);
    C.TimesIsProduct(n, d);
    C.ProductMonotone(n as real * d, growth, top);
    assert n as real * d * top == n as real * (d * top);
  }

  lemma AvoidanceControl(c: C.Control, n: nat) returns (growth: real, top: real)
    requires C.Valid(c) && c.state == C.Avoidance && C.Times(n, 1200.0) <= c.cwnd
    ensures growth == C.NewAcks(c, n).cwnd - c.cwnd && top == c.cwnd + 1200.0
    ensures AlmostLinear(growth, n, top)
  {
    growth, top := C.NewAcks(c, n).cwnd - c.cwnd, c.cwnd + 1200.0;
    C.OneSegmentPerWindow(c, n);
    AvoidanceGrows(c, n, top);
    TimesTop(n, top, growth);
  }

  /**
   Congestion avoidance, in every run: `n` new acknowledgements, at most a window's worth, raise the window by at
   most one segment and by at least `n` times MSS squared over the window with one segment more.
   */
  lemma AvoidanceIsAlmostExact(windowSize: nat, before: seq<Op>, ops: seq<Op>) returns (growth: real, top: real)
    requires var s := Run(windowSize, before).state;
             && s.control.state == C.Avoidance && Smooth(s, ops)
             && C.Times(NewAckCount(s, ops), 1200.0) <= s.control.cwnd
    ensures var s := Run(windowSize, before).state;
            && growth == Continue(s, ops).control.cwnd - s.control.cwnd && top == s.control.cwnd + 1200.0
            && AlmostLinear(growth, NewAckCount(s, ops), top)
  {
    var s := Run(windowSize, before).state;
    CongestionInEveryRun(windowSize, before);
    SmoothControl(s, ops);
    growth, top := AvoidanceControl(s.control, NewAckCount(s, ops));
  }
}
