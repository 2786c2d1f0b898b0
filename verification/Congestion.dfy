/**
 The congestion window: slow start, congestion avoidance and fast recovery (section 3 of RFC 5681,
 with ssthresh taken from half the window, as the sender does).
 */
module Congestion {
  import opened Extrema
  import Fragment

  const MSS: real := Fragment.MSS as real

  type Positive = r: real | r > 0.0 witness 1.0

  datatype State = SlowStart | Avoidance | FastRecovery

  datatype Control = Control(state: State, cwnd: Positive, ssthresh: Positive, dupAcks: nat)

  const INITIAL := Control(SlowStart, MSS, 64.0 * MSS, 0)

  /** Growth of one acknowledgement in congestion avoidance. */
  function Increment(cwnd: Positive): (d: Positive)
    ensures d * cwnd == MSS * MSS
    ensures cwnd >= MSS ==> d <= MSS
  {
    MSS * MSS / cwnd
  }

  /** Multiplicative decrease, but never below two segments. */
  function Halved(cwnd: Positive): Positive {
    MaxReal(cwnd / 2.0, 2.0 * MSS)
  }

  function OnNewAck(c: Control): Control {
    match c.state
    case SlowStart =>
      var cwnd := c.cwnd + MSS;
      Control(if cwnd >= c.ssthresh then Avoidance else SlowStart, cwnd, c.ssthresh, 0)
    case Avoidance => Control(Avoidance, c.cwnd + Increment(c.cwnd), c.ssthresh, 0)
    case FastRecovery => Control(Avoidance, c.ssthresh, c.ssthresh, 0)
  }

  /** This duplicate acknowledgement is the third one and starts fast recovery. */
  predicate EntersRecovery(c: Control) {
    c.dupAcks == 2 && c.state != FastRecovery
  }

  /** This duplicate acknowledgement inflates the window. */
  predicate Inflates(c: Control) {
    c.dupAcks >= 3 && c.state == FastRecovery
  }

  function OnDupAck(c: Control): Control {
    if EntersRecovery(c) then Control(FastRecovery, Halved(c.cwnd) + 3.0 * MSS, Halved(c.cwnd), 3)
    else if Inflates(c) then c.(dupAcks := c.dupAcks + 1, cwnd := c.cwnd + MSS)
    else c.(dupAcks := c.dupAcks + 1)
  }

  function OnTimeout(c: Control): Control {
    Control(SlowStart, MSS, Halved(c.cwnd), c.dupAcks)
  }

  // ---- Invariant -----------------------------------------------------------------------------

  predicate WholeSegments(cwnd: real) {
    cwnd == (cwnd / MSS).Floor as real * MSS
  }

  predicate Valid(c: Control) {
    && c.cwnd >= MSS
    && c.ssthresh >= 2.0 * MSS
    && match c.state
       case SlowStart => WholeSegments(c.cwnd) && c.cwnd < c.ssthresh
       case Avoidance => c.cwnd >= c.ssthresh
       case FastRecovery => c.dupAcks >= 3 && c.cwnd == c.ssthresh + c.dupAcks as real * MSS
  }

  lemma Quotient(k: real)
    ensures k * MSS / MSS == k
  {
  }

  lemma WholeSegmentsNext(cwnd: real)
    requires WholeSegments(cwnd)
    ensures WholeSegments(cwnd + MSS)
  {
    var k := (cwnd / MSS).Floor;
    assert cwnd + MSS == (k + 1) as real * MSS;
    Quotient((k + 1) as real);
    assert (cwnd + MSS) / MSS == (k + 1) as real;
    assert ((k + 1) as real).Floor == k + 1;
  }

  lemma NewAckKeepsValid(c: Control)
    requires Valid(c)
    ensures Valid(OnNewAck(c))
  {
    if c.state == SlowStart {
      WholeSegmentsNext(c.cwnd);
    }
  }

  lemma DupAckKeepsValid(c: Control)
    requires Valid(c)
    ensures Valid(OnDupAck(c))
  {
  }

  lemma TimeoutKeepsValid(c: Control)
    requires Valid(c)
    ensures Valid(OnTimeout(c))
  {
    Quotient(1.0);
  }

  // ---- Fast recovery as a whole --------------------------------------------------------------

  function DupAcks(c: Control, n: nat): Control {
    if n == 0 then c else OnDupAck(DupAcks(c, n - 1))
  }

  lemma {:induction false} RecoveryInflates(c: Control, n: nat)
    requires EntersRecovery(c)
    ensures var d := DupAcks(c, n + 1);
            && d.state == FastRecovery && d.ssthresh == Halved(c.cwnd)
            && d.dupAcks == n + 3 && d.cwnd == d.ssthresh + d.dupAcks as real * MSS
  {
    if n > 0 {
      RecoveryInflates(c, n - 1);
    } else {
      assert DupAcks(c, 1) == OnDupAck(DupAcks(c, 0));
    }
  }

  /**
   A whole fast recovery, however many duplicates inflate the window in between, cuts the window of the moment
   of loss in half, but not below two segments, and continues in congestion avoidance from there.
   */
  lemma RecoveryHalvesWindow(c: Control, n: nat)
    requires EntersRecovery(c)
    ensures var d := OnNewAck(DupAcks(c, n + 1));
            d.state == Avoidance && d.dupAcks == 0 && 2.0 * d.cwnd == MaxReal(c.cwnd, 4.0 * MSS)
  {
    RecoveryInflates(c, n);
  }

  // ---- Growth --------------------------------------------------------------------------------

  /** The window after `acks` acknowledgements of any kind. */
  predicate Bounded(c: Control, acks: nat) {
    c.cwnd <= MSS * (2.0 + acks as real) && c.dupAcks <= acks
  }

  lemma NewAckBounded(c: Control, acks: nat)
    requires Valid(c) && Bounded(c, acks)
    ensures Bounded(OnNewAck(c), acks + 1)
  {
  }

  lemma DupAckBounded(c: Control, acks: nat)
    requires Valid(c) && Bounded(c, acks)
    ensures Bounded(OnDupAck(c), acks + 1)
  {
  }

  lemma TimeoutBounded(c: Control, acks: nat)
    requires Valid(c) && Bounded(c, acks)
    ensures Bounded(OnTimeout(c), acks)
  {
  }

  function NewAcks(c: Control, n: nat): Control {
    if n == 0 then c else OnNewAck(NewAcks(c, n - 1))
  }

  /** `n` times `d`, by repeated addition. */
  function Times(n: nat, d: real): real {
    if n == 0 then 0.0 else Times(n - 1, d) + d
  }

  lemma {:induction false} TimesIsProduct(n: nat, d: real)
    ensures Times(n, d) == n as real * d
  {
    if n > 0 {
      TimesIsProduct(n - 1, d);
      assert n as real * d == (n - 1) as real * d + d;
    }
  }

  lemma {:induction false} AvoidanceAccumulates(c: Control, n: nat)
    requires Valid(c) && c.state == Avoidance
    ensures var d := NewAcks(c, n);
            Valid(d) && d.state == Avoidance && c.cwnd <= d.cwnd <= c.cwnd + Times(n, Increment(c.cwnd))
  {
    if n > 0 {
      AvoidanceAccumulates(c, n - 1);
      var d := NewAcks(c, n - 1);
      NewAckKeepsValid(d);
      IncrementAntitone(c.cwnd, d.cwnd);
    }
  }

  lemma IncrementAntitone(small: Positive, large: Positive)
    requires small <= large
    ensures Increment(large) <= Increment(small)
  {
    Crosswise(Increment(small), Increment(large), small, large);
  }

  lemma Crosswise(a: Positive, b: Positive, small: Positive, large: Positive)
    requires a * small == b * large && small <= large
    ensures b <= a
  {
    ProductMonotone(small, large, b);
  }

  lemma ProductMonotone(x: real, y: real, k: Positive)
    requires x <= y
    ensures x * k <= y * k && k * x <= k * y
  {
    assert (y - x) * k >= 0.0;
  }

  lemma WindowTimesIncrement(cwnd: Positive, n: nat)
    requires Times(n, MSS) <= cwnd
    ensures Times(n, Increment(cwnd)) <= MSS
  {
    TimesIsProduct(n, MSS);
    TimesIsProduct(n, Increment(cwnd));
    ShareOfWindow(cwnd, n as real, Increment(cwnd));
  }

  lemma ShareOfWindow(cwnd: Positive, k: real, d: Positive)
    requires k * MSS <= cwnd && d * cwnd == MSS * MSS
    ensures k * d <= MSS
  {
    ProductMonotone(k * MSS, cwnd, d);
    var x := k * d;
    assert x * MSS == (k * MSS) * d;
  }

  /** One window's worth of acknowledgements grows the window by at most one segment. */
  lemma OneSegmentPerWindow(c: Control, n: nat)
    requires Valid(c) && c.state == Avoidance
    requires Times(n, MSS) <= c.cwnd
    ensures c.cwnd <= NewAcks(c, n).cwnd <= c.cwnd + MSS
  {
    WindowTimesIncrement(c.cwnd, n);
    AvoidanceAccumulates(c, n);
  }
}
