/** Round-trip estimation and the retransmission timeout (sections 2 and 5 of RFC 6298). */
module Rtt {
  import opened Extrema
  import opened Wire

  const ALPHA: real := 0.125
  const BETA: real := 0.25
  const INITIAL_RTO: real := 0.5
  const MIN_RTO: real := 0.1
  const MAX_RTO: real := 4.0

  datatype Estimate = Estimate(srtt: real, rttvar: real)

  datatype Timer = Timer(estimate: Option<Estimate>, rto: real)

  const INITIAL := Timer(None, INITIAL_RTO)

  function Abs(x: real): real {
    if x >= 0.0 then x else -x
  }

  function Updated(e: Option<Estimate>, sample: real): Estimate {
    match e
    case None => Estimate(sample, sample / 2.0)
    case Some(Estimate(srtt, rttvar)) =>
      Estimate((1.0 - ALPHA) * srtt + ALPHA * sample, (1.0 - BETA) * rttvar + BETA * Abs(srtt - sample))
  }

  function OnSample(t: Timer, sample: real): Timer {
    var e := Updated(t.estimate, sample);
    Timer(Some(e), MaxReal(MIN_RTO, MinReal(e.srtt + 4.0 * e.rttvar, MAX_RTO)))
  }

  function Backoff(t: Timer): Timer {
    t.(rto := MinReal(t.rto * 2.0, MAX_RTO))
  }

  /** The timeout stays within its limits. */
  predicate Valid(t: Timer) {
    MIN_RTO <= t.rto <= MAX_RTO
  }

  /** The estimate agrees with samples that all lie in `[lo, hi]`. */
  predicate Within(t: Timer, lo: real, hi: real) {
    t.estimate.Some? ==>
      && lo <= t.estimate.value.srtt <= hi
      && 0.0 <= t.estimate.value.rttvar <= MaxReal(hi / 2.0, hi - lo)
  }

  lemma SampleKeepsWithin(t: Timer, sample: real, lo: real, hi: real)
    requires 0.0 <= lo <= sample <= hi && Within(t, lo, hi)
    ensures Within(OnSample(t, sample), lo, hi)
  {
  }

  /** `x` doubled `k` times. */
  function Doubled(x: real, k: nat): real {
    if k == 0 then x else Doubled(x, k - 1) * 2.0
  }

  /** Backing off once more doubles, up to the cap. */
  lemma BackoffDoubles(t: Timer, start: real, k: nat)
    requires t.rto == MinReal(Doubled(start, k), MAX_RTO)
    ensures Backoff(t).rto == MinReal(Doubled(start, k + 1), MAX_RTO)
  {
  }

  // ---- The estimate as a weighted sum of all samples -----------------------------------------------------------

  /** The estimate that a sequence of samples leaves. */
  function EstimateOf(samples: seq<real>): Option<Estimate> {
    if samples == [] then None
    else Some(Updated(EstimateOf(samples[..|samples| - 1]), samples[|samples| - 1]))
  }

  function Power(x: real, k: nat): real {
    if k == 0 then 1.0 else x * Power(x, k - 1)
  }

  /** The weight of value `k` among `n` with gain `g`: all but the first count `g`, and each decays with its age. */
  function Weight(g: real, n: nat, k: nat): real
    requires k < n
  {
    (if k == 0 then 1.0 else g) * Power(1.0 - g, n - 1 - k)
  }

  function Sum(xs: seq<real>): real {
    if xs == [] then 0.0 else Sum(xs[..|xs| - 1]) + xs[|xs| - 1]
  }

  function Term(g: real, ys: seq<real>, k: nat): real
    requires k < |ys|
  {
    Weight(g, |ys|, k) * ys[k]
  }

  function Terms(g: real, ys: seq<real>): (ts: seq<real>)
    ensures |ts| == |ys|
  {
    seq(|ys|, k requires 0 <= k < |ys| => Term(g, ys, k))
  }

  /** The exponentially weighted sum of all values. */
  function Weighted(g: real, ys: seq<real>): real {
    Sum(Terms(g, ys))
  }

  /** `after` is `before` scaled by `d`. */
  predicate Scaled(d: real, before: real, after: real) {
    after == d * before
  }

  lemma ScaledPlus(d: real, x: real, y: real, x': real, y': real)
    requires Scaled(d, x, x') && Scaled(d, y, y')
    ensures Scaled(d, x + y, x' + y')
  {
  }

  lemma {:induction false} SumScaled(d: real, xs: seq<real>, ys: seq<real>)
    requires |xs| == |ys| && forall k :: 0 <= k < |xs| ==> Scaled(d, xs[k], ys[k])
    ensures Scaled(d, Sum(xs), Sum(ys))
  {
    if xs != [] {
      var n := |xs| - 1;
      SumScaled(d, xs[..n], ys[..n]);
      ScaledPlus(d, Sum(xs[..n]), xs[n], Sum(ys[..n]), ys[n]);
    }
  }

  lemma Commute(a: real, b: real, c: real)
    ensures a * (b * c) == b * (a * c) && (a * b) * c == a * (b * c)
  {
  }

  lemma WeightDecays(g: real, n: nat, k: nat)
    requires k < n
    ensures Weight(g, n + 1, k) == (1.0 - g) * Weight(g, n, k)
  {
    assert Power(1.0 - g, n - k) == (1.0 - g) * Power(1.0 - g, n - 1 - k);
    Commute(if k == 0 then 1.0 else g, 1.0 - g, Power(1.0 - g, n - 1 - k));
  }

  lemma TermDecays(g: real, ys: seq<real>, y: real, k: nat)
    requires k < |ys|
    ensures Scaled(1.0 - g, Term(g, ys, k), Term(g, ys + [y], k))
  {
    WeightDecays(g, |ys|, k);
    Commute(1.0 - g, Weight(g, |ys|, k), ys[k]);
  }

  /** One more value: the sum so far decays, and the value is added with the gain. */
  lemma WeightedSnoc(g: real, ys: seq<real>, y: real)
    ensures Weighted(g, ys + [y]) == if ys == [] then y else (1.0 - g) * Weighted(g, ys) + g * y
  {
    var n := |ys|;
    var ts, us := Terms(g, ys), Terms(g, ys + [y]);
    forall k | 0 <= k < n
      ensures Scaled(1.0 - g, ts[k], us[..n][k])
    {
      TermDecays(g, ys, y, k);
    }
    SumScaled(1.0 - g, ts, us[..n]);
    assert Power(1.0 - g, 0) == 1.0;
    assert us[n] == if n == 0 then y else g * y;
  }

  /** How far each sample lies from the estimate before it; half the first one. */
  function Deviations(samples: seq<real>): (ds: seq<real>)
    ensures |ds| == |samples|
  {
    if samples == [] then []
    else
      var init, r := samples[..|samples| - 1], samples[|samples| - 1];
      Deviations(init) + [if init == [] then r / 2.0 else Abs(Weighted(0.125, init) - r)]
  }

  lemma DeviationsSnoc(init: seq<real>, r: real) returns (d: real)
    ensures Deviations(init + [r]) == Deviations(init) + [d]
    ensures d == if init == [] then r / 2.0 else Abs(Weighted(0.125, init) - r)
  {
    assert (init + [r])[..|init|] == init;
    d := if init == [] then r / 2.0 else Abs(Weighted(0.125, init) - r);
  }

  /** The smoothing step, on the numbers alone. */
  lemma UpdatedIs(e: Option<Estimate>, r: real, d: real, srtt: real, rttvar: real)
    requires e.None? ==> srtt == r && rttvar == d && d == r / 2.0
    requires e.Some? ==>
               && srtt == 0.875 * e.value.srtt + 0.125 * r
               && rttvar == 0.75 * e.value.rttvar + 0.25 * d && d == Abs(e.value.srtt - r)
    ensures Updated(e, r) == Estimate(srtt, rttvar)
  {
  }

  lemma SumsSnoc(init: seq<real>, r: real, d: real, srtt: real, rttvar: real, srtt': real, rttvar': real)
    requires Deviations(init + [r]) == Deviations(init) + [d]
    requires srtt == Weighted(0.125, init) && rttvar == Weighted(0.25, Deviations(init))
    requires srtt' == Weighted(0.125, init + [r]) && rttvar' == Weighted(0.25, Deviations(init + [r]))
    ensures if init == [] then srtt' == r && rttvar' == d
            else srtt' == 0.875 * srtt + 0.125 * r && rttvar' == 0.75 * rttvar + 0.25 * d
  {
    WeightedSnoc(0.125, init, r);
    WeightedSnoc(0.25, Deviations(init), d);
  }

  /** The round-trip estimate is the weighted sum of all samples, its variance that of all deviations. */
  lemma {:induction false} EstimateIsWeighted(samples: seq<real>)
    requires samples != []
    ensures EstimateOf(samples) == Some(Estimate(Weighted(0.125, samples), Weighted(0.25, Deviations(samples))))
  {
    var init, r := samples[..|samples| - 1], samples[|samples| - 1];
    assert samples == init + [r];
    if init != [] {
      EstimateIsWeighted(init);
    }
    var srtt, rttvar := Weighted(0.125, samples), Weighted(0.25, Deviations(samples));
    var d := DeviationsSnoc(init, r);
    SumsSnoc(init, r, d, Weighted(0.125, init), Weighted(0.25, Deviations(init)), srtt, rttvar);
    UpdatedIs(EstimateOf(init), r, d, srtt, rttvar);
  }
}
