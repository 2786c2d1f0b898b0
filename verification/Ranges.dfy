/** Intervals of natural numbers as finite sets. */
module Ranges {

  function Interval(lo: nat, hi: nat): (s: set<nat>)
    ensures forall n :: n in s <==> lo <= n < hi
  {
    if lo >= hi then {} else Interval(lo, hi - 1) + {hi - 1}
  }

  lemma {:induction false} IntervalSize(lo: nat, hi: nat)
    requires lo <= hi
    ensures |Interval(lo, hi)| == hi - lo
    decreases hi
  {
    if lo < hi {
      IntervalSize(lo, hi - 1);
    }
  }

  lemma {:induction false} SubsetSize<T>(small: set<T>, large: set<T>)
    requires small <= large
    ensures |small| <= |large|
  {
    if small != {} {
      var x :| x in small;
      SubsetSize(small - {x}, large - {x});
    }
  }

  /** A set of numbers drawn from an interval is no larger than it. */
  lemma WithinInterval(s: set<nat>, lo: nat, hi: nat)
    requires lo <= hi && forall n :: n in s ==> lo <= n < hi
    ensures |s| <= hi - lo
  {
    IntervalSize(lo, hi);
    SubsetSize(s, Interval(lo, hi));
  }

  /** A set that covers an interval is at least as large. */
  lemma CoversInterval(s: set<nat>, lo: nat, hi: nat)
    requires lo <= hi && forall n :: lo <= n < hi ==> n in s
    ensures hi - lo <= |s|
  {
    IntervalSize(lo, hi);
    SubsetSize(Interval(lo, hi), s);
  }

  lemma ExactInterval(s: set<nat>, lo: nat, hi: nat)
    requires lo <= hi && forall n :: n in s <==> lo <= n < hi
    ensures |s| == hi - lo
  {
    WithinInterval(s, lo, hi);
    CoversInterval(s, lo, hi);
  }
}
