/**
 The sender seen from outside: what it transmits, when, and how its clockwork moves, in terms of the calls made
 on it and of what it transmitted before.
 */
module SenderHistory {
  import opened Extrema
  import opened Wire
  import opened Sender
  import opened SenderProofs
  import C = Congestion
  import Fragment
  import Rtt
  import SG = SenderGrowth
  import SW = SenderWindow

  // ---- The history of a run ---------------------------------------------------------------------------------

  /** The greatest acknowledgement so far. */
  function MaxAck(ops: seq<Op>): nat {
    if ops == [] then 0
    else
      var m, op := MaxAck(ops[..|ops| - 1]), ops[|ops| - 1];
      if op.Ack? && op.ackNum > m then op.ackNum else m
  }

  /** How often the greatest acknowledgement has been repeated. */
  function Repeats(ops: seq<Op>): nat {
    if ops == [] then 0
    else
      var init, op := ops[..|ops| - 1], ops[|ops| - 1];
      if op.Ack? && op.ackNum > MaxAck(init) then 0
      else Repeats(init) + if op.Ack? && op.ackNum == MaxAck(init) then 1 else 0
  }

  /** The window that the last acknowledgement advertised. */
  function Advertised(windowSize: nat, ops: seq<Op>): nat {
    if ops == [] then windowSize
    else if ops[|ops| - 1].Ack? then ops[|ops| - 1].rwnd
    else Advertised(windowSize, ops[..|ops| - 1])
  }

  lemma StepCounts(s: State, op: Op)
    requires s.lastAck == s.base
    ensures var t := Step(s, op).0;
            && t.lastAck == t.base
            && t.base == (if op.Ack? && op.ackNum > s.base then op.ackNum else s.base)
            && t.peerRwnd == (if op.Ack? then op.rwnd else s.peerRwnd)
            && t.control.dupAcks == (if op.Ack? && op.ackNum > s.base then 0
                                     else if op.Ack? && op.ackNum == s.base then s.control.dupAcks + 1
                                     else s.control.dupAcks)
  {
    StepControls(s, op);
    match op {
      case Send(m, now) => TrySendFrame(Queued(s, m), now);
      case Ack(ack, rwnd, now) =>
        var w := s.(peerRwnd := rwnd);
        if ack > s.base {
          TrySendFrame(Acknowledged(w, ack, now), now);
        } else {
          TrySendFrame(w.(control := C.OnDupAck(s.control)), now);
        }
      case Tick(now) =>
    }
  }

  /** In every run: base, duplicate counter and peer window are what the acknowledgements so far say. */
  lemma {:induction false} CountersInEveryRun(windowSize: nat, ops: seq<Op>)
    ensures var s := Run(windowSize, ops).state;
            && s.base == s.lastAck == MaxAck(ops)
            && s.control.dupAcks == Repeats(ops)
            && s.peerRwnd == Advertised(windowSize, ops)
  {
    if ops != [] {
      CountersInEveryRun(windowSize, ops[..|ops| - 1]);
      StepCounts(Run(windowSize, ops[..|ops| - 1]).state, ops[|ops| - 1]);
    }
  }

  // ---- When each packet was last transmitted ---------------------------------------------------------------------

  datatype Sent = Sent(number: nat, time: real)

  function Stamped(ps: seq<Packet>, now: real): seq<Sent> {
    if ps == [] then [] else Stamped(ps[..|ps| - 1], now) + [Sent(ps[|ps| - 1].seqNum, now)]
  }

  /** Every transmission of a run, with its time. */
  function Transmissions(windowSize: nat, ops: seq<Op>): seq<Sent> {
    if ops == [] then []
    else
      var init, op := ops[..|ops| - 1], ops[|ops| - 1];
      Transmissions(windowSize, init) + Stamped(Step(Run(windowSize, init).state, op).1, op.now)
  }

  /** When number `q` was last transmitted. */
  function LastTime(log: seq<Sent>, q: nat): Option<real> {
    if log == [] then None
    else if log[|log| - 1].number == q then Some(log[|log| - 1].time)
    else LastTime(log[..|log| - 1], q)
  }

  predicate Carries(ps: seq<Packet>, q: nat) {
    exists i :: 0 <= i < |ps| && ps[i].seqNum == q
  }

  lemma {:induction false} LastTimeStamped(log: seq<Sent>, ps: seq<Packet>, now: real, q: nat)
    ensures LastTime(log + Stamped(ps, now), q) == if Carries(ps, q) then Some(now) else LastTime(log, q)
    decreases |ps|
  {
    if ps == [] {
      assert log + [] == log;
    } else {
      var init, last := ps[..|ps| - 1], Sent(ps[|ps| - 1].seqNum, now);
      LastTimeStamped(log, init, now, q);
      assert (log + Stamped(ps, now))[..|log + Stamped(ps, now)| - 1] == log + Stamped(init, now);
      if last.number == q {
        assert ps[|ps| - 1].seqNum == q;
      } else if Carries(init, q) {
        var i :| 0 <= i < |init| && init[i].seqNum == q;
        assert ps[i].seqNum == q;
      }
    }
  }

  /** What is in flight carries the time of its last transmission. */
  ghost predicate TimesKept(s: State, log: seq<Sent>) {
    forall q :: q in s.unacked ==> LastTime(log, q) == Some(s.unacked[q].sentTime)
  }

  lemma LaunchedTimed(s: State, t: State, sent: seq<Packet>, now: real, log: seq<Sent>)
    requires SW.Numbered(s) && SW.Launched(s, t, sent, now) && TimesKept(s, log)
    ensures TimesKept(t, log + Stamped(sent, now))
  {
    forall q | q in t.unacked
      ensures LastTime(log + Stamped(sent, now), q) == Some(t.unacked[q].sentTime)
    {
      LastTimeStamped(log, sent, now, q);
      assert forall i :: 0 <= i < |sent| ==> sent[i] == s.queue[i] && SW.Slot(s.queue[i], SW.Unsent(s) + i);
      if q in s.unacked {
        assert !Carries(sent, q);
      } else {
        assert sent[q - SW.Unsent(s)].seqNum == q;
      }
    }
  }

  lemma TrySendTimed(s: State, now: real, log: seq<Sent>)
    requires SW.Numbered(s) && TimesKept(s, log)
    ensures TimesKept(TrySend(s, now).0, log + Stamped(TrySend(s, now).1, now))
  {
    SW.TrySendLaunches(s, now);
    LaunchedTimed(s, TrySend(s, now).0, TrySend(s, now).1, now, log);
  }

  lemma ResendTimed(s: State, now: real, log: seq<Sent>)
    requires SW.Numbered(s) && TimesKept(s, log)
    ensures TimesKept(Resend(s, now).0, log + Stamped(Resend(s, now).1, now))
  {
    var (t, sent) := Resend(s, now);
    forall q | q in t.unacked
      ensures LastTime(log + Stamped(sent, now), q) == Some(t.unacked[q].sentTime)
    {
      LastTimeStamped(log, sent, now, q);
      if s.base in s.unacked {
        assert SW.Slot(s.unacked[s.base].packet, s.base);
        assert q == s.base ==> sent[0].seqNum == q;
      }
    }
  }

  lemma AckTimed(s: State, ack: nat, rwnd: nat, now: real, log: seq<Sent>)
    requires SW.Numbered(s) && TimesKept(s, log)
    ensures var (t, sent) := OnAck(s, ack, rwnd, now); TimesKept(t, log + Stamped(sent, now))
  {
    assert log + [] == log;
    var w := s.(peerRwnd := rwnd);
    if ack > s.base {
      SW.AcknowledgedNumbered(w, ack, now);
      TrySendTimed(Acknowledged(w, ack, now), now, log);
    } else {
      var d := w.(control := C.OnDupAck(s.control));
      ResendTimed(d, now, log);
      TrySendTimed(d, now, log);
    }
  }

  lemma StepTimed(s: State, op: Op, log: seq<Sent>)
    requires SW.Numbered(s) && TimesKept(s, log)
    ensures TimesKept(Step(s, op).0, log + Stamped(Step(s, op).1, op.now))
  {
    assert log + [] == log;
    match op {
      case Send(m, now) =>
        SW.QueuedNumbered(s, m);
        TrySendTimed(Queued(s, m), now, log);
      case Ack(ack, rwnd, now) => AckTimed(s, ack, rwnd, now, log);
      case Tick(now) => ResendTimed(s.(control := C.OnTimeout(s.control), timer := Rtt.Backoff(s.timer)), now, log);
    }
  }

  lemma {:induction false} TimesInEveryRun(windowSize: nat, ops: seq<Op>)
    ensures TimesKept(Run(windowSize, ops).state, Transmissions(windowSize, ops))
  {
    if ops != [] {
      var init := ops[..|ops| - 1];
      TimesInEveryRun(windowSize, init);
      SW.WindowInEveryRun(windowSize, init);
      StepTimed(Run(windowSize, init).state, ops[|ops| - 1], Transmissions(windowSize, init));
    }
  }
}
