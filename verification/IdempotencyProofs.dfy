/** At-most-once execution of requests within the lifetime of a cached answer. */
module IdempotencyProofs {
  import opened Wire
  import opened Idempotency

  datatype Event =
    | Handle(client: string, data: Bytes, start: real, finish: real)
    | Sweep(now: real)

  function Begin(e: Event): real {
    if e.Handle? then e.start else e.now
  }

  function End(e: Event): real {
    if e.Handle? then e.finish else e.now
  }

  function Step<W>(h: Handler<W>, s: Server<W>, e: Event): (Server<W>, Bytes) {
    match e
    case Handle(client, data, start, finish) => Process(h, s, client, data, start, finish)
    case Sweep(now) => (s.(cache := Cleanup(s.cache, now)), [])
  }

  /** `states` is what `events` lead through. */
  ghost predicate IsRun<W(!new)>(h: Handler<W>, states: seq<Server<W>>, events: seq<Event>) {
    |states| == |events| + 1 && forall i :: 0 <= i < |events| ==> states[i + 1] == Step(h, states[i], events[i]).0
  }

  /** The clock does not go back, neither between nor within events. */
  predicate Ordered(events: seq<Event>) {
    && (forall i :: 0 <= i < |events| ==> Begin(events[i]) <= End(events[i]))
    && (forall i, j :: 0 <= i < j < |events| ==> End(events[i]) <= Begin(events[j]))
  }

  /** The event is a well-formed request under `key`. */
  predicate Asks(e: Event, key: Key) {
    e.Handle? && Decode(e.data).Some? && KeyOf(e.client, Decode(e.data).value) == key
  }

  /** The event makes the handler run. */
  predicate Dispatches<W>(s: Server<W>, e: Event, key: Key) {
    Asks(e, key) && CachedAnswer(s.cache, key, e.start).None?
  }

  /** What the handler answers when the event makes it run. */
  function Answer<W>(h: Handler<W>, s: Server<W>, e: Event): Option<Bytes>
    requires e.Handle? && Decode(e.data).Some?
  {
    var r := Decode(e.data).value;
    h(s.world, r.header, r.payload).1
  }

  // ---- A stored answer protects its request ----------------------------------------------------------------

  predicate Protected<W>(s: Server<W>, key: Key, r: Bytes, since: real) {
    key in s.cache && s.cache[key] == Entry(r, since)
  }

  /** While the stored answer lives, nothing displaces it. */
  lemma StepProtected<W>(h: Handler<W>, s: Server<W>, e: Event, key: Key, r: Bytes, since: real)
    requires Protected(s, key, r, since) && r != [] && Begin(e) < since + TTL
    ensures Protected(Step(h, s, e).0, key, r, since)
    ensures Asks(e, key) ==> Step(h, s, e) == (s, r)
  {
  }

  /** Once stored, an answer is still there as long as it lives. */
  lemma {:induction false} StaysProtected<W(!new)>(h: Handler<W>, states: seq<Server<W>>, events: seq<Event>,
                                                   i: nat, j: nat, key: Key, r: Bytes, since: real)
    requires IsRun(h, states, events) && Ordered(events) && i <= j < |events|
    requires Protected(states[i], key, r, since) && r != [] && Begin(events[j]) < since + TTL
    ensures Protected(states[j], key, r, since)
    decreases j
  {
    if i < j {
      assert End(events[j - 1]) <= Begin(events[j]);
      StaysProtected(h, states, events, i, j - 1, key, r, since);
      StepProtected(h, states[j - 1], events[j - 1], key, r, since);
    }
  }

  /**
   After a request was executed and answered with something, every repeat within 120 seconds of the answer
   returns that same answer and changes nothing at all, whatever happened in between.
   */
  lemma StoredAnswerRepeats<W(!new)>(h: Handler<W>, states: seq<Server<W>>, events: seq<Event>, i: nat, j: nat,
                                     key: Key)
    requires IsRun(h, states, events) && Ordered(events) && i < j < |events|
    requires Dispatches(states[i], events[i], key) && Asks(events[j], key)
    requires Answer(h, states[i], events[i]).Some? && Answer(h, states[i], events[i]).value != []
    requires events[j].start < events[i].finish + TTL
    ensures Step(h, states[j], events[j]) == (states[j], Answer(h, states[i], events[i]).value)
    ensures !Dispatches(states[j], events[j], key)
  {
    var r := Answer(h, states[i], events[i]).value;
    assert Protected(states[i + 1], key, r, events[i].finish);
    StaysProtected(h, states, events, i + 1, j, key, r, events[i].finish);
    StepProtected(h, states[j], events[j], key, r, events[i].finish);
  }

  // ---- Without a stored answer, the next request runs ---------------------------------------------------------

  /** The cache has no answer under `key` that it would honour. */
  predicate Hollow<W>(s: Server<W>, key: Key) {
    key in s.cache ==> s.cache[key].response == []
  }

  lemma StepHollow<W>(h: Handler<W>, s: Server<W>, e: Event, key: Key)
    requires Hollow(s, key) && !Asks(e, key)
    ensures Hollow(Step(h, s, e).0, key)
  {
  }

  lemma {:induction false} StaysHollow<W(!new)>(h: Handler<W>, states: seq<Server<W>>, events: seq<Event>, i: nat,
                                                j: nat, key: Key)
    requires IsRun(h, states, events) && i <= j < |states| && Hollow(states[i], key)
    requires forall k :: i <= k < j ==> !Asks(events[k], key)
    ensures Hollow(states[j], key)
    decreases j
  {
    if i < j {
      StaysHollow(h, states, events, i, j - 1, key);
      StepHollow(h, states[j - 1], events[j - 1], key);
    }
  }

  /** The handler raised, or answered nothing. */
  predicate Unanswered(answer: Option<Bytes>) {
    answer.None? || answer.value == []
  }

  /**
   The condition on the answer is exact, in every run: the next request under the key, within 120 seconds and
   whatever other requests and sweeps came in between, runs again if and only if the first one raised or
   answered nothing.
   */
  lemma ProtectionIsExact<W(!new)>(h: Handler<W>, states: seq<Server<W>>, events: seq<Event>, i: nat, j: nat, key: Key)
    requires IsRun(h, states, events) && Ordered(events) && i < j < |events|
    requires Dispatches(states[i], events[i], key) && Asks(events[j], key)
    requires forall k :: i < k < j ==> !Asks(events[k], key)
    requires events[j].start < events[i].finish + TTL
    ensures Dispatches(states[j], events[j], key) <==> Unanswered(Answer(h, states[i], events[i]))
  {
    if Unanswered(Answer(h, states[i], events[i])) {
      assert Hollow(states[i + 1], key);
      StaysHollow(h, states, events, i + 1, j, key);
    } else {
      StoredAnswerRepeats(h, states, events, i, j, key);
    }
  }

  // ---- Sweeping changes no answer --------------------------------------------------------------------------

  /** `swept` lacks only entries of `full` that have expired by `now`. */
  ghost predicate Lags(swept: Cache, full: Cache, now: real) {
    && (forall k :: k in swept ==> k in full && swept[k] == full[k])
    && (forall k :: k in full && k !in swept ==> !Fresh(full[k], now))
  }

  /** A request finds the same answer in both caches. */
  lemma SameLookup(swept: Cache, full: Cache, key: Key, t: real, now: real)
    requires Lags(swept, full, t) && t <= now
    ensures CachedAnswer(swept, key, now) == CachedAnswer(full, key, now)
    ensures Lags(GetResponse(swept, key, now).0, GetResponse(full, key, now).0, now)
  {
  }

  lemma SweepLags(swept: Cache, full: Cache, t: real, now: real)
    requires Lags(swept, full, t) && t <= now
    ensures Lags(Cleanup(swept, now), full, now)
  {
  }

  lemma StoreLags(swept: Cache, full: Cache, t: real, now: real, key: Key, e: Entry)
    requires Lags(swept, full, t) && t <= now
    ensures Lags(swept[key := e], full[key := e], now)
  {
  }

  lemma HandleLags<W>(h: Handler<W>, swept: Server<W>, full: Server<W>, e: Event, t: real)
    requires Lags(swept.cache, full.cache, t) && swept.world == full.world && e.Handle? && t <= e.start <= e.finish
    ensures var (a, b) := (Step(h, swept, e), Step(h, full, e));
            a.1 == b.1 && a.0.world == b.0.world && Lags(a.0.cache, b.0.cache, e.finish)
  {
    if Decode(e.data).Some? {
      var r := Decode(e.data).value;
      var key := KeyOf(e.client, r);
      SameLookup(swept.cache, full.cache, key, t, e.start);
      var answer := Answer(h, swept, e);
      if answer.Some? {
        StoreLags(GetResponse(swept.cache, key, e.start).0, GetResponse(full.cache, key, e.start).0, e.start, e.finish,
                  key, Entry(answer.value, e.finish));
      }
    }
  }

  /** State and answers after `events`; sweeps answer nothing. */
  function Run<W>(h: Handler<W>, s: Server<W>, events: seq<Event>): (Server<W>, seq<Bytes>)
    decreases |events|
  {
    if events == [] then (s, [])
    else
      var (t, answer) := Step(h, s, events[0]);
      var (u, rest) := Run(h, t, events[1..]);
      (u, (if events[0].Handle? then [answer] else []) + rest)
  }

  function WithoutSweeps(events: seq<Event>): seq<Event> {
    if events == [] then []
    else (if events[0].Handle? then [events[0]] else []) + WithoutSweeps(events[1..])
  }

  predicate OrderedFrom(events: seq<Event>, t: real) {
    events == [] || (t <= Begin(events[0]) <= End(events[0]) && OrderedFrom(events[1..], End(events[0])))
  }

  /** Sweeping the cache at any times whatsoever changes neither an answer nor an effect. */
  lemma {:induction false} SweepsAreInvisible<W>(h: Handler<W>, swept: Server<W>, full: Server<W>, events: seq<Event>,
                                                 t: real)
    requires Lags(swept.cache, full.cache, t) && swept.world == full.world && OrderedFrom(events, t)
    ensures var (a, b) := (Run(h, swept, events), Run(h, full, WithoutSweeps(events)));
            a.1 == b.1 && a.0.world == b.0.world
    decreases |events|
  {
    if events != [] {
      var e := events[0];
      if e.Handle? {
        HandleLags(h, swept, full, e, t);
        SweepsAreInvisible(h, Step(h, swept, e).0, Step(h, full, e).0, events[1..], e.finish);
        assert WithoutSweeps(events) == [e] + WithoutSweeps(events[1..]);
        assert WithoutSweeps(events)[1..] == WithoutSweeps(events[1..]);
      } else {
        SweepLags(swept.cache, full.cache, t, e.now);
        SweepsAreInvisible(h, Step(h, swept, e).0, full, events[1..], e.now);
        assert WithoutSweeps(events) == WithoutSweeps(events[1..]);
        assert [] + Run(h, Step(h, swept, e).0, events[1..]).1 == Run(h, Step(h, swept, e).0, events[1..]).1;
      }
    }
  }
}
