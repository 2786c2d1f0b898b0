/**
 The request pipeline refines a simple server without a cache: it remembers every request it ever executed, by
 whom, under which number and opcode, and looks for the answer there.
 */
module RequestHistory {
  import opened Wire
  import opened Idempotency
  import opened IdempotencyProofs

  // ---- The simple server ---------------------------------------------------------------------------------------

  /** A request that was executed and answered. */
  datatype Done = Done(client: string, requestId: nat, opcode: nat, answer: Bytes, finish: real)

  datatype Reference<W> = Reference(world: W, done: seq<Done>)

  /** It is the same request, and its answer was not empty and is less than 120 seconds old. */
  predicate Answers(d: Done, client: string, requestId: nat, opcode: nat, now: real) {
    && d.client == client && d.requestId == requestId && d.opcode == opcode
    && d.answer != [] && now - d.finish < 120.0
  }

  /** The answer to the last such request. */
  function Find(done: seq<Done>, client: string, requestId: nat, opcode: nat, now: real): Option<Bytes> {
    if done == [] then None
    else if Answers(done[|done| - 1], client, requestId, opcode, now) then Some(done[|done| - 1].answer)
    else Find(done[..|done| - 1], client, requestId, opcode, now)
  }

  /** Nothing is found exactly if no request so far answers. */
  lemma {:induction false} FoundIff(done: seq<Done>, client: string, requestId: nat, opcode: nat, now: real)
    ensures Find(done, client, requestId, opcode, now).Some?
       <==> exists i :: 0 <= i < |done| && Answers(done[i], client, requestId, opcode, now)
  {
    if done != [] {
      var init := done[..|done| - 1];
      FoundIff(init, client, requestId, opcode, now);
      if i :| 0 <= i < |done| && Answers(done[i], client, requestId, opcode, now) {
        assert i < |init| ==> init[i] == done[i];
      }
      if i :| 0 <= i < |init| && Answers(init[i], client, requestId, opcode, now) {
        assert done[i] == init[i];
      }
    }
  }

  function ReferenceStep<W>(h: Handler<W>, r: Reference<W>, e: Event): (Reference<W>, Bytes) {
    if e.Sweep? || Decode(e.data).None? then (r, [])
    else
      var request := Decode(e.data).value;
      var id, opcode := request.header.requestId, request.header.opcode;
      match Find(r.done, e.client, id, opcode, e.start)
      case Some(answer) => (r, answer)
      case None =>
        var (world, answer) := h(r.world, request.header, request.payload);
        match answer
        case None => (r.(world := world), [])
        case Some(a) => (Reference(world, r.done + [Done(e.client, id, opcode, a, e.finish)]), a)
  }

  function ReferenceRun<W>(h: Handler<W>, r: Reference<W>, events: seq<Event>): (Reference<W>, seq<Bytes>)
    decreases |events|
  {
    if events == [] then (r, [])
    else
      var (t, answer) := ReferenceStep(h, r, events[0]);
      var (u, rest) := ReferenceRun(h, t, events[1..]);
      (u, (if events[0].Handle? then [answer] else []) + rest)
  }

  // ---- Refinement --------------------------------------------------------------------------------------------------

  /** From `now` on, cache and memory give the same answers. */
  ghost predicate Agrees(cache: Cache, done: seq<Done>, now: real) {
    forall key: Key, t: real :: now <= t ==>
      CachedAnswer(cache, key, t) == Find(done, key.client, key.requestId, key.opcode, t)
  }

  /** What is not found is not found later either. */
  lemma {:induction false} NotFoundLater(done: seq<Done>, client: string, requestId: nat, opcode: nat, now: real,
                                         t: real)
    requires Find(done, client, requestId, opcode, now).None? && now <= t
    ensures Find(done, client, requestId, opcode, t).None?
  {
    if done != [] {
      NotFoundLater(done[..|done| - 1], client, requestId, opcode, now, t);
    }
  }

  lemma LookupAgrees(cache: Cache, done: seq<Done>, key: Key, before: real, now: real)
    requires Agrees(cache, done, before) && before <= now
    ensures Agrees(GetResponse(cache, key, now).0, done, now)
  {
    forall k: Key, t: real | now <= t
      ensures CachedAnswer(GetResponse(cache, key, now).0, k, t) == Find(done, k.client, k.requestId, k.opcode, t)
    {
      assert CachedAnswer(cache, k, t) == Find(done, k.client, k.requestId, k.opcode, t);
    }
  }

  lemma SweepAgrees(cache: Cache, done: seq<Done>, before: real, now: real)
    requires Agrees(cache, done, before) && before <= now
    ensures Agrees(Cleanup(cache, now), done, now)
  {
    forall k: Key, t: real | now <= t
      ensures CachedAnswer(Cleanup(cache, now), k, t) == Find(done, k.client, k.requestId, k.opcode, t)
    {
      assert CachedAnswer(cache, k, t) == Find(done, k.client, k.requestId, k.opcode, t);
    }
  }

  lemma StoreAgrees(cache: Cache, done: seq<Done>, d: Done, start: real)
    requires Agrees(cache, done, start) && start <= d.finish
    requires Find(done, d.client, d.requestId, d.opcode, start).None?
    ensures Agrees(cache[Key(d.client, d.requestId, d.opcode) := Entry(d.answer, d.finish)], done + [d], d.finish)
  {
    var key := Key(d.client, d.requestId, d.opcode);
    var stored := cache[key := Entry(d.answer, d.finish)];
    assert (done + [d])[..|done|] == done;
    forall k: Key, t: real | d.finish <= t
      ensures CachedAnswer(stored, k, t) == Find(done + [d], k.client, k.requestId, k.opcode, t)
    {
      if k == key {
        NotFoundLater(done, d.client, d.requestId, d.opcode, start, t);
      } else {
        assert CachedAnswer(cache, k, t) == Find(done, k.client, k.requestId, k.opcode, t);
      }
    }
  }

  /** The pipeline and the simple server are in step. */
  ghost predicate InStep<W>(s: Server<W>, r: Reference<W>, now: real) {
    s.world == r.world && Agrees(s.cache, r.done, now)
  }

  lemma HandleInStep<W>(h: Handler<W>, s: Server<W>, r: Reference<W>, e: Event, now: real)
    requires InStep(s, r, now) && e.Handle? && now <= e.start <= e.finish
    ensures var (t, u) := (Step(h, s, e), ReferenceStep(h, r, e));
            t.1 == u.1 && InStep(t.0, u.0, e.finish)
  {
    if Decode(e.data).Some? {
      var request := Decode(e.data).value;
      var id, opcode := request.header.requestId, request.header.opcode;
      var key := Key(e.client, id, opcode);
      assert CachedAnswer(s.cache, key, e.start) == Find(r.done, e.client, id, opcode, e.start);
      LookupAgrees(s.cache, r.done, key, now, e.start);
      var answer := h(s.world, request.header, request.payload).1;
      if Find(r.done, e.client, id, opcode, e.start).None? && answer.Some? {
        StoreAgrees(GetResponse(s.cache, key, e.start).0, r.done, Done(e.client, id, opcode, answer.value, e.finish),
          e.start);
      }
    }
  }

  /** When the last event ended. */
  function EndOf(events: seq<Event>, now: real): real {
    if events == [] then now else EndOf(events[1..], End(events[0]))
  }

  lemma {:induction false} RunInStep<W>(h: Handler<W>, s: Server<W>, r: Reference<W>, events: seq<Event>, now: real)
    requires InStep(s, r, now) && OrderedFrom(events, now)
    ensures var (t, u) := (Run(h, s, events), ReferenceRun(h, r, events));
            t.1 == u.1 && InStep(t.0, u.0, EndOf(events, now))
    decreases |events|
  {
    if events != [] {
      var e := events[0];
      if e.Handle? {
        HandleInStep(h, s, r, e, now);
      } else {
        SweepAgrees(s.cache, r.done, now, e.now);
      }
      RunInStep(h, Step(h, s, e).0, ReferenceStep(h, r, e).0, events[1..], End(e));
    }
  }

  /**
   In every run from an empty cache, whatever the handler, the clients and the sweeps: every answer and every effect
   of the pipeline are those of the server that remembers everything. So a request runs the handler if and only if
   no request of the same client, number and opcode was executed, answered with something and finished less than 120
   seconds before, and otherwise gets that answer.
   */
  lemma PipelineRefinesMemory<W>(h: Handler<W>, world: W, events: seq<Event>, now: real)
    requires OrderedFrom(events, now)
    ensures var (t, u) := (Run(h, Server(map[], world), events), ReferenceRun(h, Reference(world, []), events));
            t.1 == u.1 && t.0.world == u.0.world
  {
    RunInStep(h, Server(map[], world), Reference(world, []), events, now);
  }

  // ---- Clients are kept apart -------------------------------------------------------------------------------

  /** The event is a request of that client under that number and opcode. */
  predicate Uses(e: Event, client: string, requestId: nat, opcode: nat) {
    && e.Handle? && Decode(e.data).Some? && e.client == client
    && Decode(e.data).value.header.requestId == requestId && Decode(e.data).value.header.opcode == opcode
  }

  lemma StepFindsSame<W>(h: Handler<W>, r: Reference<W>, e: Event, client: string, requestId: nat, opcode: nat, t: real)
    requires !Uses(e, client, requestId, opcode)
    ensures Find(ReferenceStep(h, r, e).0.done, client, requestId, opcode, t)
        == Find(r.done, client, requestId, opcode, t)
  {
    var after := ReferenceStep(h, r, e).0.done;
    if after != r.done {
      assert after[..|r.done|] == r.done;
    }
  }

  lemma {:induction false} NeverUsed<W>(h: Handler<W>, r: Reference<W>, events: seq<Event>,
                                        client: string, requestId: nat, opcode: nat, t: real)
    requires forall i :: 0 <= i < |events| ==> !Uses(events[i], client, requestId, opcode)
    ensures Find(ReferenceRun(h, r, events).0.done, client, requestId, opcode, t)
        == Find(r.done, client, requestId, opcode, t)
    decreases |events|
  {
    if events != [] {
      StepFindsSame(h, r, events[0], client, requestId, opcode, t);
      NeverUsed(h, ReferenceStep(h, r, events[0]).0, events[1..], client, requestId, opcode, t);
    }
  }

  /**
   Clients are kept apart: in every run a request whose client has not used its number and opcode before runs the
   handler, whatever other clients did under the same number.
   */
  lemma ClientsAreKeptApart<W>(h: Handler<W>, world: W, events: seq<Event>, e: Event, now: real)
    requires OrderedFrom(events, now) && e.Handle? && EndOf(events, now) <= e.start <= e.finish && Decode(e.data).Some?
    requires var header := Decode(e.data).value.header;
             forall i :: 0 <= i < |events| ==> !Uses(events[i], e.client, header.requestId, header.opcode)
    ensures var s, r := Run(h, Server(map[], world), events).0, Decode(e.data).value;
            Step(h, s, e).0.world == h(s.world, r.header, r.payload).0
  {
    var reference := ReferenceRun(h, Reference(world, []), events).0;
    var s, r := Run(h, Server(map[], world), events).0, Decode(e.data).value;
    var key := Key(e.client, r.header.requestId, r.header.opcode);
    RunInStep(h, Server(map[], world), Reference(world, []), events, now);
    NeverUsed(h, Reference(world, []), events, key.client, key.requestId, key.opcode, e.start);
    assert CachedAnswer(s.cache, key, e.start) == Find(reference.done, key.client, key.requestId, key.opcode, e.start);
  }
}
