/** At-most-once execution by the request pipeline together with its dispatcher. */
module DispatchProofs {
  import opened Wire
  import opened Idempotency
  import opened IdempotencyProofs
  import opened Dispatch
  import WireProofs

  // ---- Answers ----------------------------------------------------------------------------------------------

  /** A message that was encoded decodes to the same opcode, request number and payload. */
  lemma EncodedDecodes(h: Header, payload: Bytes)
    requires EncodeMessage(h, payload).Some?
    ensures Decode(EncodeMessage(h, payload).value) == Some(Envelope(h, payload))
  {
    var m := EncodeMessage(h, payload).value;
    assert m[4..8] == U32(h.requestId) && m[8..12] == U32(|payload|) && m[12..] == payload;
    assert Pow256(4) == 0x1_0000_0000;
    WireProofs.DecodeEncode(h.requestId, 4);
    WireProofs.DecodeEncode(|payload|, 4);
  }

  /** Every answer of the dispatcher is a well-formed envelope under the request's own opcode and number. */
  lemma AnswersAreEnvelopes<W>(routine: Routine<W>, w: W, h: Header, payload: Bytes)
    ensures match Dispatched(routine, w, h, payload).1
            case None => true
            case Some(answer) => Decode(answer).Some? && Decode(answer).value.header == h && |answer| >= HEADER_SIZE
  {
    var answer := Dispatched(routine, w, h, payload).1;
    if answer.Some? {
      var body :| answer == EncodeMessage(h, body);
      EncodedDecodes(h, body);
    }
  }

  lemma {:induction false} DecimalLength(n: nat, k: nat, limit: nat)
    requires k > 0 && limit == Pow10(k) && n < limit
    ensures |Decimal(n)| <= k
  {
    if n >= 10 {
      DecimalLength(n / 10, k - 1, limit / 10);
    }
  }

  function Pow10(k: nat): nat {
    if k == 0 then 1 else 10 * Pow10(k - 1)
  }

  lemma ThreeDigits(n: nat)
    requires n < 1000
    ensures |Decimal(n)| <= 3
  {
    DecimalLength(n, 3, 1000);
  }

  lemma TwentyDigits(n: nat)
    requires n < 0x5_0000_0000_0000_0000
    ensures |Decimal(n)| <= 20
  {
    assert Pow10(10) == 10_000_000_000;
    assert Pow10(15) == 100_000 * Pow10(10);
    assert Pow10(20) == 100_000_000_000_000_000_000;
    DecimalLength(n, 20, 100_000_000_000_000_000_000);
  }

  lemma ErrorLength(status: nat, message: string)
    requires status < 1000
    ensures 36 + |message| <= |ErrorPayload(status, message)| <= 42 + 12 * |message|
  {
    ThreeDigits(status);
  }

  lemma ShortErrorsFit(h: Header, status: nat, message: string)
    requires status < 1000 && |message| <= 80
    ensures ErrorResponse(h, status, message).Some?
  {
    ErrorLength(status, message);
  }

  /** An answer that is too long is itself answered, as its error text is short. */
  lemma TooLongFits(h: Header, length: nat)
    requires length < 0x5_0000_0000_0000_0000
    ensures ErrorResponse(h, StatusOf(TooLong(length)), TooLong(length)).Some?
  {
    TwentyDigits(length);
    TwentyDigits(MAX_PAYLOAD_LEN);
    ShortErrorsFit(h, StatusOf(TooLong(length)), TooLong(length));
  }

  lemma UnknownOpcodeFits(h: Header)
    ensures ErrorResponse(h, BAD_REQUEST, "Unknown Opcode: " + Text(h.opcode)).Some?
  {
    ThreeDigits(h.opcode);
    ShortErrorsFit(h, BAD_REQUEST, "Unknown Opcode: " + Text(h.opcode));
  }

  lemma SuccessLength(json: Option<Buffer>, binary: Option<Buffer>)
    ensures |SuccessPayload(json, binary)| < 0x5_0000_0000_0000_0000
  {
    ThreeDigits(OK_STATUS);
    ThreeDigits(INTERNAL_SERVER_ERROR);
  }

  /** The handler raised an error whose text does not fit an envelope. */
  predicate Oversized(o: Outcome) {
    match o
    case FileNotFound(message) => |ErrorPayload(NOT_FOUND, message)| > MAX_PAYLOAD_LEN
    case Invalid(message) => |ErrorPayload(StatusOf(message), message)| > MAX_PAYLOAD_LEN
    case _ => false
  }

  lemma DataAnswered(h: Header, json: Option<Buffer>, binary: Option<Buffer>)
    ensures Respond(h, Data(json, binary)).Some?
  {
    SuccessLength(json, binary);
    TooLongFits(h, |SuccessPayload(json, binary)|);
  }

  lemma FailureAnswered(h: Header)
    ensures Respond(h, Failed).Some?
  {
    ShortErrorsFit(h, INTERNAL_SERVER_ERROR, "Internal Server Error");
  }

  lemma RespondRaisesIff(h: Header, o: Outcome)
    ensures Respond(h, o).None? <==> Oversized(o)
  {
    if o.Data? {
      DataAnswered(h, o.json, o.binary);
    } else if o.Failed? {
      FailureAnswered(h);
    }
  }

  /** An exception escapes the dispatcher exactly when the text of an error does not fit an envelope. */
  lemma RaisesIff<W>(routine: Routine<W>, w: W, h: Header, payload: Bytes)
    ensures Dispatched(routine, w, h, payload).1.None? <==> Handled(h.opcode) && Oversized(routine(w, h, payload).1)
  {
    if Handled(h.opcode) {
      RespondRaisesIff(h, routine(w, h, payload).1);
    } else {
      UnknownOpcodeFits(h);
    }
  }

  // ---- At most once ------------------------------------------------------------------------------------------

  /** The event's own request, handled in state `s`, lets an exception escape the dispatcher. */
  predicate Escapes<W>(routine: Routine<W>, s: Server<W>, e: Event)
    requires e.Handle? && Decode(e.data).Some?
  {
    var r := Decode(e.data).value;
    Handled(r.header.opcode) && Oversized(routine(s.world, r.header, r.payload).1)
  }

  lemma AnsweredUnlessEscapes<W>(routine: Routine<W>, s: Server<W>, e: Event)
    requires e.Handle? && Decode(e.data).Some?
    ensures Unanswered(Answer(Dispatcher(routine), s, e)) <==> Escapes(routine, s, e)
    ensures Answer(Dispatcher(routine), s, e).None? <==> Escapes(routine, s, e)
  {
    var r := Decode(e.data).value;
    RaisesIff(routine, s.world, r.header, r.payload);
    AnswersAreEnvelopes(routine, s.world, r.header, r.payload);
  }

  /**
   At most once: after a request was executed and no exception escaped, every repeat within 120 seconds of
   the answer returns the same envelope and changes nothing at all, whatever happened in between.
   */
  lemma RepeatsAreAnsweredFromCache<W(!new)>(routine: Routine<W>, states: seq<Server<W>>, events: seq<Event>,
                                             i: nat, j: nat, key: Key) returns (answer: Bytes)
    requires IsRun(Dispatcher(routine), states, events) && Ordered(events) && i < j < |events|
    requires Dispatches(states[i], events[i], key) && Asks(events[j], key)
    requires !Escapes(routine, states[i], events[i]) && events[j].start < events[i].finish + TTL
    ensures answer != [] && Step(Dispatcher(routine), states[i], events[i]).1 == answer
    ensures Step(Dispatcher(routine), states[j], events[j]) == (states[j], answer)
    ensures !Dispatches(states[j], events[j], key)
  {
    AnsweredUnlessEscapes(routine, states[i], events[i]);
    answer := Answer(Dispatcher(routine), states[i], events[i]).value;
    StoredAnswerRepeats(Dispatcher(routine), states, events, i, j, key);
  }

  /** Two executions of one request are at least 120 seconds apart, if no exception escaped the first. */
  lemma ExecutionsAreApart<W(!new)>(routine: Routine<W>, states: seq<Server<W>>, events: seq<Event>, i: nat, j: nat,
                                    key: Key)
    requires IsRun(Dispatcher(routine), states, events) && Ordered(events) && i < j < |events|
    requires Dispatches(states[i], events[i], key) && Dispatches(states[j], events[j], key)
    requires !Escapes(routine, states[i], events[i])
    ensures events[j].start - events[i].start >= TTL
  {
    if events[j].start < events[i].finish + TTL {
      var answer := RepeatsAreAnsweredFromCache(routine, states, events, i, j, key);
    }
  }

  /** In every run, the next request under the key within 120 seconds runs again exactly if an exception escaped. */
  lemma RunsAgainIff<W(!new)>(routine: Routine<W>, states: seq<Server<W>>, events: seq<Event>, i: nat, j: nat, key: Key)
    requires IsRun(Dispatcher(routine), states, events) && Ordered(events) && i < j < |events|
    requires Dispatches(states[i], events[i], key) && Asks(events[j], key)
    requires forall k :: i < k < j ==> !Asks(events[k], key)
    requires events[j].start < events[i].finish + TTL
    ensures Dispatches(states[j], events[j], key) <==> Escapes(routine, states[i], events[i])
  {
    AnsweredUnlessEscapes(routine, states[i], events[i]);
    ProtectionIsExact(Dispatcher(routine), states, events, i, j, key);
  }

  // ---- APPEND takes effect at most once, whatever happens -------------------------------------------------------

  /** An APPEND that changed a file was executed, and no exception escaped. */
  lemma EffectMeansAnswered(parse: Bytes -> AppendRequest, others: Routine<Files>, s: Server<Files>, e: Event, key: Key)
    requires Asks(e, key) && key.opcode == OP_APPEND
    requires Step(Dispatcher(WithAppend(parse, others)), s, e).0.world != s.world
    ensures Dispatches(s, e, key) && !Escapes(WithAppend(parse, others), s, e)
  {
    var r := Decode(e.data).value;
    AppendRouted(parse, others, s.world, r.header, r.payload);
  }

  /** APPEND changes a file only when it returns data. */
  lemma AppendRouted(parse: Bytes -> AppendRequest, others: Routine<Files>, files: Files, h: Header, payload: Bytes)
    requires h.opcode == OP_APPEND
    ensures WithAppend(parse, others)(files, h, payload) == HandleAppend(files, parse(payload))
    ensures HandleAppend(files, parse(payload)).0 != files ==> HandleAppend(files, parse(payload)).1.Data?
  {
  }

  /**
   A duplicated APPEND takes effect once: two events that change the files under one client, request number
   and the APPEND opcode are at least 120 seconds apart, with no condition on what the request contains or on
   what else the server is asked to do.
   */
  lemma AppendsOnce(parse: Bytes -> AppendRequest, others: Routine<Files>, states: seq<Server<Files>>,
                    events: seq<Event>, i: nat, j: nat, key: Key)
    requires IsRun(Dispatcher(WithAppend(parse, others)), states, events) && Ordered(events) && i < j < |events|
    requires key.opcode == OP_APPEND && Asks(events[i], key) && Asks(events[j], key)
    requires states[i + 1].world != states[i].world && states[j + 1].world != states[j].world
    ensures events[j].start - events[i].start >= TTL
  {
    EffectMeansAnswered(parse, others, states[i], events[i], key);
    EffectMeansAnswered(parse, others, states[j], events[j], key);
    ExecutionsAreApart(WithAppend(parse, others), states, events, i, j, key);
  }

  /** The text of the error about a request to append to files `files` does not fit an envelope. */
  predicate AppendOversized(files: Files, r: AppendRequest) {
    match r
    case Malformed(message) => |ErrorPayload(StatusOf(message), message)| > MAX_PAYLOAD_LEN
    case NoObject => false
    case Append(filename, path, _) =>
      path !in files && |ErrorPayload(NOT_FOUND, "File not found: " + filename)| > MAX_PAYLOAD_LEN
  }

  lemma SizeErrorFits(size: nat)
    requires size < 0x5_0000_0000_0000_0000
    ensures var message := "Append would exceed max file size: " + Text(size) + " > " + Text(MAX_FILE_SIZE);
            !Oversized(Invalid(message))
  {
    var message := "Append would exceed max file size: " + Text(size) + " > " + Text(MAX_FILE_SIZE);
    TwentyDigits(size);
    TwentyDigits(MAX_FILE_SIZE);
    ErrorLength(StatusOf(message), message);
  }

  /**
   For APPEND the condition can be read off the request and the files: an exception escapes exactly when the
   payload is malformed with an oversized error text, or the file is missing and its name oversized.
   */
  lemma AppendEscapesIff(parse: Bytes -> AppendRequest, others: Routine<Files>, s: Server<Files>, e: Event, key: Key)
    requires Asks(e, key) && key.opcode == OP_APPEND
    ensures Escapes(WithAppend(parse, others), s, e) <==> AppendOversized(s.world, parse(Decode(e.data).value.payload))
  {
    var d := Decode(e.data).value;
    var r := parse(d.payload);
    AppendRouted(parse, others, s.world, d.header, d.payload);
    if r.Append? && r.path in s.world {
      SizeErrorFits(|s.world[r.path]| + |r.data|);
    }
  }

  lemma AppendSteps(parse: Bytes -> AppendRequest, others: Routine<Files>, s: Server<Files>, client: string,
                    data: Bytes, now: real)
    requires Decode(data).Some? && Decode(data).value.header.opcode == OP_APPEND
    requires Dispatches(s, Handle(client, data, now, now), KeyOf(client, Decode(data).value))
    requires var r := parse(Decode(data).value.payload);
             r.Append? && r.path in s.world && |s.world[r.path]| + |r.data| <= MAX_FILE_SIZE
    ensures var r := parse(Decode(data).value.payload);
            var t := Step(Dispatcher(WithAppend(parse, others)), s, Handle(client, data, now, now)).0;
            && t.world == s.world[r.path := s.world[r.path] + r.data]
            && var key := KeyOf(client, Decode(data).value);
               t.cache.Keys == s.cache.Keys + {key} && t.cache[key].timestamp == now
  {
    var e := Handle(client, data, now, now);
    var r := Decode(data).value;
    AppendRouted(parse, others, s.world, r.header, r.payload);
    AnsweredUnlessEscapes(WithAppend(parse, others), s, e);
  }

  /** The 120 seconds are exact: the same APPEND, repeated when its answer has expired, takes effect again. */
  lemma AppendsAgainAfterLifetime(parse: Bytes -> AppendRequest, others: Routine<Files>, files: Files,
                                  client: string, data: Bytes, t: real) returns (states: seq<Server<Files>>)
    requires Decode(data).Some? && Decode(data).value.header.opcode == OP_APPEND
    requires var r := parse(Decode(data).value.payload);
             r.Append? && r.path in files && |files[r.path]| + 2 * |r.data| <= MAX_FILE_SIZE
    ensures var r := parse(Decode(data).value.payload);
            var events := [Handle(client, data, t, t), Handle(client, data, t + TTL, t + TTL)];
            && IsRun(Dispatcher(WithAppend(parse, others)), states, events)
            && states[0] == Server(map[], files)
            && states[2].world == files[r.path := files[r.path] + r.data + r.data]
  {
    var first, second := Handle(client, data, t, t), Handle(client, data, t + TTL, t + TTL);
    var h := Dispatcher(WithAppend(parse, others));
    var s := Server(map[], files);
    var u := Step(h, s, first).0;
    AppendSteps(parse, others, s, client, data, t);
    AppendSteps(parse, others, u, client, data, t + TTL);
    states := [s, u, Step(h, u, second).0];
  }

  // ---- An exception that escapes ---------------------------------------------------------------------------------

  lemma {:induction false} PlainLength(s: string, n: nat)
    requires n <= |s| && forall i :: 0 <= i < |s| ==> s[i] == 'a'
    ensures |JsonChars(s, n)| == n
  {
    if n > 0 {
      PlainLength(s, n - 1);
    }
  }

  function LongName(): (name: string)
    ensures |name| == MAX_PAYLOAD_LEN - 20 && forall i :: 0 <= i < |name| ==> name[i] == 'a'
  {
    seq(MAX_PAYLOAD_LEN - 20, _ => 'a')
  }

  /** Mixed-mode payload: a length, then the JSON object that names the file, then no data. */
  function NamePayload(name: string): Bytes {
    var meta := Ascii("{\"filename\": ") + JsonString(name) + Ascii("}");
    U32(|meta|) + meta
  }

  /** The request just fits an envelope, and the text of the error about it does not. */
  lemma LongNameFits(h: Header, name: string)
    requires |name| == MAX_PAYLOAD_LEN - 20 && forall i :: 0 <= i < |name| ==> name[i] == 'a'
    ensures EncodeMessage(h, NamePayload(name)).Some? && Oversized(FileNotFound("File not found: " + name))
  {
    PlainLength(name, |name|);
    ErrorLength(NOT_FOUND, "File not found: " + name);
  }

  /** A request that escapes without an effect leaves the server as if it had never been there. */
  lemma EscapeLeavesNothing<W>(routine: Routine<W>, s: Server<W>, e: Event)
    requires e.Handle? && Decode(e.data).Some? && KeyOf(e.client, Decode(e.data).value) !in s.cache
    requires Escapes(routine, s, e)
    requires var r := Decode(e.data).value; routine(s.world, r.header, r.payload).0 == s.world
    ensures Step(Dispatcher(routine), s, e) == (s, [])
  {
    AnsweredUnlessEscapes(routine, s, e);
  }

  /**
   APPEND to a missing file whose name nearly fills the payload: the error envelope would be too long, so
   building it raises, the client gets no answer, nothing is cached, and the same request runs again a second
   later. It changes no file.
   */
  lemma LongNameRunsTwice(parse: Bytes -> AppendRequest, others: Routine<Files>, files: Files, path: string)
    requires parse(NamePayload(LongName())) == Append(LongName(), path, []) && path !in files
    ensures var request := EncodeMessage(Header(OP_APPEND, 7), NamePayload(LongName()));
            request.Some? && RunsTwice(WithAppend(parse, others), files, request.value, Key("peer", 7, OP_APPEND))
  {
    NameRunsTwice(parse, others, files, path, LongName());
  }

  /**
   Handled on an empty cache at time 0 and again at time 1, the request runs both times, without an answer or
   effect.
   */
  predicate RunsTwice<W(==)>(routine: Routine<W>, w: W, data: Bytes, key: Key) {
    RunsAt(routine, w, data, key, 0.0) && RunsAt(routine, w, data, key, 1.0)
  }

  predicate RunsAt<W(==)>(routine: Routine<W>, w: W, data: Bytes, key: Key, now: real) {
    var s, e := Server(map[], w), Handle("peer", data, now, now);
    Dispatches(s, e, key) && Step(Dispatcher(routine), s, e) == (s, [])
  }

  lemma NameRunsTwice(parse: Bytes -> AppendRequest, others: Routine<Files>, files: Files, path: string, name: string)
    requires |name| == MAX_PAYLOAD_LEN - 20 && forall i :: 0 <= i < |name| ==> name[i] == 'a'
    requires parse(NamePayload(name)) == Append(name, path, []) && path !in files
    ensures var request := EncodeMessage(Header(OP_APPEND, 7), NamePayload(name));
            request.Some? && RunsTwice(WithAppend(parse, others), files, request.value, Key("peer", 7, OP_APPEND))
  {
    var h, payload := Header(OP_APPEND, 7), NamePayload(name);
    LongNameFits(h, name);
    var data := EncodeMessage(h, payload).value;
    EncodedDecodes(h, payload);
    AppendRouted(parse, others, files, h, payload);
    var s, key := Server(map[], files), Key("peer", 7, OP_APPEND);
    forall now: real
      ensures RunsAt(WithAppend(parse, others), files, data, key, now)
    {
      EscapeLeavesNothing(WithAppend(parse, others), s, Handle("peer", data, now, now));
    }
  }
}
