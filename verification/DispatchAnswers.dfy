/** What the dispatcher's answers contain, byte by byte. */
module DispatchAnswers {
  import opened Wire
  import opened Idempotency
  import opened Dispatch
  import opened DispatchProofs
  import opened WireProofs

  // ---- Envelopes ----------------------------------------------------------------------------------------------

  /**
   A request is accepted exactly if it starts with version 1, and the length in bytes 8 to 11 is that of the rest
   and at most a mebibyte; the opcode is byte 1, the number bytes 4 to 7.
   */
  lemma EnvelopeLayout(data: Bytes)
    ensures Decode(data).Some?
       <==> |data| >= 12 && data[0] == 1 && WordAt(data, 8) == |data| - 12 && |data| - 12 <= 1048576
    ensures Decode(data).Some? ==>
              var e := Decode(data).value;
              e.header.opcode == data[1] && e.header.requestId == WordAt(data, 4) && e.payload == data[12..]
  {
    if |data| >= 12 {
      WordAtIs(data, 4);
      WordAtIs(data, 8);
    }
  }

  // ---- Payloads -------------------------------------------------------------------------------------------------

  /** The payload that an answer carries. */
  function PayloadOf(answer: Option<Bytes>): Option<Bytes> {
    if answer.None? || Decode(answer.value).None? then None else Some(Decode(answer.value).value.payload)
  }

  /** The client's view of a mixed payload: a length, that many bytes of JSON, and the binary content. */
  function SplitMixed(payload: Bytes): Option<(Bytes, Bytes)> {
    if |payload| < 4 then None
    else
      var n := WordAt(payload, 0);
      if |payload| < 4 + n then None else Some((payload[4..4 + n], payload[4 + n..]))
  }

  lemma MixedSplits(meta: Bytes, content: Bytes)
    requires |meta| < 0x1_0000_0000
    ensures SplitMixed(U32(|meta|) + meta + content) == Some((meta, content))
  {
    var payload := U32(|meta|) + meta + content;
    WordAtIs(payload, 0);
    assert payload[0..4] == U32(|meta|);
    assert Pow256(4) == 0x1_0000_0000;
    DecodeEncode(|meta|, 4);
  }

  lemma EncodedPayload(h: Header, payload: Bytes)
    requires |payload| <= 1048576
    ensures PayloadOf(EncodeMessage(h, payload)) == Some(payload)
  {
    EncodedDecodes(h, payload);
  }

  /** The JSON of a success answer, around the JSON of the data. */
  function SuccessJson(data: Bytes): (b: Bytes)
    ensures |b| == 40 + |data|
  {
    Ascii("{\"status\": 200, \"error\": null, \"data\": ") + data + Ascii("}")
  }

  lemma Digits200()
    ensures Decimal(200) == Ascii("200")
  {
    assert Decimal(2) == [50] && Decimal(20) == [50, 48];
  }

  lemma SuccessIs(data: Bytes)
    ensures Json(OK_STATUS, NULL, data) == SuccessJson(data)
  {
    Digits200();
    SuccessHead();
    var head := Ascii("{\"status\": ") + Decimal(200) + Ascii(", \"error\": ") + NULL + Ascii(", \"data\": ");
    assert Json(OK_STATUS, NULL, data) == head + data + Ascii("}");
  }

  lemma SuccessHead()
    requires Decimal(200) == Ascii("200")
    ensures Ascii("{\"status\": ") + Decimal(200) + Ascii(", \"error\": ") + NULL + Ascii(", \"data\": ")
         == Ascii("{\"status\": 200, \"error\": null, \"data\": ")
  {
  }

  /** A handler that returns data is answered with status 200 and that data, if the answer fits. */
  lemma DataAnswer(h: Header, data: Buffer)
    requires |data| + 40 <= 1048576
    ensures PayloadOf(Respond(h, Data(Some(data), None))) == Some(SuccessJson(data))
  {
    SuccessIs(data);
    EncodedPayload(h, SuccessJson(data));
  }

  /** With binary content, the client's decoder gets back the JSON and the content. */
  lemma BinaryAnswer(h: Header, data: Buffer, content: Buffer)
    requires 44 + |data| + |content| <= 1048576
    ensures var payload := PayloadOf(Respond(h, Data(Some(data), Some(content))));
            payload.Some? && SplitMixed(payload.value) == Some((SuccessJson(data), content))
  {
    SuccessIs(data);
    var meta := SuccessJson(data);
    MixedSplits(meta, content);
    EncodedPayload(h, U32(|meta|) + meta + content);
  }

  /** The JSON of an error answer. */
  function ErrorJson(status: Bytes, message: string): Bytes {
    Ascii("{\"status\": ") + status + Ascii(", \"error\": ") + JsonString(message) + Ascii(", \"data\": null}")
  }

  lemma ErrorIs(status: nat, digits: Bytes, message: string)
    requires Decimal(status) == digits
    ensures ErrorPayload(status, message) == ErrorJson(digits, message)
  {
    var head := Ascii("{\"status\": ") + digits + Ascii(", \"error\": ") + JsonString(message);
    NullTail();
    assert ErrorPayload(status, message) == head + (Ascii(", \"data\": ") + NULL + Ascii("}"));
  }

  lemma NullTail()
    ensures Ascii(", \"data\": ") + NULL + Ascii("}") == Ascii(", \"data\": null}")
  {
  }

  /** A missing file is answered with status 404 and the text of the error, unless that does not fit. */
  lemma NotFoundAnswer(h: Header, message: string)
    requires |ErrorPayload(404, message)| <= 1048576
    ensures PayloadOf(Respond(h, FileNotFound(message))) == Some(ErrorJson([52, 48, 52], message))
  {
    ThreeDigitsAre(404, 4, 0, 4);
    ErrorIs(404, [52, 48, 52], message);
    EncodedPayload(h, ErrorPayload(404, message));
  }

  lemma ThreeDigitsAre(n: nat, a: nat, b: nat, c: nat)
    requires 0 < a < 10 && b < 10 && c < 10 && n == 100 * a + 10 * b + c
    ensures Decimal(n) == [48 + a, 48 + b, 48 + c]
  {
    assert n / 10 == 10 * a + b && n % 10 == c && n / 10 / 10 == a && n / 10 % 10 == b;
    assert Decimal(a) == [48 + a];
    assert Decimal(n / 10) == [48 + a, 48 + b];
  }

  /** Any other failure is answered with status 500. */
  lemma FailureAnswer(h: Header)
    ensures PayloadOf(Respond(h, Failed)) == Some(ErrorPayload(500, "Internal Server Error"))
  {
    FailureAnswered(h);
    EncodedPayload(h, ErrorPayload(500, "Internal Server Error"));
  }

  // ---- The status of a ValueError ---------------------------------------------------------------------------

  /** The text has `word` in it somewhere, in upper or lower case. */
  ghost predicate Mentions(text: string, word: string) {
    exists before, middle, after :: text == before + middle + after && Lower(middle) == word
  }

  lemma MentionsIff(text: string, word: string)
    ensures Mentions(text, word) <==> Contains(Lower(text), word)
  {
    if before, middle, after :| text == before + middle + after && Lower(middle) == word {
      assert Lower(text)[|before|..|before| + |word|] == word;
      assert OccursAt(Lower(text), word, |before|);
    }
    if i :| 0 <= i <= |Lower(text)| && OccursAt(Lower(text), word, i) {
      var before, middle, after := text[..i], text[i..i + |word|], text[i + |word|..];
      assert text == before + middle + after;
      assert Lower(middle) == word;
    }
  }

  /** The status of a ValueError, by what its text mentions. */
  lemma StatusIs(message: string)
    ensures StatusOf(message) ==
              if Mentions(message, "traversal") || Mentions(message, "not allowed") then 403
              else if Mentions(message, "too large") || Mentions(message, "exceeds") then 413
              else 400
  {
    MentionsIff(message, "traversal");
    MentionsIff(message, "not allowed");
    MentionsIff(message, "too large");
    MentionsIff(message, "exceeds");
  }

  /** A ValueError is answered with its status and text, unless that does not fit. */
  lemma InvalidAnswer(h: Header, message: string)
    requires |ErrorPayload(StatusOf(message), message)| <= 1048576
    ensures PayloadOf(Respond(h, Invalid(message))) == Some(ErrorPayload(StatusOf(message), message))
  {
    EncodedPayload(h, ErrorPayload(StatusOf(message), message));
  }

  // ---- An APPEND that is too large ----------------------------------------------------------------------------------

  predicate Without(s: string, c: char) {
    forall k :: 0 <= k < |s| ==> s[k] != c
  }

  lemma {:induction false} DecimalIsDigits(n: nat)
    ensures forall k :: 0 <= k < |Decimal(n)| ==> 48 <= Decimal(n)[k] < 58
  {
    if n >= 10 {
      DecimalIsDigits(n / 10);
    }
  }

  lemma TextIsDigits(n: nat)
    ensures forall k :: 0 <= k < |Text(n)| ==> '0' <= Text(n)[k] <= '9'
  {
    DecimalIsDigits(n);
  }

  const TOO_LARGE := "Append would exceed max file size: "

  function TooLargeMessage(size: nat): string {
    TOO_LARGE + Text(size) + " > " + Text(MAX_FILE_SIZE)
  }

  lemma TooLargeHead(s: string)
    requires s == "Append would exceed max file size: "
    ensures |s| == 35 && Without(Lower(s), 't') && forall k :: 0 <= k < 35 ==> (Lower(s)[k] == 's' <==> k == 29)
    ensures Lower(s)[28] == ' '
  {
  }

  lemma {:induction false} LowerJoin(a: string, b: string)
    ensures Lower(a + b) == Lower(a) + Lower(b)
  {
  }

  /** The lower-case text has no `t` at all and its only `s` follows a blank. */
  lemma TooLargeLetters(size: nat)
    ensures var text := Lower(TooLargeMessage(size));
            Without(text, 't') && forall k :: 0 < k < |text| && text[k] == 's' ==> text[k - 1] == ' '
  {
    var rest := Text(size) + " > " + Text(MAX_FILE_SIZE);
    TextIsDigits(size);
    TextIsDigits(MAX_FILE_SIZE);
    TooLargeHead(TOO_LARGE);
    assert TooLargeMessage(size) == TOO_LARGE + rest;
    LowerJoin(TOO_LARGE, rest);
    assert forall k :: 0 <= k < |rest| ==> rest[k] == ' ' || rest[k] == '>' || '0' <= rest[k] <= '9';
  }

  lemma OccurringChar(text: string, word: string, i: nat, at: nat)
    requires at < |word|
    ensures OccursAt(text, word, i) ==> i + at < |text| && text[i + at] == word[at]
  {
    if OccursAt(text, word, i) {
      assert text[i..i + |word|][at] == text[i + at];
    }
  }

  lemma NotContained(text: string, word: string, at: nat)
    requires at < |word| && Without(text, word[at])
    ensures !Contains(text, word)
  {
    forall i | 0 <= i <= |text|
      ensures !OccursAt(text, word, i)
    {
      OccurringChar(text, word, i, at);
    }
  }

  lemma NoExceeds(text: string)
    requires forall k :: 0 < k < |text| && text[k] == 's' ==> text[k - 1] == ' '
    ensures !Contains(text, "exceeds")
  {
    forall i | 0 <= i <= |text|
      ensures !OccursAt(text, "exceeds", i)
    {
      OccurringChar(text, "exceeds", i, 5);
      OccurringChar(text, "exceeds", i, 6);
    }
  }

  /**
   An APPEND that would make the file too large is answered with status 400, not 413: the text says that it would
   exceed the size, and the dispatcher looks for the word with an `s`.
   */
  lemma AppendTooLargeIsBadRequest(size: nat)
    ensures StatusOf(TooLargeMessage(size)) == 400
  {
    var text := Lower(TooLargeMessage(size));
    TooLargeLetters(size);
    NotContained(text, "traversal", 0);
    NotContained(text, "not allowed", 2);
    NotContained(text, "too large", 0);
    NoExceeds(text);
  }

  /** The handler's own text is that one. */
  lemma AppendTooLarge(files: Files, filename: string, path: string, data: Buffer)
    requires path in files && |files[path]| + |data| > 1048576
    ensures HandleAppend(files, Append(filename, path, data)) == (files, Invalid(TooLargeMessage(|files[path]|
        + |data|)))
  {
  }

  lemma AppendReplies(filename: string, size: nat)
    requires |SizeReport(filename, size)| < 0x8000_0000_0000_0000
    ensures AppendReply(filename, size) == Some(SizeReport(filename, size))
  {
  }

  lemma AppendSucceeds(files: Files, filename: string, path: string, data: Buffer)
    requires path in files && |files[path]| + |data| <= 1048576
    ensures HandleAppend(files, Append(filename, path, data))
         == (files[path := files[path] + data], Data(AppendReply(filename, |files[path]| + |data|), None))
  {
  }

  /** A successful APPEND reports the name and the size that the file has afterwards, if the answer fits. */
  lemma AppendReportsSize(h: Header, files: Files, filename: string, path: string, data: Buffer)
    requires path in files && |files[path]| + |data| <= 1048576
    requires |SizeReport(filename, |files[path]| + |data|)| + 40 <= 1048576
    ensures var (after, o) := HandleAppend(files, Append(filename, path, data));
            && after == files[path := files[path] + data]
            && PayloadOf(Respond(h, o)) == Some(SuccessJson(SizeReport(filename, |after[path]|)))
  {
    var size := |files[path]| + |data|;
    AppendReplies(filename, size);
    AppendSucceeds(files, filename, path, data);
    DataAnswer(h, SizeReport(filename, size));
  }

  function SizeReport(filename: string, size: nat): Bytes {
    Ascii("{\"filename\": ") + JsonString(filename) + Ascii(", \"new_size\": ") + Decimal(size) + Ascii("}")
  }

  // ---- Routing ----------------------------------------------------------------------------------------------

  /** Opcodes 1 to 5 and 16 to 18 run a handler; any other runs nothing and is answered with status 400. */
  lemma RoutingIs<W>(routine: Routine<W>, w: W, h: Header, payload: Bytes)
    ensures if 1 <= h.opcode <= 5 || 16 <= h.opcode <= 18
            then Dispatched(routine, w, h, payload).0 == routine(w, h, payload).0
                 && Dispatched(routine, w, h, payload).1 == Respond(h, routine(w, h, payload).1)
            else Dispatched(routine, w, h, payload).0 == w
                 && PayloadOf(Dispatched(routine, w, h, payload).1) == Some(ErrorPayload(400, "Unknown Opcode: "
                    + Text(h.opcode)))
  {
    UnknownOpcodeFits(h);
    EncodedUnknown(h);
  }

  lemma EncodedUnknown(h: Header)
    requires ErrorResponse(h, BAD_REQUEST, "Unknown Opcode: " + Text(h.opcode)).Some?
    ensures PayloadOf(ErrorResponse(h, BAD_REQUEST, "Unknown Opcode: " + Text(h.opcode)))
         == Some(ErrorPayload(400, "Unknown Opcode: " + Text(h.opcode)))
  {
    EncodedPayload(h, ErrorPayload(400, "Unknown Opcode: " + Text(h.opcode)));
  }

  // ---- Answers that cannot be sent as they are --------------------------------------------------------------

  /** Data that cannot be serialised is answered with status 500. */
  lemma UnserialisableAnswer(h: Header, binary: Option<Buffer>)
    ensures PayloadOf(Respond(h, Data(None, binary))) == Some(ErrorPayload(500, "Response serialization failed"))
  {
    ErrorLength(500, "Response serialization failed");
    EncodedPayload(h, SERIALIZATION_FAILED);
  }

  lemma TooLongHead(s: string)
    requires s == "Payload length "
    ensures |s| == 15 && Without(Lower(s), 'v') && Without(Lower(s), 'w')
  {
  }

  lemma TooLongTail(s: string)
    requires s == " exceeds max "
    ensures |s| == 13 && Without(Lower(s), 'v') && Without(Lower(s), 'w') && Lower(s[1..8]) == "exceeds"
  {
    assert s[1..8] == [s[1], s[2], s[3], s[4], s[5], s[6], s[7]];
    assert s[1..8] == ['e', 'x', 'c', 'e', 'e', 'd', 's'];
    LowerWord(s[1..8]);
  }

  lemma LowerWord(w: string)
    requires forall k :: 0 <= k < |w| ==> 'a' <= w[k] <= 'z'
    ensures Lower(w) == w
  {
  }

  lemma TextWithout(n: nat, c: char)
    requires c > '9'
    ensures Lower(Text(n)) == Text(n) && Without(Lower(Text(n)), c)
  {
    TextIsDigits(n);
  }

  lemma WithoutJoin(a: string, b: string, c: char)
    requires Without(Lower(a), c) && Without(Lower(b), c)
    ensures Without(Lower(a + b), c)
  {
    LowerJoin(a, b);
  }

  lemma TooLongWithout(length: nat, c: char, a: string, b: string)
    requires c > '9' && a == "Payload length " && b == " exceeds max " && Without(Lower(a), c) && Without(Lower(b), c)
    ensures Without(Lower(TooLong(length)), c)
  {
    TextWithout(length, c);
    TextWithout(MAX_PAYLOAD_LEN, c);
    WithoutJoin(a, Text(length), c);
    WithoutJoin(a + Text(length), b, c);
    WithoutJoin(a + Text(length) + b, Text(MAX_PAYLOAD_LEN), c);
  }

  lemma TooLongStatus(length: nat)
    ensures StatusOf(TooLong(length)) == 413
  {
    var a, b := "Payload length ", " exceeds max ";
    TooLongHead(a);
    TooLongTail(b);
    TooLongWithout(length, 'v', a, b);
    TooLongWithout(length, 'w', a, b);
    NotContained(Lower(TooLong(length)), "traversal", 3);
    NotContained(Lower(TooLong(length)), "not allowed", 8);
    TooLongMentions(length, a, b);
  }

  lemma TooLongMentions(length: nat, a: string, b: string)
    requires a == "Payload length " && b == " exceeds max " && |b| == 13 && Lower(b[1..8]) == "exceeds"
    ensures Contains(Lower(TooLong(length)), "exceeds")
  {
    var front, back := a + Text(length) + b[..1], b[8..] + Text(MAX_PAYLOAD_LEN);
    assert b == b[..1] + b[1..8] + b[8..];
    assert TooLong(length) == front + b[1..8] + back;
    MentionsIff(TooLong(length), "exceeds");
  }

  /** Data that does not fit an envelope is answered with status 413 and its length. */
  lemma TooLongAnswer(h: Header, json: Option<Buffer>, binary: Option<Buffer>)
    requires |SuccessPayload(json, binary)| > 1048576
    ensures var message := TooLong(|SuccessPayload(json, binary)|);
            PayloadOf(Respond(h, Data(json, binary))) == Some(ErrorPayload(413, message))
  {
    var length := |SuccessPayload(json, binary)|;
    SuccessLength(json, binary);
    TooLongFits(h, length);
    TooLongStatus(length);
    EncodedPayload(h, ErrorPayload(413, TooLong(length)));
  }
}
