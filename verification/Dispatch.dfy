/**
 The dispatcher behind the request pipeline: routing by opcode, mapping of exceptions to error answers, and
 the answer envelope. What the individual handlers do is a parameter, except for APPEND.
 */
module Dispatch {
  import opened Wire
  import opened Idempotency

  const OP_PUT_META: Byte := 0x01
  const OP_PUT_CHUNK: Byte := 0x02
  const OP_GET: Byte := 0x03
  const OP_APPEND: Byte := 0x04
  const OP_LIST: Byte := 0x05
  const OP_TASK_SEARCH_REPORT: Byte := 0x10
  const OP_TASK_FILTER_LINES: Byte := 0x11
  const OP_TASK_HASH_AND_STORE: Byte := 0x12

  const OK_STATUS: nat := 200
  const BAD_REQUEST: nat := 400
  const FORBIDDEN: nat := 403
  const NOT_FOUND: nat := 404
  const PAYLOAD_TOO_LARGE: nat := 413
  const INTERNAL_SERVER_ERROR: nat := 500

  /** An object the interpreter can hold: its length fits a signed 64-bit number. */
  type Buffer = b: Bytes | |b| < 0x8000_0000_0000_0000

  /**
   What a handler does: return data (its JSON text, unless it cannot be serialised) and possibly binary
   content, or raise FileNotFoundError, ValueError or any other exception.
   */
  datatype Outcome =
    | Data(json: Option<Buffer>, binary: Option<Buffer>)
    | FileNotFound(message: string)
    | Invalid(message: string)
    | Failed

  type Routine<!W> = (W, Header, Bytes) -> (W, Outcome)

  // ---- JSON text ----------------------------------------------------------------------------------------

  function Ascii(s: string): (b: Bytes)
    requires forall i :: 0 <= i < |s| ==> s[i] < 128 as char
    ensures |b| == |s|
  {
    seq(|s|, i requires 0 <= i < |s| => s[i] as int)
  }

  function Digit(n: nat): Byte
    requires n < 16
  {
    if n < 10 then 48 + n else 87 + n
  }

  function Decimal(n: nat): (b: Bytes)
    ensures b != []
  {
    if n < 10 then [Digit(n)] else Decimal(n / 10) + [Digit(n % 10)]
  }

  /** Four hexadecimal digits after a backslash and a `u`. */
  function Escape(unit: nat): (b: Bytes)
    requires unit < 0x1_0000
    ensures |b| == 6
  {
    [92, 117, Digit(unit / 0x1000), Digit(unit / 0x100 % 16), Digit(unit / 16 % 16), Digit(unit % 16)]
  }

  /** One character of a JSON string; beyond printable ASCII it is escaped, as a surrogate pair if need be. */
  function JsonChar(c: char): (b: Bytes)
    ensures 1 <= |b| <= 12
  {
    var n := c as int;
    if c == '\"' || c == '\\' then [92, n]
    else if 32 <= n < 127 then [n]
    else if c == '\n' then [92, 110]
    else if c == '\r' then [92, 114]
    else if c == '\t' then [92, 116]
    else if n == 8 then [92, 98]
    else if n == 12 then [92, 102]
    else if n < 0x1_0000 then Escape(n)
    else Escape(0xD800 + (n - 0x1_0000) / 0x400) + Escape(0xDC00 + (n - 0x1_0000) % 0x400)
  }

  /** The first `n` characters. */
  function JsonChars(s: string, n: nat): (b: Bytes)
    requires n <= |s|
    ensures n <= |b| <= 12 * n
  {
    if n == 0 then [] else JsonChars(s, n - 1) + JsonChar(s[n - 1])
  }

  function JsonString(s: string): (b: Bytes)
    ensures 2 + |s| <= |b| <= 2 + 12 * |s|
  {
    [34] + JsonChars(s, |s|) + [34]
  }

  const NULL: Bytes := Ascii("null")

  /** The answer's JSON object. */
  function Json(status: nat, error: Bytes, data: Bytes): (b: Bytes)
    ensures |b| == 33 + |Decimal(status)| + |error| + |data|
  {
    Ascii("{\"status\": ") + Decimal(status) + Ascii(", \"error\": ") + error + Ascii(", \"data\": ") + data
      + Ascii("}")
  }

  const SERIALIZATION_FAILED: Bytes := Json(INTERNAL_SERVER_ERROR, JsonString("Response serialization failed"), NULL)

  // ---- Envelope ------------------------------------------------------------------------------------------

  function TooLong(length: nat): string {
    "Payload length " + Text(length) + " exceeds max " + Text(MAX_PAYLOAD_LEN)
  }

  function Text(n: nat): (s: string)
    ensures |s| == |Decimal(n)|
  {
    var b := Decimal(n);
    seq(|b|, i requires 0 <= i < |b| => b[i] as char)
  }

  /** Header and payload; a payload beyond the limit raises ValueError. */
  function EncodeMessage(h: Header, payload: Bytes): Option<Bytes> {
    if |payload| > MAX_PAYLOAD_LEN then None
    else Some([PROTOCOL_VERSION, h.opcode, 0, 0] + U32(h.requestId) + U32(|payload|) + payload)
  }

  /** The payload of a success answer: JSON, or length, JSON and binary content. */
  function SuccessPayload(json: Option<Bytes>, binary: Option<Bytes>): Bytes {
    match json
    case None => SERIALIZATION_FAILED
    case Some(data) =>
      var meta := Json(OK_STATUS, NULL, data);
      match binary
      case None => meta
      case Some(content) =>
        if |meta| < 0x1_0000_0000 then U32(|meta|) + meta + content else SERIALIZATION_FAILED
  }

  function ErrorPayload(status: nat, message: string): Bytes {
    Json(status, JsonString(message), NULL)
  }

  function ErrorResponse(h: Header, status: nat, message: string): Option<Bytes> {
    EncodeMessage(h, ErrorPayload(status, message))
  }

  // ---- Routing -------------------------------------------------------------------------------------------

  predicate Handled(opcode: Byte) {
    opcode in {OP_PUT_META, OP_PUT_CHUNK, OP_GET, OP_APPEND, OP_LIST,
               OP_TASK_SEARCH_REPORT, OP_TASK_FILTER_LINES, OP_TASK_HASH_AND_STORE}
  }

  /** Lower case of ASCII letters; no other character has a lower case that occurs in the words looked for. */
  function LowerChar(c: char): char {
    if 'A' <= c <= 'Z' then (c as int + 32) as char else c
  }

  function Lower(s: string): string {
    seq(|s|, i requires 0 <= i < |s| => LowerChar(s[i]))
  }

  predicate OccursAt(s: string, word: string, i: nat) {
    i + |word| <= |s| && s[i..i + |word|] == word
  }

  predicate Contains(s: string, word: string) {
    exists i :: 0 <= i <= |s| && OccursAt(s, word, i)
  }

  /** The status that the text of a ValueError stands for. */
  function StatusOf(message: string): (status: nat)
    ensures status < 1000
  {
    var text := Lower(message);
    if Contains(text, "traversal") || Contains(text, "not allowed") then FORBIDDEN
    else if Contains(text, "too large") || Contains(text, "exceeds") then PAYLOAD_TOO_LARGE
    else BAD_REQUEST
  }

  /** The answer to each outcome; `None` if building it raises as well. */
  function Respond(h: Header, o: Outcome): Option<Bytes> {
    match o
    case Data(json, binary) =>
      var payload := SuccessPayload(json, binary);
      var answer := EncodeMessage(h, payload);
      if answer.Some? then answer else ErrorResponse(h, StatusOf(TooLong(|payload|)), TooLong(|payload|))
    case FileNotFound(message) => ErrorResponse(h, NOT_FOUND, message)
    case Invalid(message) => ErrorResponse(h, StatusOf(message), message)
    case Failed => ErrorResponse(h, INTERNAL_SERVER_ERROR, "Internal Server Error")
  }

  function Dispatched<W>(routine: Routine<W>, w: W, h: Header, payload: Bytes): (W, Option<Bytes>) {
    if !Handled(h.opcode) then (w, ErrorResponse(h, BAD_REQUEST, "Unknown Opcode: " + Text(h.opcode)))
    else
      var (w', outcome) := routine(w, h, payload);
      (w', Respond(h, outcome))
  }

  /** The dispatcher as the pipeline calls it. */
  function Dispatcher<W>(routine: Routine<W>): Handler<W> {
    (w: W, h: Header, payload: Bytes) => Dispatched(routine, w, h, payload)
  }

  // ---- APPEND ---------------------------------------------------------------------------------------------

  const MAX_FILE_SIZE: nat := 0x10_0000

  /** File contents by absolute path. */
  type Files = map<string, Buffer>

  /**
   A decoded APPEND payload with its sandboxed path, or the text of the ValueError that decoding raises, or
   metadata that is no JSON object, on which decoding raises something else.
   */
  datatype AppendRequest =
    | Malformed(message: string)
    | NoObject
    | Append(filename: string, path: string, data: Buffer)

  function HandleAppend(files: Files, r: AppendRequest): (Files, Outcome) {
    match r
    case Malformed(message) => (files, Invalid(message))
    case NoObject => (files, Failed)
    case Append(filename, path, data) =>
      if path !in files then (files, FileNotFound("File not found: " + filename))
      else
        var size := |files[path]| + |data|;
        if size > MAX_FILE_SIZE
        then (files, Invalid("Append would exceed max file size: " + Text(size) + " > " + Text(MAX_FILE_SIZE)))
        else (files[path := files[path] + data], Data(AppendReply(filename, size), None))
  }

  /** The JSON text of the success data, if an object that long can exist. */
  function AppendReply(filename: string, size: nat): Option<Buffer> {
    var json := Ascii("{\"filename\": ") + JsonString(filename) + Ascii(", \"new_size\": ") + Decimal(size)
        + Ascii("}");
    if |json| < 0x8000_0000_0000_0000 then Some(json) else None
  }

  /** APPEND as above, everything else as `others` does it. */
  function WithAppend(parse: Bytes -> AppendRequest, others: Routine<Files>): Routine<Files> {
    (files: Files, h: Header, payload: Bytes) =>
      if h.opcode == OP_APPEND then HandleAppend(files, parse(payload)) else others(files, h, payload)
  }
}
