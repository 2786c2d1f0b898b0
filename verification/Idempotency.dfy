/** The request pipeline: envelope decoding, the idempotency cache, dispatch and storing of the answer. */
module Idempotency {
  import opened Wire

  const TTL: real := 120.0

  const HEADER_SIZE: nat := 12
  const PROTOCOL_VERSION: nat := 1
  const MAX_PAYLOAD_LEN: nat := 0x10_0000

  // ---- Envelope -----------------------------------------------------------------------------------------

  type Word32 = n: nat | n < 0x1_0000_0000

  datatype Header = Header(opcode: Byte, requestId: Word32)

  datatype Envelope = Envelope(header: Header, payload: Bytes)

  /** The request in `data`, unless its header is malformed or its length is wrong. */
  function Decode(data: Bytes): Option<Envelope> {
    if |data| < HEADER_SIZE || data[0] != PROTOCOL_VERSION then None
    else
      var length := FromBigEndian(data[8..12]);
      if length > MAX_PAYLOAD_LEN || length != |data| - HEADER_SIZE then None
      else
        FromBigEndianBound(data[4..8]);
        assert Pow256(4) == 0x1_0000_0000;
        Some(Envelope(Header(data[1], FromBigEndian(data[4..8])), data[HEADER_SIZE..]))
  }

  // ---- Cache --------------------------------------------------------------------------------------------

  datatype Key = Key(client: string, requestId: nat, opcode: nat)

  datatype Entry = Entry(response: Bytes, timestamp: real)

  type Cache = map<Key, Entry>

  predicate Fresh(e: Entry, now: real) {
    now - e.timestamp < TTL
  }

  /** An expired entry is deleted on lookup. */
  function GetResponse(cache: Cache, key: Key, now: real): (Cache, Option<Bytes>) {
    if key !in cache then (cache, None)
    else if Fresh(cache[key], now) then (cache, Some(cache[key].response))
    else (cache - {key}, None)
  }

  function Cleanup(cache: Cache, now: real): Cache {
    map k | k in cache && Fresh(cache[k], now) :: cache[k]
  }

  class IdempotencyCache {
    var cache: Cache

    constructor ()
      ensures cache == map[]
    {
      cache := map[];
    }

    method Get(client: string, requestId: nat, opcode: nat, now: real) returns (response: Option<Bytes>)
      modifies this
      ensures (cache, response) == GetResponse(old(cache), Key(client, requestId, opcode), now)
    {
      var key := Key(client, requestId, opcode);
      response := None;
      if key in cache {
        if now - cache[key].timestamp < TTL {
          response := Some(cache[key].response);
        } else {
          cache := cache - {key};
        }
      }
    }

    method Put(client: string, requestId: nat, opcode: nat, response: Bytes, now: real)
      modifies this
      ensures cache == old(cache)[Key(client, requestId, opcode) := Entry(response, now)]
    {
      cache := cache[Key(client, requestId, opcode) := Entry(response, now)];
    }

    method Sweep(now: real)
      modifies this
      ensures cache == Cleanup(old(cache), now)
    {
      var keysToDelete := set k | k in cache && now - cache[k].timestamp >= TTL;
      while keysToDelete != {}
        invariant keysToDelete == set k | k in cache && !Fresh(cache[k], now)
        invariant Cleanup(cache, now) == Cleanup(old(cache), now)
        decreases keysToDelete
      {
        var k :| k in keysToDelete;
        cache := cache - {k};
        keysToDelete := keysToDelete - {k};
      }
      assert forall k :: k in cache && !Fresh(cache[k], now) ==> k in keysToDelete;
      assert cache == Cleanup(cache, now);
    }
  }

  // ---- Pipeline -----------------------------------------------------------------------------------------

  /** The dispatcher: it changes the world and answers, or raises. */
  type Handler<!W> = (W, Header, Bytes) -> (W, Option<Bytes>)

  datatype Server<W> = Server(cache: Cache, world: W)

  function KeyOf(client: string, e: Envelope): Key {
    Key(client, e.header.requestId, e.header.opcode)
  }

  /** A cached answer is used unless it is empty. */
  function CachedAnswer(s: Cache, key: Key, now: real): Option<Bytes> {
    var r := GetResponse(s, key, now).1;
    if r.Some? && r.value != [] then r else None
  }

  /** Run the handler on a request that arrived at `start`; the answer is stored at `finish`. */
  function Execute<W>(h: Handler<W>, s: Server<W>, key: Key, e: Envelope, finish: real): (Server<W>, Bytes) {
    var (world, answer) := h(s.world, e.header, e.payload);
    match answer
    case None => (s.(world := world), [])
    case Some(r) => (Server(s.cache[key := Entry(r, finish)], world), r)
  }

  function Process<W>(h: Handler<W>, s: Server<W>, client: string, data: Bytes, start: real,
                      finish: real): (Server<W>, Bytes) {
    match Decode(data)
    case None => (s, [])
    case Some(e) =>
      var key := KeyOf(client, e);
      var (cache, _) := GetResponse(s.cache, key, start);
      match CachedAnswer(s.cache, key, start)
      case Some(r) => (s.(cache := cache), r)
      case None => Execute(h, s.(cache := cache), key, e, finish)
  }

  class AgentServer<W> {
    const idempotencyCache: IdempotencyCache
    var world: W

    ghost function Value(): Server<W>
      reads this, idempotencyCache
    {
      Server(idempotencyCache.cache, world)
    }

    constructor (w: W)
      ensures Value() == Server(map[], w) && fresh(idempotencyCache)
    {
      idempotencyCache := new IdempotencyCache();
      world := w;
    }

    method ProcessRequest(h: Handler<W>, client: string, data: Bytes, start: real,
                          finish: real) returns (response: Bytes)
      modifies this, idempotencyCache
      ensures (Value(), response) == Process(h, old(Value()), client, data, start, finish)
    {
      var request := Decode(data);
      if request.None? {
        return [];
      }
      var header := request.value.header;
      var cached := idempotencyCache.Get(client, header.requestId, header.opcode, start);
      if cached.Some? && cached.value != [] {
        return cached.value;
      }
      var (w, answer) := h(world, header, request.value.payload);
      world := w;
      if answer.None? {
        return [];
      }
      idempotencyCache.Put(client, header.requestId, header.opcode, answer.value, finish);
      return answer.value;
    }
  }
}
