/**
 One end of a conversation: a sending and a receiving engine driven by datagrams, as the client
 transport and each server connection do it.
 */
module Connection {
  import opened Wire
  import opened Fragment
  import Sender
  import Receiver

  datatype Endpoint = Endpoint(sender: Sender.State, receiver: Receiver.State)

  /** What one call hands to the socket and to the application, and whether an exception leaves it. */
  datatype Output = Output(datagrams: seq<Bytes>, messages: seq<Bytes>, raised: bool)

  const NOTHING := Output([], [], false)

  const FRESH := Endpoint(Sender.Initial(Receiver.MAX_RWND), Receiver.INITIAL)

  /** The sender's packets packed; it catches the exception about one that does not fit, which is not sent. */
  function Encode(ps: seq<Packet>): seq<Bytes> {
    if ps == [] then []
    else
      var rest := Encode(ps[..|ps| - 1]);
      match Pack(ps[|ps| - 1])
      case Ok(d) => rest + [d]
      case Err(_) => rest
  }

  function AckPacket(r: Receiver.Reply): Packet {
    Packet(0, r.ackNum, FLAG_ACK, r.rwnd, None, None, [])
  }

  function Send(c: Endpoint, m: Message, now: real): (Endpoint, Output) {
    var (s, sent) := Sender.Enqueue(c.sender, m, now);
    (c.(sender := s), Output(Encode(sent), [], false))
  }

  function Tick(c: Endpoint, now: real): (Endpoint, Output) {
    var (s, sent) := Sender.CheckTimeouts(c.sender, now);
    (c.(sender := s), Output(Encode(sent), [], false))
  }

  /** The acknowledgement half of a packet goes to the sender. */
  function RouteAck(c: Endpoint, p: Packet, now: real): (Endpoint, seq<Bytes>) {
    if p.IsAck() then
      var (s, sent) := Sender.OnAck(c.sender, p.ackNum, p.rwnd, now);
      (c.(sender := s), Encode(sent))
    else (c, [])
  }

  /** The data half goes to the receiver and is acknowledged at once; a reply that cannot be packed raises. */
  function RouteData(c: Endpoint, p: Packet): (Endpoint, Output) {
    if p.HasData() then
      var (r, reply, messages) := Receiver.Process(c.receiver, p);
      (c.(receiver := r), Output(Encode([AckPacket(reply)]), messages, Pack(AckPacket(reply)).Err?))
    else (c, NOTHING)
  }

  function OnPacket(c: Endpoint, p: Packet, now: real): (Endpoint, Output) {
    var (d, acked) := RouteAck(c, p, now);
    var (e, out) := RouteData(d, p);
    (e, Output(acked + out.datagrams, out.messages, out.raised))
  }

  /** A datagram that does not unpack is dropped. */
  function OnDatagram(c: Endpoint, data: Bytes, now: real): (Endpoint, Output) {
    match Unpack(data)
    case Err(_) => (c, NOTHING)
    case Ok(p) => OnPacket(c, p, now)
  }

  /** A connection: the two engines, and the calls the transports make on them. */
  class RudpConnection {
    const sender: Sender.RudpSender
    const receiver: Receiver.RudpReceiver

    ghost function Value(): Endpoint
      reads sender, receiver
    {
      Endpoint(sender.Value(), receiver.Value())
    }

    constructor ()
      ensures Value() == FRESH
      ensures fresh(sender) && fresh(receiver)
    {
      sender := new Sender.RudpSender(Receiver.MAX_RWND);
      receiver := new Receiver.RudpReceiver();
    }

    method SendMessage(data: Bytes, requestId: nat, now: real) returns (out: Output)
      modifies sender
      ensures (Value(), out) == Send(old(Value()), Message(data, requestId), now)
    {
      var sent := sender.EnqueueData(data, requestId, now);
      out := Output(Encode(sent), [], false);
    }

    method TickSender(now: real) returns (out: Output)
      modifies sender
      ensures (Value(), out) == Tick(old(Value()), now)
    {
      var sent := sender.CheckForTimeouts(now);
      out := Output(Encode(sent), [], false);
    }

    method OnPacketReceived(p: Packet, now: real) returns (out: Output)
      modifies sender, receiver
      ensures (Value(), out) == OnPacket(old(Value()), p, now)
    {
      var datagrams: seq<Bytes> := [];
      var messages: seq<Bytes> := [];
      var raised := false;
      if p.IsAck() {
        var sent := sender.OnAckReceived(p.ackNum, p.rwnd, now);
        datagrams := Encode(sent);
      }
      if p.HasData() {
        var reply;
        ghost var appends;
        reply, messages, appends := receiver.ProcessSegment(p);
        var packed := Pack(AckPacket(reply));
        assert Encode([AckPacket(reply)]) == if packed.Ok? then [packed.value] else [] by {
          assert [AckPacket(reply)][..0] == [];
        }
        if packed.Ok? {
          datagrams := datagrams + [packed.value];
        } else {
          raised := true;
        }
      }
      assert datagrams + [] == datagrams;
      out := Output(datagrams, messages, raised);
    }
  }
}
