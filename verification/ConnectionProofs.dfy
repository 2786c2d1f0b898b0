/** When the handler of a datagram lets an exception escape. */
module ConnectionProofs {
  import opened Wire
  import opened Connection
  import Receiver
  import RP = ReceiverProofs

  /** The least acknowledgement number that does not fit a packet. */
  const LIMIT: nat := 0x1_0000_0000

  /** `raised` tells whether the receiver has taken as many segments as there are sequence numbers. */
  predicate Spent(c: Endpoint, raised: bool) {
    RP.Valid(c.receiver) && (raised <==> c.receiver.expected >= LIMIT)
  }

  lemma ReplyFitsIff(s: Receiver.State, p: Packet)
    requires RP.Valid(s)
    ensures var (t, reply, _) := Receiver.Process(s, p);
            RP.Valid(t) && (Fits(AckPacket(reply)) <==> t.expected < LIMIT)
  {
    RP.ProcessKeepsValid(s, p);
  }

  /** The handler raises exactly when the segment it handles completes the sequence number space. */
  lemma RaisesAtLimit(c: Endpoint, data: Bytes, now: real)
    requires Spent(c, false)
    ensures var (d, out) := OnDatagram(c, data, now); Spent(d, out.raised)
  {
    if Unpack(data).Ok? {
      ReplyFitsIff(c.receiver, Unpack(data).value);
    }
  }
}
