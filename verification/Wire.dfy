/**
 The RUDP packet, its binary layout and its checksum.

 A packet is a 13-byte header (sequence number, acknowledgement number, flags, receive window,
 checksum), an optional 8-byte reassembly block (message id, offset) and a payload. All integers are
 big-endian and unsigned.
 */
module Wire {

  type Byte = b: int | 0 <= b < 0x100
  type Bytes = seq<Byte>

  datatype Option<+T> = None | Some(value: T)

  datatype Error = StructError | TooShort | Truncated | ChecksumError

  datatype Result<+T> = Ok(value: T) | Err(error: Error)

  const FLAG_ACK: nat := 0x02
  const FLAG_FIN: nat := 0x04

  const FIXED_HEADER_SIZE: nat := 13
  const REASSEMBLY_SIZE: nat := 8

  /** Position of the two checksum bytes inside the header. */
  const CHECKSUM_AT: nat := 11

  /** A packet. Its checksum is a function of these fields and exists only on the wire. */
  datatype Packet = Packet(
    seqNum: nat,
    ackNum: nat,
    flags: nat,
    rwnd: nat,
    msgId: Option<nat>,
    offset: Option<nat>,
    payload: Bytes)
  {
    predicate HasReassembly() {
      msgId.Some? && offset.Some?
    }

    predicate HasData() {
      payload != [] || HasReassembly()
    }

    predicate IsAck() {
      flags / FLAG_ACK % 2 == 1
    }

    predicate IsFin() {
      flags / FLAG_FIN % 2 == 1
    }
  }

  // ---- Binary layout ------------------------------------------------------------------------

  /** The low `width` base-256 digits of `n`, most significant first. */
  function BigEndian(n: nat, width: nat): (b: Bytes)
    ensures |b| == width
    decreases width, n
  {
    if width == 0 then [] else BigEndian(n / 0x100, width - 1) + [n % 0x100]
  }

  function FromBigEndian(b: Bytes): nat {
    if b == [] then 0 else FromBigEndian(b[..|b| - 1]) * 0x100 + b[|b| - 1]
  }

  function Pow256(width: nat): nat {
    if width == 0 then 1 else Pow256(width - 1) * 0x100
  }

  lemma {:induction false} FromBigEndianBound(b: Bytes)
    ensures FromBigEndian(b) < Pow256(|b|)
  {
    if b != [] {
      FromBigEndianBound(b[..|b| - 1]);
    }
  }

  function U16(n: nat): (b: Bytes)
    ensures |b| == 2
  {
    BigEndian(n, 2)
  }

  function U32(n: nat): (b: Bytes)
    ensures |b| == 4
  {
    BigEndian(n, 4)
  }

  /** A big-endian 16-bit word. */
  function Word(high: int, low: int): int {
    high * 0x100 + low
  }

  /** Every field fits its slot; otherwise `struct.pack` raises. */
  predicate Fits(p: Packet) {
    && p.seqNum < 0x1_0000_0000
    && p.ackNum < 0x1_0000_0000
    && p.flags < 0x100
    && p.rwnd < 0x1_0000
    && (p.HasReassembly() ==> p.msgId.value < 0x1_0000_0000 && p.offset.value < 0x1_0000_0000)
  }

  function Header(p: Packet, checksum: nat): (b: Bytes)
    requires Fits(p) && checksum < 0x1_0000
    ensures |b| == FIXED_HEADER_SIZE
  {
    U32(p.seqNum) + U32(p.ackNum) + [p.flags] + U16(p.rwnd) + U16(checksum)
  }

  function Body(p: Packet): Bytes
    requires Fits(p)
  {
    (if p.HasReassembly() then U32(p.msgId.value) + U32(p.offset.value) else []) + p.payload
  }

  function Image(p: Packet, checksum: nat): (b: Bytes)
    requires Fits(p) && checksum < 0x1_0000
  {
    Header(p, checksum) + Body(p)
  }

  // ---- Checksum ------------------------------------------------------------------------------

  /** Weight of the byte at position `i` inside its big-endian 16-bit word. */
  function Weight(i: nat): nat {
    if i % 2 == 0 then 0x100 else 1
  }

  /** Sum of the big-endian 16-bit words of `b`, a trailing odd byte being padded with zero. */
  function WordSum(b: Bytes): nat {
    if b == [] then 0 else WordSum(b[..|b| - 1]) + b[|b| - 1] * Weight(|b| - 1)
  }

  /**
   The one's-complement checksum in closed form. A zero result is never produced, which is the
   zero rule of RFC 768.
   */
  function Checksum(b: Bytes): (c: nat)
    ensures 1 <= c <= 0xFFFF
  {
    0xFFFF - WordSum(b) % 0xFFFF
  }

  /** Carry folding keeps the residue modulo 0xFFFF, stays non-zero and makes progress. */
  lemma FoldStep(c: nat)
    requires c >= 0x1_0000
    ensures var d := c % 0x1_0000 + c / 0x1_0000; 0 < d < c && d % 0xFFFF == c % 0xFFFF
  {
    var q, r := c / 0x1_0000, c % 0x1_0000;
    assert c == q * 0xFFFF + (q + r);
    ResidueShift(q + r, q);
  }

  lemma {:induction false} ResidueShift(a: int, k: nat)
    ensures (a + k * 0xFFFF) % 0xFFFF == a % 0xFFFF
  {
    if k > 0 {
      ResidueShift(a, k - 1);
      assert a + k * 0xFFFF == a + (k - 1) * 0xFFFF + 0xFFFF;
    }
  }

  lemma WordSumNextWord(b: Bytes, i: nat)
    requires i % 2 == 0 && i + 1 < |b|
    ensures WordSum(b[..i + 2]) == WordSum(b[..i]) + Word(b[i], b[i + 1])
  {
    assert b[..i + 2][..i + 1] == b[..i + 1];
    assert b[..i + 1][..i] == b[..i];
  }

  /** The summing loop. */
  method SumWords(b: Bytes) returns (csum: nat)
    requires |b| % 2 == 0
    ensures csum == WordSum(b)
  {
    csum := 0;
    var i := 0;
    while i < |b|
      invariant 0 <= i <= |b| && i % 2 == 0
      invariant csum == WordSum(b[..i])
    {
      var word := Word(b[i], b[i + 1]);
      WordSumNextWord(b, i);
      csum := csum + word;
      i := i + 2;
    }
    assert b[..i] == b;
  }

  /** The carry-folding loop: it ends, within 16 bits, on the same residue. */
  method FoldCarries(sum: nat) returns (csum: nat)
    ensures csum <= 0xFFFF && csum % 0xFFFF == sum % 0xFFFF
  {
    csum := sum;
    while csum / 0x1_0000 > 0
      invariant csum % 0xFFFF == sum % 0xFFFF
      decreases csum
    {
      FoldStep(csum);
      csum := csum % 0x1_0000 + csum / 0x1_0000;
    }
  }

  /** The bytes that are summed: the image with a zero checksum, padded to an even length. */
  method SummedBytes(p: Packet) returns (b: Bytes)
    requires Fits(p)
    ensures |b| % 2 == 0 && WordSum(b) == WordSum(Image(p, 0))
  {
    b := Header(p, 0);
    if p.HasReassembly() {
      b := b + (U32(p.msgId.value) + U32(p.offset.value));
    }
    if p.payload != [] {
      b := b + p.payload;
    }
    assert b == Image(p, 0);
    if |b| % 2 == 1 {
      assert (b + [0])[..|b|] == b;
      b := b + [0];
    }
  }

  /** Summing, folding and complementing, with the zero rule, computes the closed form. */
  method CalculateChecksum(p: Packet) returns (r: Result<nat>)
    ensures r == if Fits(p) then Ok(Checksum(Image(p, 0))) else Err(StructError)
  {
    if !Fits(p) {
      return Err(StructError);
    }
    var packetBytes := SummedBytes(p);
    var csum := SumWords(packetBytes);
    csum := FoldCarries(csum);
    var complement := 0xFFFF - csum;
    r := Ok(if complement == 0 then 0xFFFF else complement);
  }

  // ---- Pack and unpack -----------------------------------------------------------------------

  function Pack(p: Packet): Result<Bytes> {
    if Fits(p) then Ok(Image(p, Checksum(Image(p, 0)))) else Err(StructError)
  }

  function Parse(data: Bytes): (p: Packet)
    requires |data| == FIXED_HEADER_SIZE || |data| >= FIXED_HEADER_SIZE + REASSEMBLY_SIZE
    ensures Fits(p)
  {
    FromBigEndianBound(data[..4]);
    FromBigEndianBound(data[4..8]);
    FromBigEndianBound(data[9..11]);
    var extra := |data| > FIXED_HEADER_SIZE;
    assert extra ==> FromBigEndian(data[13..17]) < 0x1_0000_0000 && FromBigEndian(data[17..21]) < 0x1_0000_0000 by {
      if extra {
        FromBigEndianBound(data[13..17]);
        FromBigEndianBound(data[17..21]);
      }
    }
    Packet(
      FromBigEndian(data[..4]), FromBigEndian(data[4..8]), data[8], FromBigEndian(data[9..11]),
      if extra then Some(FromBigEndian(data[13..17])) else None,
      if extra then Some(FromBigEndian(data[17..21])) else None,
      if extra then data[21..] else [])
  }

  /** The checksum field of a datagram. */
  function ChecksumField(data: Bytes): nat
    requires |data| >= FIXED_HEADER_SIZE
  {
    FromBigEndian(data[CHECKSUM_AT..FIXED_HEADER_SIZE])
  }

  function Unpack(data: Bytes): Result<Packet> {
    if |data| < FIXED_HEADER_SIZE then Err(TooShort)
    else if FIXED_HEADER_SIZE < |data| < FIXED_HEADER_SIZE + REASSEMBLY_SIZE then Err(Truncated)
    else
      var p := Parse(data);
      if ChecksumField(data) != Checksum(Image(p, 0)) then Err(ChecksumError) else Ok(p)
  }
}
