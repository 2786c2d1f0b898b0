/** What the codec promises: round trips both ways, and rejection of any one-byte corruption. */
module WireProofs {
  import opened Wire

  // ---- Byte conversions ----------------------------------------------------------------------

  lemma {:induction false} DecodeEncode(n: nat, width: nat)
    requires n < Pow256(width)
    ensures FromBigEndian(BigEndian(n, width)) == n
    decreases width
  {
    if width > 0 {
      DecodeEncode(n / 0x100, width - 1);
      assert BigEndian(n, width)[..width - 1] == BigEndian(n / 0x100, width - 1);
    }
  }

  lemma {:induction false} EncodeDecode(b: Bytes)
    ensures BigEndian(FromBigEndian(b), |b|) == b
  {
    if b != [] {
      var init := b[..|b| - 1];
      EncodeDecode(init);
      assert FromBigEndian(b) / 0x100 == FromBigEndian(init);
      assert b == init + [b[|b| - 1]];
    }
  }

  lemma DecodeInjective(a: Bytes, b: Bytes)
    requires |a| == |b| && a != b
    ensures FromBigEndian(a) != FromBigEndian(b)
  {
    EncodeDecode(a);
    EncodeDecode(b);
  }

  // ---- unpack after pack ---------------------------------------------------------------------

  // ---- The layout, byte by byte ----------------------------------------------------------------

  lemma WordValue(b: Bytes)
    requires |b| == 4
    ensures FromBigEndian(b) == b[0] as int * 0x100_0000 + b[1] as int * 0x1_0000 + b[2] as int * 0x100 + b[3] as int
  {
    assert b[..3][..2] == b[..2] && b[..2][..1] == b[..1] && b[..1][..0] == [];
    assert FromBigEndian(b[..1]) == b[0];
    assert FromBigEndian(b[..2]) == b[0] as int * 0x100 + b[1];
    assert FromBigEndian(b[..3]) == FromBigEndian(b[..2]) * 0x100 + b[2];
  }

  /** The number in the four bytes from `at` on. */
  function WordAt(data: Bytes, at: nat): nat
    requires at + 4 <= |data|
  {
    data[at] as int * 0x100_0000 + data[at + 1] as int * 0x1_0000 + data[at + 2] as int * 0x100 + data[at + 3] as int
  }

  lemma WordAtIs(data: Bytes, at: nat)
    requires at + 4 <= |data|
    ensures WordAt(data, at) == FromBigEndian(data[at..at + 4])
  {
    WordValue(data[at..at + 4]);
  }

  /** The number in the two bytes from `at` on. */
  function HalfAt(data: Bytes, at: nat): nat
    requires at + 2 <= |data|
  {
    data[at] as int * 0x100 + data[at + 1] as int
  }

  lemma HalfAtIs(data: Bytes, at: nat)
    requires at + 2 <= |data|
    ensures HalfAt(data, at) == FromBigEndian(data[at..at + 2])
  {
    var b := data[at..at + 2];
    assert b[..1][..0] == [];
    assert FromBigEndian(b[..1]) == b[0];
  }

  lemma HeaderLayout(data: Bytes, p: Packet)
    requires (|data| == 13 || |data| >= 21) && p == Parse(data)
    ensures p.seqNum == WordAt(data, 0) && p.ackNum == WordAt(data, 4)
    ensures p.flags == data[8] && p.rwnd == HalfAt(data, 9) && ChecksumField(data) == HalfAt(data, 11)
  {
    assert data[0..4] == data[..4];
    WordAtIs(data, 0);
    WordAtIs(data, 4);
    HalfAtIs(data, 9);
    HalfAtIs(data, 11);
  }

  lemma BlockLayout(data: Bytes, p: Packet)
    requires |data| >= 21 && p == Parse(data)
    ensures p.msgId == Some(WordAt(data, 13)) && p.offset == Some(WordAt(data, 17)) && p.payload == data[21..]
  {
    WordAtIs(data, 13);
    WordAtIs(data, 17);
  }

  /**
   Where every field of an accepted datagram is: the number in bytes 0 to 3, the acknowledgement in 4 to 7, the flags
   in 8, the window in 9 and 10, the checksum in 11 and 12; and if there is more, the message id in 13 to 16, the
   offset in 17 to 20 and then the payload.
   */
  lemma DatagramLayout(data: Bytes)
    requires Unpack(data).Ok?
    ensures var p := Unpack(data).value;
            && |data| >= 13
            && p.seqNum == WordAt(data, 0) && p.ackNum == WordAt(data, 4)
            && p.flags == data[8] && p.rwnd == HalfAt(data, 9)
            && HalfAt(data, 11) == Checksum(Image(p, 0))
            && if |data| == 13 then p.msgId == None && p.offset == None && p.payload == []
               else |data| >= 21 && p.msgId == Some(WordAt(data, 13)) && p.offset == Some(WordAt(data, 17))
                    && p.payload == data[21..]
  {
    var p := Unpack(data).value;
    HeaderLayout(data, p);
    if |data| > 13 {
      BlockLayout(data, p);
    }
  }

  /** Why a datagram is rejected: fewer than 13 bytes, or more but fewer than 21, or else the checksum. */
  lemma RejectionIs(data: Bytes)
    ensures Unpack(data) == Err(TooShort) <==> |data| < 13
    ensures Unpack(data) == Err(Truncated) <==> 13 < |data| < 21
    ensures Unpack(data).Err? && (|data| == 13 || |data| >= 21) ==> Unpack(data) == Err(ChecksumError)
  {
  }

  /** Packets that the layout can tell apart: both reassembly fields, or none and no payload. */
  predicate Representable(p: Packet) {
    p.HasReassembly() || (p.msgId.None? && p.offset.None? && p.payload == [])
  }

  lemma ParseHeader(p: Packet, checksum: nat, rest: Bytes)
    requires Fits(p) && checksum < 0x1_0000
    requires rest == [] || |rest| >= REASSEMBLY_SIZE
    ensures var d := Header(p, checksum) + rest;
            var q := Parse(d);
            && q.seqNum == p.seqNum && q.ackNum == p.ackNum && q.flags == p.flags && q.rwnd == p.rwnd
            && ChecksumField(d) == checksum
  {
    var d := Header(p, checksum) + rest;
    assert d[..4] == U32(p.seqNum);
    assert d[4..8] == U32(p.ackNum);
    assert d[9..11] == U16(p.rwnd);
    assert d[11..13] == U16(checksum);
    DecodeEncode(p.seqNum, 4);
    DecodeEncode(p.ackNum, 4);
    DecodeEncode(p.rwnd, 2);
    DecodeEncode(checksum, 2);
  }

  lemma ParseImage(p: Packet, checksum: nat)
    requires Fits(p) && Representable(p) && checksum < 0x1_0000
    ensures Parse(Image(p, checksum)) == p && ChecksumField(Image(p, checksum)) == checksum
  {
    ParseHeader(p, checksum, Body(p));
    if p.HasReassembly() {
      ImageBody(Header(p, checksum), p);
      DecodeEncode(p.msgId.value, 4);
      DecodeEncode(p.offset.value, 4);
    }
  }

  lemma ImageBody(header: Bytes, p: Packet)
    requires |header| == 13 && Fits(p) && p.HasReassembly()
    ensures var d := header + Body(p);
            |d| >= 21 && d[13..17] == U32(p.msgId.value) && d[17..21] == U32(p.offset.value) && d[21..] == p.payload
  {
  }

  /** A packet survives the wire exactly when the layout can represent it. */
  lemma UnpackPack(p: Packet)
    requires Fits(p)
    ensures Unpack(Pack(p).value) == Ok(p) <==> Representable(p)
  {
    if Representable(p) {
      ParseImage(p, Checksum(Image(p, 0)));
    }
  }

  lemma SurvivesWire(p: Packet, d: Bytes)
    requires Representable(p) && Pack(p) == Ok(d)
    ensures Unpack(d) == Ok(p)
  {
    UnpackPack(p);
  }

  // ---- pack after unpack ---------------------------------------------------------------------

  /** The header bytes of `data` with its checksum field replaced. */
  function WithChecksum(data: Bytes, checksum: nat): Bytes
    requires |data| >= FIXED_HEADER_SIZE && checksum < 0x1_0000
  {
    data[..CHECKSUM_AT] + U16(checksum) + data[FIXED_HEADER_SIZE..]
  }

  lemma ImageOfParse(data: Bytes, checksum: nat)
    requires |data| == FIXED_HEADER_SIZE || |data| >= FIXED_HEADER_SIZE + REASSEMBLY_SIZE
    requires checksum < 0x1_0000
    ensures Image(Parse(data), checksum) == WithChecksum(data, checksum)
  {
    var p := Parse(data);
    EncodeDecode(data[..4]);
    EncodeDecode(data[4..8]);
    EncodeDecode(data[9..11]);
    assert Header(p, checksum) == data[..11] + U16(checksum) by {
      assert data[..11] == data[..4] + data[4..8] + [data[8]] + data[9..11];
    }
    if |data| > FIXED_HEADER_SIZE {
      EncodeDecode(data[13..17]);
      EncodeDecode(data[17..21]);
      assert data[13..] == data[13..17] + data[17..21] + data[21..];
    }
    assert Body(p) == data[13..];
  }

  /** Whatever `unpack` accepts packs back to the very same datagram. */
  lemma PackUnpack(data: Bytes)
    requires Unpack(data).Ok?
    ensures Pack(Unpack(data).value) == Ok(data)
    ensures Representable(Unpack(data).value)
  {
    ImageOfParse(data, ChecksumField(data));
    EncodeDecode(data[11..13]);
    assert WithChecksum(data, ChecksumField(data)) == data;
  }

  // ---- Corruption ----------------------------------------------------------------------------

  /** The checksum sees each byte with its weight. */
  lemma {:induction false} WordSumUpdate(b: Bytes, i: nat, x: Byte)
    requires i < |b|
    ensures WordSum(b[i := x]) == WordSum(b) + (x - b[i] as int) * Weight(i)
  {
    var n := |b| - 1;
    if i == n {
      assert b[i := x][..n] == b[..n];
    } else {
      assert b[i := x][..n] == b[..n][i := x];
      WordSumUpdate(b[..n], i, x);
    }
  }

  /** Two sums that differ by less than 0xFFFF, but differ, leave different residues. */
  lemma ResidueSeparates(a: nat, d: int)
    requires a + d >= 0 && d != 0 && -0xFFFF < d < 0xFFFF
    ensures (a + d) % 0xFFFF != a % 0xFFFF
  {
  }

  lemma ChecksumSeparates(b: Bytes, i: nat, x: Byte)
    requires i < |b| && x != b[i]
    ensures Checksum(b[i := x]) != Checksum(b)
  {
    WordSumUpdate(b, i, x);
    ResidueSeparates(WordSum(b), (x - b[i] as int) * Weight(i));
  }

  /** `unpack` compares the checksum field with the checksum of the datagram with that field zeroed. */
  lemma AcceptedIff(data: Bytes)
    requires |data| == FIXED_HEADER_SIZE || |data| >= FIXED_HEADER_SIZE + REASSEMBLY_SIZE
    ensures Unpack(data) == if ChecksumField(data) == Checksum(WithChecksum(data, 0)) then Ok(Parse(data))
                            else Err(ChecksumError)
  {
    ImageOfParse(data, 0);
  }

  /**
   Replacing any single byte of an accepted datagram, be it header, checksum field, reassembly
   block or payload, makes `unpack` reject it. One flipped bit is the special case where the two
   byte values differ in one binary digit.
   */
  lemma OneByteCorruptionDetected(data: Bytes, i: nat, x: Byte)
    requires Unpack(data).Ok? && i < |data| && x != data[i]
    ensures Unpack(data[i := x]) == Err(ChecksumError)
  {
    AcceptedIff(data);
    AcceptedIff(data[i := x]);
    if CHECKSUM_AT <= i < FIXED_HEADER_SIZE {
      FieldCorrupted(data, i, x);
    } else {
      ContentCorrupted(data, i, x);
    }
  }

  lemma FieldCorrupted(data: Bytes, i: nat, x: Byte)
    requires CHECKSUM_AT <= i < FIXED_HEADER_SIZE <= |data| && x != data[i]
    ensures WithChecksum(data[i := x], 0) == WithChecksum(data, 0)
    ensures ChecksumField(data[i := x]) != ChecksumField(data)
  {
    var a, b := data[11..13], data[i := x][11..13];
    assert a[i - 11] != b[i - 11];
    DecodeInjective(a, b);
  }

  lemma ContentCorrupted(data: Bytes, i: nat, x: Byte)
    requires FIXED_HEADER_SIZE <= |data| && i < |data| && !(CHECKSUM_AT <= i < FIXED_HEADER_SIZE) && x != data[i]
    ensures Checksum(WithChecksum(data[i := x], 0)) != Checksum(WithChecksum(data, 0))
    ensures ChecksumField(data[i := x]) == ChecksumField(data)
  {
    assert WithChecksum(data[i := x], 0) == WithChecksum(data, 0)[i := x];
    assert data[i := x][11..13] == data[11..13];
    ChecksumSeparates(WithChecksum(data, 0), i, x);
  }

  // ---- An example in full ---------------------------------------------------------------------

  lemma SmallWord(n: nat)
    requires n < 0x100
    ensures U32(n) == [0, 0, 0, n] && U16(n) == [0, n]
  {
    assert BigEndian(n, 1) == [n] by {
      assert BigEndian(n / 0x100, 0) == [];
    }
    assert BigEndian(0, 1) == [0] && BigEndian(0, 2) == [0, 0] && BigEndian(0, 3) == [0, 0, 0];
  }

  lemma {:induction false} WordSumSnoc(b: Bytes, x: Byte)
    ensures WordSum(b + [x]) == WordSum(b) + x * Weight(|b|)
  {
    assert (b + [x])[..|b|] == b;
  }

  lemma {:induction false} WordSumZeros(b: Bytes)
    requires forall i :: 0 <= i < |b| ==> b[i] == 0
    ensures WordSum(b) == 0
  {
    if b != [] {
      WordSumZeros(b[..|b| - 1]);
    }
  }

  lemma AckImage(p: Packet, a: Byte, w: Byte, zeros: Bytes)
    requires p == Packet(0, a, 2, w, None, None, []) && zeros == [0, 0, 0, 0, 0, 0, 0]
    ensures Image(p, 0) == zeros + [a] + [2] + [0] + [w] + [0] + [0]
  {
    SmallWord(0);
    SmallWord(a);
    SmallWord(w);
    Pieces(U32(0), U32(a), U16(w), U16(0), a, w, zeros);
    assert Body(p) == [];
  }

  lemma Pieces(seqNum: Bytes, ackNum: Bytes, rwnd: Bytes, checksum: Bytes, a: Byte, w: Byte, zeros: Bytes)
    requires seqNum == [0, 0, 0, 0] && ackNum == [0, 0, 0, a] && rwnd == [0, w] && checksum == [0, 0]
    requires zeros == [0, 0, 0, 0, 0, 0, 0]
    ensures seqNum + ackNum + [2] + rwnd + checksum == zeros + [a] + [2] + [0] + [w] + [0] + [0]
  {
  }

  lemma AckWordSum(zeros: Bytes, a: Byte, w: Byte)
    requires |zeros| == 7 && forall i :: 0 <= i < 7 ==> zeros[i] == 0
    ensures WordSum(zeros + [a] + [2] + [0] + [w] + [0] + [0]) == a as int + 0x200 + w as int * 0x100
  {
    WordSumZeros(zeros);
    WordSumSnoc(zeros, a);
    WordSumSnoc(zeros + [a], 2);
    WordSumSnoc(zeros + [a] + [2], 0);
    WordSumSnoc(zeros + [a] + [2] + [0], w);
    WordSumSnoc(zeros + [a] + [2] + [0] + [w], 0);
    WordSumSnoc(zeros + [a] + [2] + [0] + [w] + [0], 0);
  }

  lemma HalfBytes(c: nat)
    requires c < 0x1_0000
    ensures U16(c) == [c / 0x100, c % 0x100]
  {
    assert BigEndian(c / 0x100, 1) == [c / 0x100] by {
      assert BigEndian(c / 0x100 / 0x100, 0) == [];
    }
  }

  /** An acknowledgement with small numbers, as it goes over the wire, with its checksum. */
  lemma AcknowledgementBytes(a: Byte, w: Byte)
    requires w <= 64
    ensures var c := 0xFFFF - (a as int + 0x200 + w as int * 0x100);
            Pack(Packet(0, a, 2, w, None, None, [])) == Ok([0, 0, 0, 0, 0, 0, 0, a, 2, 0, w, c / 0x100, c % 0x100])
    ensures Packet(0, a, 2, w, None, None, []).IsAck()
  {
    var p, zeros := Packet(0, a, 2, w, None, None, []), [0, 0, 0, 0, 0, 0, 0];
    var c := 0xFFFF - (a as int + 0x200 + w as int * 0x100);
    AckImage(p, a, w, zeros);
    AckWordSum(zeros, a, w);
    assert Checksum(Image(p, 0)) == c;
    HalfBytes(c);
    SmallWord(0);
    SmallWord(a);
    SmallWord(w);
    assert Image(p, c) == [0, 0, 0, 0, 0, 0, 0, a, 2, 0, w, c / 0x100, c % 0x100];
  }
}
