/** The fixed 16-byte RS-485 v2 frame: encoder, decoder, and what the checksum buys. */
module Rs485 {
  import opened Util
  import opened Bits16
  import opened Crc16
  import opened CrcDivision
  import opened CrcDetection
  import opened CrcBursts
  import opened CrcParity
  import opened CrcPairs

  const SYNC: Bytes := [0xA5, 0x5A]
  const VERSION: Byte := 0x02
  const FRAME_LENGTH: nat := 16
  const MIN_NODE_ID: Byte := 1
  const MAX_NODE_ID: Byte := 6

  /** A command to one analog node. Field widths are those that the constructor enforces. */
  datatype Packet = Packet(
    nodeId: Byte, sequence: bv32, r: Byte, g: Byte, b: Byte, warmWhite: Byte, coolWhite: Byte,
    fadeMs: bv16, flags: Byte, command: Byte)
  {
    /** The one constructor check that the field widths do not already make. */
    predicate Legal() { MIN_NODE_ID <= nodeId <= MAX_NODE_ID }

    /** The frame carries only the low byte of the sequence number. */
    function OnWire(): Packet { this.(sequence := sequence & 0xFF) }
  }

  function Body(p: Packet): Bytes {
    [ SYNC[0], SYNC[1], VERSION, p.command, p.nodeId, LowByte32(p.sequence), p.r, p.g, p.b,
      p.warmWhite, p.coolWhite, HighByte(p.fadeMs), LowByte(p.fadeMs), p.flags ]
  }

  function HighByte(x: bv16): Byte { ((x >> 8) & 0xFF) as Byte }

  function LowByte(x: bv16): Byte { (x & 0xFF) as Byte }

  function LowByte32(x: bv32): Byte { (x & 0xFF) as Byte }

  function Encode(p: Packet): (d: Bytes)
    ensures |d| == FRAME_LENGTH
  {
    var crc := Crc(Body(p));
    Body(p) + [HighByte(crc), LowByte(crc)]
  }

  function Decode(data: Bytes, expectedNodeId: Option<Byte>, expectedCommand: Option<Byte>): Option<Packet> {
    if |data| != FRAME_LENGTH then None
    else if data[..2] != SYNC || data[2] != VERSION then None
    else if Crc(data[..14]) != Xor(High(data[14]), Low(data[15])) then None
    else if expectedCommand.Some? && data[3] != expectedCommand.value then None
    else if expectedNodeId.Some? && data[4] != expectedNodeId.value then None
    else if !(MIN_NODE_ID <= data[4] <= MAX_NODE_ID) then None
    else Some(Fields(data))
  }

  function Fields(data: Bytes): Packet
    requires |data| == FRAME_LENGTH
  {
    Packet(data[4], data[5] as bv32, data[6], data[7], data[8], data[9], data[10],
           Xor(High(data[11]), Low(data[12])), data[13], data[3])
  }

  // --- round trips -------------------------------------------------------------------------------

  lemma SplitAndJoin(x: bv16)
    ensures Xor(High(HighByte(x)), Low(LowByte(x))) == x
  {
  }

  lemma JoinAndSplit(hi: Byte, lo: Byte)
    ensures HighByte(Xor(High(hi), Low(lo))) == hi && LowByte(Xor(High(hi), Low(lo))) == lo
  {
  }

  lemma LowByteOfSequence(x: bv32, b: Byte)
    ensures LowByte32(x) as bv32 == x & 0xFF
    ensures LowByte32(b as bv32) == b && (b as bv32) & 0xFF == b as bv32
  {
  }

  lemma FieldsOfEncode(p: Packet)
    ensures Fields(Encode(p)) == p.OnWire()
  {
    hide Xor, High, Low, HighByte, LowByte, LowByte32, CrcFrom;
    SplitAndJoin(p.fadeMs);
    LowByteOfSequence(p.sequence, 0);
  }

  lemma EncodeLayout(p: Packet)
    ensures var d := Encode(p);
      && d[..14] == Body(p) && d[..2] == SYNC && d[2] == VERSION && d[3] == p.command && d[4] == p.nodeId
      && d[14] == HighByte(Crc(Body(p))) && d[15] == LowByte(Crc(Body(p)))
  {
    hide Crc, HighByte, LowByte, LowByte32;
    assert Encode(p)[..14] == Body(p);
  }

  lemma BodyOfFields(data: Bytes)
    requires |data| == FRAME_LENGTH && data[..2] == SYNC && data[2] == VERSION
    ensures Body(Fields(data)) == data[..14]
  {
    hide Xor, High, Low, HighByte, LowByte, LowByte32, CrcFrom;
    JoinAndSplit(data[11], data[12]);
    LowByteOfSequence(0, data[5]);
    assert data[0] == data[..2][0] && data[1] == data[..2][1];
  }

  /** A frame made by the encoder decodes to the packet, its sequence number reduced to one byte, for every
      node or command filter that the packet meets. */
  lemma DecodeInvertsEncode(p: Packet, node: Option<Byte>, command: Option<Byte>)
    requires p.Legal()
    requires node.Some? ==> node.value == p.nodeId
    requires command.Some? ==> command.value == p.command
    ensures Decode(Encode(p), node, command) == Some(p.OnWire())
  {
    hide Xor, High, Low, HighByte, LowByte, Crc, Fields, Encode, Body;
    EncodeLayout(p);
    SplitAndJoin(Crc(Body(p)));
    FieldsOfEncode(p);
  }

  /** Every accepted frame is exactly the encoding of the packet it decodes to. */
  lemma EncodeInvertsDecode(data: Bytes, node: Option<Byte>, command: Option<Byte>)
    requires Decode(data, node, command).Some?
    ensures var p := Decode(data, node, command).value; Encode(p) == data && p.Legal() && p.OnWire() == p
  {
    hide Xor, High, Low, HighByte, LowByte, LowByte32, CrcFrom, Body;
    BodyOfFields(data);
    JoinAndSplit(data[14], data[15]);
    LowByteOfSequence(0, data[5]);
    assert data == data[..14] + [data[14], data[15]];
  }

  // --- the frame on the wire ---------------------------------------------------------------------

  /** Two bytes, the higher first. */
  function Joined(hi: Byte, lo: Byte): bv16 { ((hi as bv16) << 8) | (lo as bv16) }

  /** The last two bytes are the checksum of the others: the remainder of their polynomial. */
  predicate ChecksumHolds(data: Bytes)
    requires |data| == 16
  {
    Digits(Joined(data[14], data[15])) == Remainder(Dividend(data[..14]))
  }

  lemma JoinedIsXor(hi: Byte, lo: Byte)
    ensures Joined(hi, lo) == Xor(High(hi), Low(lo))
  {
  }

  lemma HalvesJoin(x: bv16)
    ensures Joined(HighByte(x), LowByte(x)) == x
  {
  }

  /** Each byte of an encoded packet. */
  lemma FrameBytes(p: Packet)
    ensures var d := Encode(p);
      && |d| == 16 && d[0] == 0xA5 && d[1] == 0x5A && d[2] == 0x02 && d[3] == p.command && d[4] == p.nodeId
      && (d[5] as bv32) == p.sequence & 0xFF
      && d[6] == p.r && d[7] == p.g && d[8] == p.b && d[9] == p.warmWhite && d[10] == p.coolWhite
      && Joined(d[11], d[12]) == p.fadeMs && d[13] == p.flags
      && ChecksumHolds(d)
  {
    hide HighByte, LowByte, LowByte32, Joined, Digits, Remainder, Dividend, CrcFrom;
    EncodeLayout(p);
    HalvesJoin(p.fadeMs);
    HalvesJoin(Crc(Body(p)));
    LowByteOfSequence(p.sequence, 0);
    CrcIsRemainder(Body(p));
  }

  /** Which byte strings the decoder accepts. */
  lemma AcceptedIff(data: Bytes, node: Option<Byte>, command: Option<Byte>)
    ensures Decode(data, node, command).Some? <==>
      && |data| == 16 && data[0] == 0xA5 && data[1] == 0x5A && data[2] == 0x02
      && ChecksumHolds(data) && 1 <= data[4] <= 6
      && (node.Some? ==> data[4] == node.value) && (command.Some? ==> data[3] == command.value)
  {
    hide Joined, Digits, Remainder, Dividend, CrcFrom, Xor, High, Low, Fields;
    if |data| == 16 {
      assert data[..2] == [data[0], data[1]];
      JoinedIsXor(data[14], data[15]);
      CrcIsRemainder(data[..14]);
      if ChecksumHolds(data) {
        DigitsTell(Joined(data[14], data[15]), Crc(data[..14]));
      }
    }
  }

  // --- error detection ---------------------------------------------------------------------------

  /** An accepted frame leaves the register at zero. */
  lemma AcceptedHasZeroResidue(data: Bytes, node: Option<Byte>, command: Option<Byte>)
    requires Decode(data, node, command).Some?
    ensures CrcFrom(PRESET, data) == 0
  {
    hide Xor, High, Low, CrcFrom;
    assert data == data[..14] + [data[14], data[15]];
    ZeroResidue(PRESET, data[..14], data[14], data[15]);
  }

  /** If a frame is accepted, any corruption confined to two adjacent bytes makes it unacceptable, whatever the
      filters. */
  lemma TwoByteCorruptionIsRejected(
      good: Bytes, bad: Bytes, at: nat,
      node: Option<Byte>, command: Option<Byte>, node': Option<Byte>, command': Option<Byte>)
    requires Decode(good, node, command).Some?
    requires |bad| == |good| && at + 1 < |good| && bad != good
    requires forall i :: 0 <= i < |good| && i != at && i != at + 1 ==> bad[i] == good[i]
    ensures Decode(bad, node', command').None?
  {
    hide CrcFrom, Decode, Xor;
    var p, s := good[..at], good[at + 2..];
    assert good == p + [good[at], good[at + 1]] + s;
    assert bad == p + [bad[at], bad[at + 1]] + s;
    AcceptedHasZeroResidue(good, node, command);
    TwoByteBurstChangesCrc(PRESET, p, good[at], good[at + 1], bad[at], bad[at + 1], s);
    if Decode(bad, node', command').Some? {
      AcceptedHasZeroResidue(bad, node', command');
    }
  }

  /** If a frame is accepted, any corruption confined to sixteen consecutive bits makes it unacceptable: those that
      start `8 - j` bits into byte `at`, and so reach into the two bytes after it. */
  lemma BurstCorruptionIsRejected(
      good: Bytes, bad: Bytes, at: nat, j: nat,
      node: Option<Byte>, command: Option<Byte>, node': Option<Byte>, command': Option<Byte>)
    requires Decode(good, node, command).Some?
    requires |bad| == |good| && at + 2 < |good| && bad != good
    requires forall i :: 0 <= i < |good| && !(at <= i <= at + 2) ==> bad[i] == good[i]
    requires IsBurst(good[at] ^ bad[at], good[at + 2] ^ bad[at + 2], j)
    ensures Decode(bad, node', command').None?
  {
    hide CrcFrom, Decode, Xor, IsBurst;
    var p, s := good[..at], good[at + 3..];
    assert good == p + [good[at], good[at + 1], good[at + 2]] + s;
    assert bad == p + [bad[at], bad[at + 1], bad[at + 2]] + s;
    AcceptedHasZeroResidue(good, node, command);
    BurstChangesCrc(
      PRESET, p, good[at], good[at + 1], good[at + 2], bad[at], bad[at + 1], bad[at + 2], s, j);
    if Decode(bad, node', command').Some? {
      AcceptedHasZeroResidue(bad, node', command');
    }
  }

  /** If a frame is accepted, flipping any odd number of its bits makes it unacceptable. */
  lemma OddCorruptionIsRejected(
      good: Bytes, bad: Bytes, node: Option<Byte>, command: Option<Byte>, node': Option<Byte>, command': Option<Byte>)
    requires Decode(good, node, command).Some?
    requires |bad| == |good| && FlippedBits(good, bad) % 2 == 1
    ensures Decode(bad, node', command').None?
  {
    hide CrcFrom, Decode, FlippedBits;
    AcceptedHasZeroResidue(good, node, command);
    OddFlipsChangeCrc(PRESET, good, bad);
    if Decode(bad, node', command').Some? {
      AcceptedHasZeroResidue(bad, node', command');
    }
  }

  /** If a frame is accepted, flipping any one, two or three of its bits makes it unacceptable. */
  lemma UpToThreeFlipsAreRejected(
      good: Bytes, bad: Bytes, node: Option<Byte>, command: Option<Byte>, node': Option<Byte>, command': Option<Byte>)
    requires Decode(good, node, command).Some?
    requires |bad| == |good| && 1 <= FlippedBits(good, bad) <= 3
    ensures Decode(bad, node', command').None?
  {
    hide CrcFrom, FlippedBits;
    if FlippedBits(good, bad) == 2 {
      AcceptedHasZeroResidue(good, node, command);
      TwoFlipsChangeCrc(PRESET, good, bad);
      if Decode(bad, node', command').Some? {
        AcceptedHasZeroResidue(bad, node', command');
      }
    } else {
      OddCorruptionIsRejected(good, bad, node, command, node', command');
    }
  }
}
