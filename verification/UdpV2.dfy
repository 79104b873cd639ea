/** The UDP v2 datagram: a header, the pixels of one node, and a CRC-32 over both. The CRC is a parameter. */
module UdpV2 {
  import opened Util
  import opened Ddp
  import opened Fields

  const MAGIC_HIGH: Byte := 0x4C
  const MAGIC_LOW: Byte := 0x45
  const VERSION: Byte := 0x02
  const HEADER_LENGTH: nat := 14

  datatype Packet = Packet(nodeId: int, sequence: int, pixels: seq<Pixel>, flags: int, messageType: int) {
    /** What the constructor accepts. */
    predicate Legal() {
      && 1 <= nodeId <= 0xFF && 0 <= sequence < TWO_32 && 0 <= messageType <= 0xFF
      && 0 <= flags <= 0xFF && !Reserved(flags)
      && |pixels| <= 0xFFFF && ByteChannels(pixels) && 3 * |pixels| <= 0xFFFF
    }
  }

  /** Some flag other than the lowest two. */
  predicate Reserved(flags: int) { flags / 4 != 0 }

  // --- codec -------------------------------------------------------------------------------------

  function Header(p: Packet): (h: Bytes)
    ensures |h| == HEADER_LENGTH
  {
    [MAGIC_HIGH, MAGIC_LOW, VERSION, Low(p.messageType), Low(p.nodeId), Low(p.flags)]
    + Be32(p.sequence) + Be16(|p.pixels|) + Be16(3 * |p.pixels|)
  }

  function Encode(crc: Crc, p: Packet): Bytes
    requires p.Legal()
  {
    var body := Header(p) + Channels(p.pixels);
    body + Checksum(crc, body)
  }

  /** What the receiver insists on beyond the format. */
  datatype Filter = Filter(node: Option<int>, minSequence: Option<int>, maxPayload: int) {
    predicate Passes(nodeId: int, sequence: int, length: int) {
      && (node.Some? ==> nodeId == node.value) && (minSequence.Some? ==> sequence >= minSequence.value)
      && length <= maxPayload
    }
  }

  const ANY: Filter := Filter(None, None, MAX_UDP_PAYLOAD)

  function Decode(crc: Crc, d: Bytes, f: Filter): Option<Packet> {
    if |d| < HEADER_LENGTH + CRC_LENGTH || |d| > f.maxPayload then None
    else
      var messageType, nodeId, flags := d[3] as int, d[4] as int, d[5] as int;
      var sequence, count, length := From32(d[6..10]), From16(d[10..12]), From16(d[12..14]);
      if d[..3] != [MAGIC_HIGH, MAGIC_LOW, VERSION] || Reserved(flags) then None
      else if f.node.Some? && nodeId != f.node.value then None
      else if f.minSequence.Some? && sequence < f.minSequence.value then None
      else if length != count * 3 || |d| != HEADER_LENGTH + length + CRC_LENGTH then None
      else if From32(d[|d| - 4..]) != crc(d[..|d| - 4]) % TWO_32 then None
      else
        var p := Packet(nodeId, sequence, PixelsOf(d[14..14 + length]), flags, messageType);
        if p.Legal() then Some(p) else None
  }

  // --- main results ------------------------------------------------------------------------------

  /** The fields of an encoded packet, where the decoder looks for them. */
  lemma EncodedFields(crc: Crc, p: Packet)
    requires p.Legal()
    ensures var d := Encode(crc, p); var n := 3 * |p.pixels|;
      && |d| == 18 + n && d[..3] == [MAGIC_HIGH, MAGIC_LOW, VERSION]
      && d[3] == p.messageType && d[4] == p.nodeId && d[5] == p.flags
      && d[6..10] == Be32(p.sequence) && d[10..12] == Be16(|p.pixels|) && d[12..14] == Be16(n)
      && d[14..14 + n] == Channels(p.pixels)
      && d[|d| - 4..] == Checksum(crc, d[..|d| - 4])
  {
    hide Be32, Be16, Channels, Checksum;
    var h, c := Header(p), Channels(p.pixels);
    var body := h + c;
    var d := Encode(crc, p);
    assert d[..|d| - 4] == body;
    assert d[..14] == h;
    assert d[14..14 + |c|] == c;
    assert h[6..10] == Be32(p.sequence) && h[10..12] == Be16(|p.pixels|) && h[12..14] == Be16(3 * |p.pixels|);
    assert d[6..10] == h[6..10] && d[10..12] == h[10..12] && d[12..14] == h[12..14];
    assert d[..3] == h[..3];
  }

  /** Each byte of an encoded packet. */
  lemma DatagramBytes(crc: Crc, p: Packet)
    requires p.Legal()
    ensures var d, n := Encode(crc, p), |p.pixels|;
      && |d| == 18 + 3 * n && d[0] == 0x4C && d[1] == 0x45 && d[2] == 0x02
      && d[3] as int == p.messageType && d[4] as int == p.nodeId && d[5] as int == p.flags
      && BigEndian(d[6..10]) == p.sequence && BigEndian(d[10..12]) == n && BigEndian(d[12..14]) == 3 * n
      && (forall c :: 0 <= c < 3 * n ==> d[c + 14] as int == ChannelAt(p.pixels, c))
      && BigEndian(d[14 + 3 * n..]) == crc(d[..14 + 3 * n]) % 0x1_0000_0000
  {
    hide Be32, Be16, Channels, BigEndian, ChannelAt, Checksum, Header;
    var d, n := Encode(crc, p), |p.pixels|;
    EncodedFields(crc, p);
    assert d[0] == d[..3][0] && d[1] == d[..3][1] && d[2] == d[..3][2];
    FieldsAreBigEndian(p.sequence);
    FieldsAreBigEndian(n);
    FieldsAreBigEndian(3 * n);
    ChecksumIsBigEndian(crc, d[..14 + 3 * n]);
    forall c | 0 <= c < 3 * n
      ensures d[c + 14] as int == ChannelAt(p.pixels, c)
    {
      ChannelsAre(p.pixels, c);
      assert d[14..14 + 3 * n][c] == Channels(p.pixels)[c];
    }
  }

  /** A legal packet comes back exactly if the filter lets it through, and is refused otherwise. */
  lemma DecodeInvertsEncode(crc: Crc, p: Packet, f: Filter)
    requires p.Legal()
    ensures Decode(crc, Encode(crc, p), f)
            == if f.Passes(p.nodeId, p.sequence, 18 + 3 * |p.pixels|) then Some(p) else None
  {
    hide Be32, Be16, From32, From16, Channels, Encode, PixelsOf;
    EncodedFields(crc, p);
    Field32ReadsBack(p.sequence);
    Field16ReadsBack(|p.pixels|);
    Field16ReadsBack(3 * |p.pixels|);
    var d := Encode(crc, p);
    Field32ReadsBack(crc(d[..|d| - 4]) % TWO_32);
    PixelsOfChannels(p.pixels);
  }

  /** With nothing to filter but the largest datagram, a legal packet comes back if and only if it has at most 21829
      pixels; the constructor and the encoder let 16 longer lengths through. */
  lemma FitsIff(crc: Crc, p: Packet)
    requires p.Legal()
    ensures Decode(crc, Encode(crc, p), ANY) == Some(p) <==> |p.pixels| <= 21829
    ensures |p.pixels| <= 21845
  {
    DecodeInvertsEncode(crc, p, ANY);
  }

  /** Such a packet: 21830 black pixels. */
  lemma TooLongForOneDatagram(crc: Crc)
    ensures var p := Packet(1, 0, seq(21830, i => Pixel(0, 0, 0)), 0, 1);
      p.Legal() && Decode(crc, Encode(crc, p), ANY) == None
  {
    var p := Packet(1, 0, seq(21830, i => Pixel(0, 0, 0)), 0, 1);
    DecodeInvertsEncode(crc, p, ANY);
  }

  /** Every accepted datagram is the encoding of what it decodes to: nothing in it is ignored. */
  lemma EncodeInvertsDecode(crc: Crc, d: Bytes, f: Filter)
    requires Decode(crc, d, f).Some?
    ensures var p := Decode(crc, d, f).value;
      && p.Legal() && Encode(crc, p) == d
      && f.Passes(p.nodeId, p.sequence, |d|)
  {
    hide Be32, Be16, From32, From16, Channels, PixelsOf, Decode, Header, Checksum;
    var p := Decode(crc, d, f).value;
    DecodedFields(crc, d, f);
    var n := From16(d[12..14]);
    Field16WritesBack(d[12..14]);
    Field32WritesBack(d[|d| - 4..]);
    ChannelsOfPixels(d[14..14 + n]);
    HeaderOfFields(p, d);
    assert d[..|d| - 4] == d[..14] + d[14..14 + n];
    assert d == d[..|d| - 4] + d[|d| - 4..];
    ChecksumWritesBack(crc, d);
  }

  /** What the decoder has checked about an accepted datagram. */
  lemma DecodedFields(crc: Crc, d: Bytes, f: Filter)
    requires Decode(crc, d, f).Some?
    ensures var p := Decode(crc, d, f).value; var n := From16(d[12..14]);
      && p.Legal() && |d| == 18 + n && n == 3 * From16(d[10..12]) && n >= 0
      && d[..3] == [MAGIC_HIGH, MAGIC_LOW, VERSION]
      && p.messageType == d[3] && p.nodeId == d[4] && p.flags == d[5]
      && p.sequence == From32(d[6..10]) && p.pixels == PixelsOf(d[14..14 + n])
      && From32(d[|d| - 4..]) == crc(d[..|d| - 4]) % TWO_32
      && f.Passes(p.nodeId, p.sequence, |d|)
  {
    hide Be32, Be16, From32, Channels, PixelsOf;
  }

  lemma HeaderOfFields(p: Packet, d: Bytes)
    requires p.Legal() && |d| >= 14 && d[..3] == [MAGIC_HIGH, MAGIC_LOW, VERSION]
    requires p.messageType == d[3] && p.nodeId == d[4] && p.flags == d[5] && p.sequence == From32(d[6..10])
    requires |p.pixels| == From16(d[10..12]) && 3 * |p.pixels| == From16(d[12..14])
    ensures Header(p) == d[..14]
  {
    hide Be32, Be16, From32, From16;
    Field32WritesBack(d[6..10]);
    Field16WritesBack(d[10..12]);
    Field16WritesBack(d[12..14]);
    assert d[..14] == d[..3] + [d[3], d[4], d[5]] + d[6..10] + d[10..12] + d[12..14];
  }

  /** Two legal packets with one encoding are one packet, however long they are. */
  lemma EncodeIsInjective(crc: Crc, p: Packet, q: Packet)
    requires p.Legal() && q.Legal() && Encode(crc, p) == Encode(crc, q)
    ensures p == q
  {
    var wide := Filter(None, None, 0x2_0000);
    DecodeInvertsEncode(crc, p, wide);
    DecodeInvertsEncode(crc, q, wide);
  }
}
