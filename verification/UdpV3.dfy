/** The UDP v3 codec: one node's complete frame, or ranges of its outputs, behind one header. */
module UdpV3 {
  import opened Util
  import opened Ddp
  import opened Fields
  import opened Lists

  const MAGIC: Bytes := [0x4C, 0x45]
  const VERSION: Byte := 0x03
  const HEADER_LENGTH: nat := 29
  const OUTPUT_LENGTH: nat := 6
  const CHUNK_LENGTH: nat := 10
  const MAX_UINT16: int := 0xFFFF

  datatype Kind = FRAME | CHUNK {
    function MessageType(): Byte { if FRAME? then 0x01 else 0x03 }

    /** The bytes before the pixels of one part. */
    function PartHeaderLength(): nat { if FRAME? then OUTPUT_LENGTH else CHUNK_LENGTH }
  }

  /** What makes two datagrams belong to one frame. */
  datatype Identity = Identity(sequence: int, mediaUs: int, applyAtUs: Option<int>, flags: int) {
    predicate Legal() {
      && 0 <= sequence < TWO_32 && 0 <= mediaUs <= MAX_UINT64
      && (applyAtUs.Some? ==> 1 <= applyAtUs.value <= MAX_UINT64)
      && 0 <= flags < 8 && (flags >= 4 <==> applyAtUs.Some?)
    }

    predicate IsKey() { (flags / 2) % 2 == 1 }

    /** The deadline on the wire; zero stands for none. */
    function DeadlineField(): int { if applyAtUs.Some? then applyAtUs.value else 0 }
  }

  /** A range of one output's pixels. A whole output is the range that starts at 0 and is as long as the output. */
  datatype Part = Part(outputId: int, gpio: int, total: int, offset: int, pixels: seq<Pixel>) {
    /** What the constructors of outputs and chunks accept. */
    predicate Legal(kind: Kind) {
      && 1 <= outputId <= 0xFF && 0 <= gpio <= 0xFF && ByteChannels(pixels)
      && match kind
         case FRAME => offset == 0 && total == |pixels| <= MAX_UINT16
         case CHUNK =>
           && 1 <= total <= MAX_UINT16 && 0 <= offset && pixels != [] && offset + |pixels| <= total
           && 3 * |pixels| <= MAX_UINT16
    }
  }

  function PartIds(parts: seq<Part>): (r: seq<int>)
    ensures |r| == |parts|
  {
    seq(|parts|, i requires 0 <= i < |parts| => parts[i].outputId)
  }

  function PartGpios(parts: seq<Part>): (r: seq<int>)
    ensures |r| == |parts|
  {
    seq(|parts|, i requires 0 <= i < |parts| => parts[i].gpio)
  }

  predicate PartsLegal(kind: Kind, parts: seq<Part>) {
    && (forall i :: 0 <= i < |parts| ==> parts[i].Legal(kind))
    && Distinct(PartIds(parts)) && Distinct(PartGpios(parts))
  }

  /** A frame or a chunk packet of one node. */
  datatype Packet = Packet(kind: Kind, nodeId: int, id: Identity, parts: seq<Part>) {
    /** What the constructors accept. */
    predicate Legal() {
      && 1 <= nodeId <= 0xFF && id.Legal() && 1 <= |parts| <= 3 && PartsLegal(kind, parts)
      && (kind.CHUNK? ==> |Body(kind, parts)| <= MAX_UINT16)
    }

    /** A complete frame may be too long for its length field. */
    predicate Encodable() { Legal() && |Body(kind, parts)| <= MAX_UINT16 }
  }

  // --- encoding ----------------------------------------------------------------------------------

  function PartHeader(kind: Kind, p: Part): (r: Bytes)
    ensures |r| == kind.PartHeaderLength()
  {
    var counts := Be16(|p.pixels|) + Be16(3 * |p.pixels|);
    match kind
    case FRAME => [Low(p.outputId), Low(p.gpio)] + counts
    case CHUNK => [Low(p.outputId), Low(p.gpio)] + Be16(p.total) + Be16(p.offset) + counts
  }

  function PartBytes(kind: Kind, p: Part): (r: Bytes)
    ensures |r| == kind.PartHeaderLength() + 3 * |p.pixels|
  {
    PartHeader(kind, p) + Channels(p.pixels)
  }

  function Body(kind: Kind, parts: seq<Part>): Bytes {
    if parts == [] then [] else Body(kind, parts[..|parts| - 1]) + PartBytes(kind, parts[|parts| - 1])
  }

  function Head(kind: Kind, nodeId: int, id: Identity, count: nat, length: nat): (r: Bytes)
    ensures |r| == HEADER_LENGTH
  {
    MAGIC + [VERSION, kind.MessageType(), Low(nodeId), Low(id.flags)] + Be32(id.sequence) + Be64(id.mediaUs)
    + Be64(id.DeadlineField()) + [Low(count)] + Be16(length)
  }

  function Encode(crc: Crc, p: Packet): (d: Bytes)
    ensures |d| == HEADER_LENGTH + |Body(p.kind, p.parts)| + CRC_LENGTH
  {
    var payload := Body(p.kind, p.parts);
    var raw := Head(p.kind, p.nodeId, p.id, |p.parts|, |payload|) + payload;
    raw + Checksum(crc, raw)
  }

  /** Both encoders; a complete frame that does not fit its length field raises. */
  method EncodePacket(crc: Crc, p: Packet) returns (r: Option<Bytes>)
    requires p.Legal()
    ensures r == if p.Encodable() then Some(Encode(crc, p)) else None
  {
    hide PartBytes, Head, Checksum;
    var payload: Bytes := [];
    for i := 0 to |p.parts|
      invariant payload == Body(p.kind, p.parts[..i])
    {
      assert p.parts[..i + 1][..i] == p.parts[..i];
      payload := payload + PartBytes(p.kind, p.parts[i]);
    }
    assert p.parts[..|p.parts|] == p.parts;
    if |payload| > MAX_UINT16 {
      return None;
    }
    var raw := Head(p.kind, p.nodeId, p.id, |p.parts|, |payload|) + payload;
    return Some(raw + Checksum(crc, raw));
  }

  // --- parts in a payload ------------------------------------------------------------------------

  /** One part, read where it starts in a payload, with the checks that the decoders make on it alone. */
  function ReadPart(kind: Kind, payload: Bytes, cursor: nat): Option<Part> {
    var h := kind.PartHeaderLength();
    if cursor + h > |payload| then None
    else
      var header := payload[cursor..cursor + h];
      var count, length := From16(header[h - 4..h - 2]), From16(header[h - 2..]);
      var total := if kind.CHUNK? then From16(header[2..4]) else count;
      var offset := if kind.CHUNK? then From16(header[4..6]) else 0;
      if header[0] == 0 || length != count * 3 || cursor + h + length > |payload| then None
      else if kind.CHUNK? && (total == 0 || count == 0 || offset + count > total) then None
      else Some(Part(header[0], header[1], total, offset, PixelsOf(payload[cursor + h..cursor + h + length])))
  }

  predicate StandsAt(kind: Kind, p: Part, payload: Bytes, cursor: nat) {
    var n := |PartBytes(kind, p)|;
    cursor + n <= |payload| && payload[cursor..cursor + n] == PartBytes(kind, p)
  }

  lemma ByteField(x: int)
    requires 0 <= x <= 0xFF
    ensures Low(x) == x
  {
  }

  lemma PartHeaderReads(kind: Kind, p: Part)
    requires p.Legal(kind) && 3 * |p.pixels| <= MAX_UINT16
    ensures var header, h := PartHeader(kind, p), kind.PartHeaderLength();
      && header[0] == p.outputId && header[1] == p.gpio
      && From16(header[h - 4..h - 2]) == |p.pixels| && From16(header[h - 2..]) == 3 * |p.pixels|
      && (kind.CHUNK? ==> From16(header[2..4]) == p.total && From16(header[4..6]) == p.offset)
  {
    hide Be16, From16, Low, ByteChannels;
    ByteField(p.outputId);
    ByteField(p.gpio);
    Field16ReadsBack(|p.pixels|);
    Field16ReadsBack(3 * |p.pixels|);
    var header, h := PartHeader(kind, p), kind.PartHeaderLength();
    assert header[h - 4..h - 2] == Be16(|p.pixels|) && header[h - 2..] == Be16(3 * |p.pixels|);
    if kind.CHUNK? {
      Field16ReadsBack(p.total);
      Field16ReadsBack(p.offset);
      assert header[2..4] == Be16(p.total) && header[4..6] == Be16(p.offset);
    }
  }

  /** A part that stands in a payload is read back. */
  lemma ReadPartInverts(kind: Kind, p: Part, payload: Bytes, cursor: nat)
    requires p.Legal(kind) && 3 * |p.pixels| <= MAX_UINT16 && StandsAt(kind, p, payload, cursor)
    ensures ReadPart(kind, payload, cursor) == Some(p)
  {
    hide PartHeader, From16, Channels, PixelsOf, ByteChannels;
    var h, n := kind.PartHeaderLength(), |PartBytes(kind, p)|;
    PartHeaderReads(kind, p);
    PixelsOfChannels(p.pixels);
    var all := payload[cursor..cursor + n];
    assert payload[cursor..cursor + h] == all[..h] == PartHeader(kind, p);
    assert payload[cursor + h..cursor + n] == all[h..] == Channels(p.pixels);
  }

  lemma PartHeaderWrites(kind: Kind, p: Part, header: Bytes)
    requires |header| == kind.PartHeaderLength()
    requires var h := |header|;
      && header[0] == p.outputId && header[1] == p.gpio
      && From16(header[h - 4..h - 2]) == |p.pixels| && From16(header[h - 2..]) == 3 * |p.pixels|
      && (kind.CHUNK? ==> From16(header[2..4]) == p.total && From16(header[4..6]) == p.offset)
    ensures PartHeader(kind, p) == header
    ensures 0 <= |p.pixels| <= MAX_UINT16 && 3 * |p.pixels| <= MAX_UINT16
    ensures kind.CHUNK? ==> 0 <= p.total <= MAX_UINT16 && 0 <= p.offset
  {
    hide Be16, From16, Low;
    var h := |header|;
    ByteField(p.outputId);
    ByteField(p.gpio);
    Field16WritesBack(header[h - 4..h - 2]);
    Field16WritesBack(header[h - 2..]);
    if kind.CHUNK? {
      Field16WritesBack(header[2..4]);
      Field16WritesBack(header[4..6]);
      assert header == [header[0], header[1]] + header[2..4] + header[4..6] + header[6..8] + header[8..];
    } else {
      assert header == [header[0], header[1]] + header[2..4] + header[4..];
    }
  }

  /** What is read as a part stands there, and is legal. */
  lemma ReadPartIsThere(kind: Kind, payload: Bytes, cursor: nat)
    requires ReadPart(kind, payload, cursor).Some?
    ensures var p := ReadPart(kind, payload, cursor).value;
      p.Legal(kind) && 3 * |p.pixels| <= MAX_UINT16 && StandsAt(kind, p, payload, cursor)
  {
    hide PartHeader, From16, Channels, PixelsOf, ByteChannels;
    var p, h := ReadPart(kind, payload, cursor).value, kind.PartHeaderLength();
    var header := payload[cursor..cursor + h];
    var length := From16(header[h - 2..]);
    Field16WritesBack(header[h - 2..]);
    var channels := payload[cursor + h..cursor + h + length];
    ChannelsOfPixels(channels);
    PartHeaderWrites(kind, p, header);
    assert payload[cursor..cursor + h + length] == header + channels;
  }

  /** Where part i of a payload stands. */
  lemma {:induction false} PartStands(kind: Kind, parts: seq<Part>, i: nat)
    requires i < |parts|
    ensures StandsAt(kind, parts[i], Body(kind, parts), |Body(kind, parts[..i])|)
    ensures Body(kind, parts[..i + 1]) == Body(kind, parts[..i]) + PartBytes(kind, parts[i])
    decreases |parts|
  {
    hide PartBytes, StandsAt;
    assert parts[..i + 1][..i] == parts[..i];
    var init, last := parts[..|parts| - 1], PartBytes(kind, parts[|parts| - 1]);
    if i < |init| {
      PartStands(kind, init, i);
      assert init[..i] == parts[..i];
      StillStands(kind, parts[i], Body(kind, init), last, |Body(kind, parts[..i])|);
    } else {
      assert parts[..i] == init;
      StandsLast(kind, parts[i], Body(kind, init));
    }
  }

  lemma StillStands(kind: Kind, p: Part, payload: Bytes, rest: Bytes, cursor: nat)
    requires StandsAt(kind, p, payload, cursor)
    ensures StandsAt(kind, p, payload + rest, cursor)
  {
    hide PartBytes;
  }

  lemma StandsLast(kind: Kind, p: Part, payload: Bytes)
    ensures StandsAt(kind, p, payload + PartBytes(kind, p), |payload|)
  {
    hide PartBytes;
  }

  /** Parsing a payload from the left finds its parts. */
  lemma PartIsRead(kind: Kind, parts: seq<Part>, i: nat)
    requires i < |parts| && PartsLegal(kind, parts) && |Body(kind, parts)| <= MAX_UINT16
    ensures ReadPart(kind, Body(kind, parts), |Body(kind, parts[..i])|) == Some(parts[i])
  {
    hide ReadPart, Body, Distinct;
    PartStands(kind, parts, i);
    ReadPartInverts(kind, parts[i], Body(kind, parts), |Body(kind, parts[..i])|);
  }

  // --- decoding ----------------------------------------------------------------------------------

  /** One output that a receiver expects. */
  datatype Expected = Expected(outputId: int, gpio: int, pixelCount: int)

  /** What a receiver insists on beyond the format; the chunk decoder has only the node and the size. */
  datatype Filter = Filter(
    node: Option<int>, minSequence: Option<int>, outputs: Option<seq<Expected>>, maxPayload: int)
  {
    predicate Passes(p: Packet, length: int) {
      && (node.Some? ==> p.nodeId == node.value)
      && (minSequence.Some? ==> p.id.sequence >= minSequence.value)
      && (outputs.Some? ==> IsExpected(p.parts, outputs.value))
      && length <= maxPayload
    }
  }

  const ANY: Filter := Filter(None, None, None, MAX_UDP_PAYLOAD)

  function Lookup(expected: seq<Expected>, id: int): Option<Expected> {
    if expected == [] then None
    else if expected[|expected| - 1].outputId == id then Some(expected[|expected| - 1])
    else Lookup(expected[..|expected| - 1], id)
  }

  /** The part is one of the expected outputs, with its pin and its length. */
  predicate Matches(p: Part, expected: seq<Expected>) {
    Lookup(expected, p.outputId) == Some(Expected(p.outputId, p.gpio, p.total))
  }

  /** The parts are the expected outputs, no less and no more. */
  predicate IsExpected(parts: seq<Part>, expected: seq<Expected>) {
    && (forall i :: 0 <= i < |parts| ==> Matches(parts[i], expected))
    && (forall e <- expected :: e.outputId in PartIds(parts))
  }

  /** The packet of this kind whose encoding the datagram is, if there is one and it passes the filter. */
  ghost predicate IsEncoding(crc: Crc, kind: Kind, d: Bytes, f: Filter, p: Packet) {
    p.kind == kind && p.Encodable() && Encode(crc, p) == d && f.Passes(p, |d|)
  }

  ghost function Decoded(crc: Crc, kind: Kind, d: Bytes, f: Filter): Option<Packet> {
    if exists p :: IsEncoding(crc, kind, d, f, p) then
      var p :| IsEncoding(crc, kind, d, f, p);
      Some(p)
    else None
  }

  // --- the header --------------------------------------------------------------------------------

  lemma HeadFields(kind: Kind, nodeId: int, id: Identity, count: nat, length: nat)
    ensures var h := Head(kind, nodeId, id, count, length);
      && h[..3] == MAGIC + [VERSION] && h[3] == kind.MessageType() && h[4] == Low(nodeId) && h[5] == Low(id.flags)
      && h[6..10] == Be32(id.sequence) && h[10..18] == Be64(id.mediaUs) && h[18..26] == Be64(id.DeadlineField())
      && h[26] == Low(count) && h[27..29] == Be16(length)
  {
    hide Be16, Be32, Be64, Low;
  }

  /** The fields of an encoded packet, where the decoders look for them. */
  lemma EncodedFields(crc: Crc, p: Packet)
    requires p.Encodable()
    ensures var d, payload := Encode(crc, p), Body(p.kind, p.parts); var n := |d| - CRC_LENGTH;
      && n == HEADER_LENGTH + |payload| && d[HEADER_LENGTH..n] == payload
      && d[..3] == MAGIC + [VERSION] && d[3] == p.kind.MessageType() && d[4] == p.nodeId && d[5] == p.id.flags
      && From32(d[6..10]) == p.id.sequence && From64(d[10..18]) == p.id.mediaUs
      && From64(d[18..26]) == p.id.DeadlineField() && d[26] == |p.parts| && From16(d[27..29]) == |payload|
      && From32(d[n..]) == crc(d[..n]) % TWO_32
  {
    hide Be16, Be32, Be64, From16, From32, From64, Low, Body, Checksum, Head, PartsLegal;
    var payload := Body(p.kind, p.parts);
    var head := Head(p.kind, p.nodeId, p.id, |p.parts|, |payload|);
    HeadFields(p.kind, p.nodeId, p.id, |p.parts|, |payload|);
    var d := Encode(crc, p);
    var n := |d| - CRC_LENGTH;
    assert d[..n] == head + payload && d[n..] == Checksum(crc, head + payload);
    ChecksumReads(crc, head + payload);
    assert d[..HEADER_LENGTH] == head;
    HeadOf(d, head);
    ByteField(p.nodeId);
    ByteField(p.id.flags);
    ByteField(|p.parts|);
    Field32ReadsBack(p.id.sequence);
    Field64ReadsBack(p.id.mediaUs);
    Field64ReadsBack(p.id.DeadlineField());
    Field16ReadsBack(|payload|);
  }

  lemma HeadOf(d: Bytes, h: Bytes)
    requires |h| == HEADER_LENGTH <= |d| && d[..HEADER_LENGTH] == h
    ensures d[..3] == h[..3] && d[3] == h[3] && d[4] == h[4] && d[5] == h[5] && d[6..10] == h[6..10]
    ensures d[10..18] == h[10..18] && d[18..26] == h[18..26] && d[26] == h[26] && d[27..29] == h[27..29]
  {
    assert forall i :: 0 <= i < HEADER_LENGTH ==> d[i] == h[i];
  }

  lemma ChecksumReads(crc: Crc, raw: Bytes)
    ensures From32(Checksum(crc, raw)) == crc(raw) % TWO_32
  {
    Field32ReadsBack(crc(raw) % TWO_32);
  }

  // --- each byte of a datagram -------------------------------------------------------------------

  /** Where part i of a packet starts. */
  function StartOfPart(kind: Kind, parts: seq<Part>, i: nat): nat
    requires i <= |parts|
  {
    if i == 0 then 29
    else StartOfPart(kind, parts, i - 1) + (if kind.FRAME? then 6 else 10) + 3 * |parts[i - 1].pixels|
  }

  /** A part from byte `at` on: number and pin, in a chunk also the output's length and the chunk's place in it, the
      number of pixels and of bytes, and the pixels. */
  predicate IsPart(d: Bytes, at: nat, kind: Kind, p: Part) {
    var head, n := if kind.FRAME? then 6 else 10, |p.pixels|;
    && at + head + 3 * n <= |d| && d[at] as int == p.outputId && d[at + 1] as int == p.gpio
    && (kind.CHUNK? ==> BigEndian(d[at + 2..at + 4]) == p.total && BigEndian(d[at + 4..at + 6]) == p.offset)
    && BigEndian(d[at + head - 4..at + head - 2]) == n && BigEndian(d[at + head - 2..at + head]) == 3 * n
    && forall c :: 0 <= c < 3 * n ==> d[c + (at + head)] as int == ChannelAt(p.pixels, c)
  }

  lemma {:induction false} PartsAreAt(kind: Kind, parts: seq<Part>, i: nat)
    requires i <= |parts|
    ensures StartOfPart(kind, parts, i) == 29 + |Body(kind, parts[..i])|
  {
    hide PartHeader, StandsAt;
    if i > 0 {
      PartsAreAt(kind, parts, i - 1);
      PartStands(kind, parts, i - 1);
    } else {
      assert parts[..0] == [];
    }
  }

  lemma PartBytesAre(kind: Kind, p: Part)
    requires p.Legal(kind) && 3 * |p.pixels| <= MAX_UINT16
    ensures IsPart(PartBytes(kind, p), 0, kind, p)
  {
    hide Be16, Low, ByteChannels, BigEndian, Channels, ChannelAt;
    ByteField(p.outputId);
    ByteField(p.gpio);
    var n, head := |p.pixels|, kind.PartHeaderLength();
    FieldsAreBigEndian(n);
    FieldsAreBigEndian(3 * n);
    var d, h := PartBytes(kind, p), PartHeader(kind, p);
    assert d[..head] == h && d[head..] == Channels(p.pixels);
    assert d[head - 4..head - 2] == h[head - 4..head - 2] == Be16(n);
    assert d[head - 2..head] == h[head - 2..] == Be16(3 * n);
    if kind.CHUNK? {
      FieldsAreBigEndian(p.total);
      FieldsAreBigEndian(p.offset);
      assert d[2..4] == h[2..4] == Be16(p.total) && d[4..6] == h[4..6] == Be16(p.offset);
    }
    forall c | 0 <= c < 3 * n
      ensures d[c + head] as int == ChannelAt(p.pixels, c)
    {
      ChannelsAre(p.pixels, c);
      assert d[head..][c] == d[c + head];
    }
  }

  lemma SliceOfSlice(d: Bytes, at: nat, n: nat, i: nat, j: nat)
    requires i <= j <= n && at + n <= |d|
    ensures d[at + i..at + j] == d[at..at + n][i..j]
  {
    var view, a, b := d[at..at + n], at + i, at + j;
    forall k | 0 <= k < j - i
      ensures d[a..b][k] == view[i..j][k]
    {
      assert view[i + k] == d[at + (i + k)];
    }
    assert d[a..b] == view[i..j];
  }

  lemma PartIsMoved(d: Bytes, at: nat, piece: Bytes, kind: Kind, p: Part)
    requires IsPart(piece, 0, kind, p) && at + |piece| <= |d| && d[at..at + |piece|] == piece
    ensures IsPart(d, at, kind, p)
  {
    hide BigEndian, ChannelAt;
    var head := if kind.FRAME? then 6 else 10;
    var view := d[at..at + |piece|];
    assert d[at] == view[0] && d[at + 1] == view[1];
    var n := |p.pixels|;
    assert view[head - 4..head - 2] == piece[0 + head - 4..0 + head - 2];
    assert view[head - 2..head] == piece[0 + head - 2..0 + head];
    assert BigEndian(view[head - 4..head - 2]) == n && BigEndian(view[head - 2..head]) == 3 * n;
    if kind.CHUNK? {
      assert view[2..4] == piece[0 + 2..0 + 4] && view[4..6] == piece[0 + 4..0 + 6];
      assert BigEndian(view[2..4]) == p.total && BigEndian(view[4..6]) == p.offset;
    }
    SliceOfSlice(d, at, |piece|, head - 4, head - 2);
    SliceOfSlice(d, at, |piece|, head - 2, head);
    SliceOfSlice(d, at, |piece|, 2, 4);
    SliceOfSlice(d, at, |piece|, 4, 6);
    assert d[at + head - 4..at + head - 2] == view[head - 4..head - 2];
    assert d[at + head - 2..at + head] == view[head - 2..head];
    assert kind.CHUNK? ==> d[at + 2..at + 4] == view[2..4] && d[at + 4..at + 6] == view[4..6];
    forall c | 0 <= c < 3 * |p.pixels|
      ensures d[c + (at + head)] as int == ChannelAt(p.pixels, c)
    {
      assert d[c + (at + head)] == view[c + (0 + head)];
    }
  }

  /** Each byte of an encoded packet: message type 1 for a frame and 3 for chunks, a deadline of zero for none, the
      parts one behind the other from byte 29 on, and the checksum. */
  lemma DatagramBytes(crc: Crc, p: Packet, i: nat)
    requires p.Encodable() && i < |p.parts|
    ensures var d := Encode(crc, p); var n := |d| - 4;
      && n == StartOfPart(p.kind, p.parts, |p.parts|) && d[0] == 0x4C && d[1] == 0x45 && d[2] == 0x03
      && d[3] == (if p.kind.FRAME? then 0x01 else 0x03) && d[4] as int == p.nodeId && d[5] as int == p.id.flags
      && BigEndian(d[6..10]) == p.id.sequence && BigEndian(d[10..18]) == p.id.mediaUs
      && BigEndian(d[18..26]) == (if p.id.applyAtUs.Some? then p.id.applyAtUs.value else 0)
      && d[26] as int == |p.parts| && BigEndian(d[27..29]) == n - 29
      && IsPart(d, StartOfPart(p.kind, p.parts, i), p.kind, p.parts[i])
      && BigEndian(d[n..]) == crc(d[..n]) % 0x1_0000_0000
  {
    hide Be16, Be32, Be64, Low, Body, Checksum, Head, PartsLegal, BigEndian, IsPart, StandsAt, StartOfPart;
    var payload := Body(p.kind, p.parts);
    var head := Head(p.kind, p.nodeId, p.id, |p.parts|, |payload|);
    HeadFields(p.kind, p.nodeId, p.id, |p.parts|, |payload|);
    var d := Encode(crc, p);
    var n := |d| - 4;
    assert d[..n] == head + payload && d[n..] == Checksum(crc, head + payload);
    assert d[..HEADER_LENGTH] == head;
    HeadOf(d, head);
    assert d[0] == d[..3][0] && d[1] == d[..3][1] && d[2] == d[..3][2];
    HeadIsBigEndian(p, |payload|);
    ChecksumIsBigEndian(crc, head + payload);
    PartsAreAt(p.kind, p.parts, |p.parts|);
    assert p.parts[..|p.parts|] == p.parts;
    PartIsThere(crc, p, i);
  }

  lemma HeadIsBigEndian(p: Packet, length: nat)
    requires p.Encodable() && length <= MAX_UINT16
    ensures BigEndian(Be32(p.id.sequence)) == p.id.sequence && BigEndian(Be64(p.id.mediaUs)) == p.id.mediaUs
    ensures BigEndian(Be64(p.id.DeadlineField())) == p.id.DeadlineField() && BigEndian(Be16(length)) == length
    ensures Low(p.nodeId) == p.nodeId && Low(p.id.flags) == p.id.flags && Low(|p.parts|) == |p.parts|
  {
    hide Be16, Be32, Be64, BigEndian, Body, PartsLegal;
    FieldsAreBigEndian(p.id.sequence);
    Field64IsBigEndian(p.id.mediaUs);
    Field64IsBigEndian(p.id.DeadlineField());
    FieldsAreBigEndian(length);
  }

  lemma PartIsThere(crc: Crc, p: Packet, i: nat)
    requires p.Encodable() && i < |p.parts|
    ensures IsPart(Encode(crc, p), StartOfPart(p.kind, p.parts, i), p.kind, p.parts[i])
  {
    hide Body, Checksum, Head, IsPart, PartBytes, StartOfPart, Distinct;
    PartsAreAt(p.kind, p.parts, i);
    PartStands(p.kind, p.parts, i);
    PartIsShort(p, i);
    PartBytesAre(p.kind, p.parts[i]);
    var d, payload := Encode(crc, p), Body(p.kind, p.parts);
    var piece, cursor := PartBytes(p.kind, p.parts[i]), |Body(p.kind, p.parts[..i])|;
    assert d[29..29 + |payload|] == payload;
    assert d[29 + cursor..29 + cursor + |piece|] == payload[cursor..cursor + |piece|];
    PartIsMoved(d, 29 + cursor, piece, p.kind, p.parts[i]);
  }

  lemma PartIsShort(p: Packet, i: nat)
    requires p.Encodable() && i < |p.parts|
    ensures p.parts[i].Legal(p.kind) && 3 * |p.parts[i].pixels| <= MAX_UINT16
  {
    hide Body, Distinct;
    PartStands(p.kind, p.parts, i);
  }

  /** Packets of one number of parts with one payload have the same parts. */
  lemma {:induction false} BodyIsInjective(kind: Kind, a: seq<Part>, b: seq<Part>, k: nat)
    requires PartsLegal(kind, a) && PartsLegal(kind, b) && k <= |a| == |b|
    requires Body(kind, a) == Body(kind, b) && |Body(kind, a)| <= MAX_UINT16
    ensures a[..k] == b[..k]
  {
    hide PartsLegal, Body, ReadPart;
    if k > 0 {
      BodyIsInjective(kind, a, b, k - 1);
      PartIsRead(kind, a, k - 1);
      PartIsRead(kind, b, k - 1);
      assert a[..k] == a[..k - 1] + [a[k - 1]] && b[..k] == b[..k - 1] + [b[k - 1]];
    }
  }

  /** One datagram is the encoding of one packet at most, of either kind. */
  lemma EncodeIsInjective(crc: Crc, p: Packet, q: Packet)
    requires p.Encodable() && q.Encodable() && Encode(crc, p) == Encode(crc, q)
    ensures p == q
  {
    hide Encode, Body, From16, From32, From64, PartsLegal;
    EncodedFields(crc, p);
    EncodedFields(crc, q);
    assert p.kind == q.kind;
    BodyIsInjective(p.kind, p.parts, q.parts, |p.parts|);
    assert p.parts[..|p.parts|] == p.parts && q.parts[..|q.parts|] == q.parts;
    assert p.id == q.id;
  }

  // --- the decoders ------------------------------------------------------------------------------

  /** The encoded packet comes back exactly if it passes the filter; a decoder of the other kind sees nothing. */
  lemma DecodeInvertsEncode(crc: Crc, kind: Kind, p: Packet, f: Filter)
    requires p.Encodable()
    ensures Decoded(crc, kind, Encode(crc, p), f)
         == if p.kind == kind && f.Passes(p, |Encode(crc, p)|) then Some(p) else None
  {
    hide Encode, Packet.Encodable, Filter.Passes;
    var d := Encode(crc, p);
    forall q | IsEncoding(crc, kind, d, f, q)
      ensures q == p
    {
      EncodeIsInjective(crc, p, q);
    }
    if p.kind == kind && f.Passes(p, |d|) {
      assert IsEncoding(crc, kind, d, f, p);
    }
  }

  /** Every accepted datagram is the encoding of what it decodes to. */
  lemma EncodeInvertsDecode(crc: Crc, kind: Kind, d: Bytes, f: Filter)
    requires Decoded(crc, kind, d, f).Some?
    ensures var p := Decoded(crc, kind, d, f).value;
      p.kind == kind && p.Encodable() && Encode(crc, p) == d && f.Passes(p, |d|)
  {
  }

  /** A list of parts that a payload may be read as. */
  predicate IsReading(kind: Kind, payload: Bytes, count: nat, outputs: Option<seq<Expected>>, parts: seq<Part>) {
    && |parts| == count && PartsLegal(kind, parts) && Body(kind, parts) == payload
    && (outputs.Some? ==> IsExpected(parts, outputs.value))
  }

  lemma OneMorePart(kind: Kind, parts: seq<Part>, p: Part)
    ensures Body(kind, parts + [p]) == Body(kind, parts) + PartBytes(kind, p)
    ensures PartIds(parts + [p]) == PartIds(parts) + [p.outputId]
    ensures PartGpios(parts + [p]) == PartGpios(parts) + [p.gpio]
    ensures PartsLegal(kind, parts + [p])
       <==> PartsLegal(kind, parts) && p.Legal(kind) && p.outputId !in PartIds(parts) && p.gpio !in PartGpios(parts)
  {
    hide Part.Legal, PartBytes, Distinct;
    assert (parts + [p])[..|parts|] == parts;
    assert PartIds(parts + [p]) == PartIds(parts) + [p.outputId];
    assert PartGpios(parts + [p]) == PartGpios(parts) + [p.gpio];
    DistinctGrows(PartIds(parts), p.outputId);
    DistinctGrows(PartGpios(parts), p.gpio);
    assert forall i :: 0 <= i < |parts| ==> (parts + [p])[i] == parts[i];
    assert (parts + [p])[|parts|] == p;
  }

  /** A reading that agrees with the parts read so far goes on with the part at the cursor, which is none of them. */
  lemma ReadingGoesOn(
      kind: Kind, payload: Bytes, count: nat, outputs: Option<seq<Expected>>, parts: seq<Part>, i: nat)
    requires IsReading(kind, payload, count, outputs, parts) && i < count && |payload| <= MAX_UINT16
    ensures ReadPart(kind, payload, |Body(kind, parts[..i])|) == Some(parts[i])
    ensures parts[..i + 1] == parts[..i] + [parts[i]]
    ensures parts[i].outputId !in PartIds(parts[..i]) && parts[i].gpio !in PartGpios(parts[..i])
    ensures outputs.Some? ==> Matches(parts[i], outputs.value)
  {
    hide ReadPart, Body, Matches;
    PartIsRead(kind, parts, i);
    assert PartIds(parts)[i] == parts[i].outputId && PartGpios(parts)[i] == parts[i].gpio;
    assert forall j :: 0 <= j < i ==> PartIds(parts[..i])[j] == PartIds(parts)[j];
    assert forall j :: 0 <= j < i ==> PartGpios(parts[..i])[j] == PartGpios(parts)[j];
  }

  /** The loop of both decoders: the one reading of a payload as `count` parts, or nothing when there is none. */
  method DecodeParts(kind: Kind, payload: Bytes, count: nat, outputs: Option<seq<Expected>>)
    returns (r: Option<seq<Part>>)
    requires |payload| <= MAX_UINT16
    ensures r.Some? ==> IsReading(kind, payload, count, outputs, r.value)
    ensures r.None? ==> forall q: seq<Part> :: !IsReading(kind, payload, count, outputs, q)
  {
    hide IsReading, ReadPart, PartsLegal, Body, Matches, PartBytes, StandsAt;
    var parts: seq<Part> := [];
    var cursor := 0;
    var seenIds: set<int>, seenGpios: set<int> := {}, {};
    NoParts(kind, payload);
    forall q: seq<Part> | IsReading(kind, payload, count, outputs, q)
      ensures |q| == count
    {
      ReadingOf(kind, payload, count, outputs, q);
    }
    for i := 0 to count
      invariant |parts| == i && PartsLegal(kind, parts)
      invariant cursor == |Body(kind, parts)| <= |payload| && payload[..cursor] == Body(kind, parts)
      invariant seenIds == Elements(PartIds(parts)) && seenGpios == Elements(PartGpios(parts))
      invariant outputs.Some? ==> forall j :: 0 <= j < i ==> Matches(parts[j], outputs.value)
      invariant forall q: seq<Part> :: IsReading(kind, payload, count, outputs, q) ==> |q| == count && q[..i] == parts
    {
      forall q: seq<Part> | IsReading(kind, payload, count, outputs, q)
        ensures q[..i + 1] == parts + [q[i]] && ReadPart(kind, payload, cursor) == Some(q[i])
        ensures q[i].outputId !in seenIds && q[i].gpio !in seenGpios
        ensures outputs.Some? ==> Matches(q[i], outputs.value)
      {
        ReadingGoesOn(kind, payload, count, outputs, q, i);
      }
      var part := ReadPart(kind, payload, cursor);
      if part.None? || part.value.outputId in seenIds || part.value.gpio in seenGpios {
        return None;
      }
      if outputs.Some? && !Matches(part.value, outputs.value) {
        return None;
      }
      ReadPartIsThere(kind, payload, cursor);
      OneMorePart(kind, parts, part.value);
      Joins(kind, part.value, payload, cursor);
      cursor := cursor + |PartBytes(kind, part.value)|;
      parts := parts + [part.value];
      seenIds, seenGpios := seenIds + {part.value.outputId}, seenGpios + {part.value.gpio};
    }
    forall q: seq<Part> | IsReading(kind, payload, count, outputs, q)
      ensures q == parts && cursor == |payload| && (outputs.Some? ==> IsExpected(parts, outputs.value))
    {
      assert q[..count] == q;
      ReadingOf(kind, payload, count, outputs, q);
    }
    if cursor != |payload| || (outputs.Some? && exists e <- outputs.value :: e.outputId !in seenIds) {
      return None;
    }
    assert payload[..cursor] == payload;
    IsReadingOf(kind, payload, count, outputs, parts);
    return Some(parts);
  }

  lemma NoParts(kind: Kind, payload: Bytes)
    ensures PartsLegal(kind, []) && Body(kind, []) == [] == payload[..0] && PartIds([]) == [] && PartGpios([]) == []
  {
  }

  lemma ReadingOf(kind: Kind, payload: Bytes, count: nat, outputs: Option<seq<Expected>>, q: seq<Part>)
    requires IsReading(kind, payload, count, outputs, q)
    ensures |q| == count && Body(kind, q) == payload && (outputs.Some? ==> IsExpected(q, outputs.value))
  {
  }

  lemma IsReadingOf(kind: Kind, payload: Bytes, count: nat, outputs: Option<seq<Expected>>, q: seq<Part>)
    requires |q| == count && PartsLegal(kind, q) && Body(kind, q) == payload
    requires outputs.Some? ==> IsExpected(q, outputs.value)
    ensures IsReading(kind, payload, count, outputs, q)
  {
  }

  lemma Joins(kind: Kind, p: Part, payload: Bytes, cursor: nat)
    requires StandsAt(kind, p, payload, cursor)
    ensures var end := cursor + |PartBytes(kind, p)|;
      end <= |payload| && payload[..end] == payload[..cursor] + PartBytes(kind, p)
  {
    hide PartBytes;
    var end := cursor + |PartBytes(kind, p)|;
    assert payload[..end] == payload[..cursor] + payload[cursor..end];
  }

  /** The shortest datagram that the decoder looks into. */
  function ShortestLength(kind: Kind): nat {
    HEADER_LENGTH + (if kind.CHUNK? then CHUNK_LENGTH else 0) + CRC_LENGTH
  }

  lemma EncodedIsLong(crc: Crc, p: Packet)
    requires p.Encodable()
    ensures |Encode(crc, p)| >= ShortestLength(p.kind)
  {
    hide PartsLegal;
    PartStands(p.kind, p.parts, 0);
  }

  /** What every encoding of a packet passes: the checks before the parts are read. */
  predicate HeadPasses(crc: Crc, kind: Kind, d: Bytes, f: Filter) {
    ShortestLength(kind) <= |d| <= f.maxPayload
    && d[..3] == MAGIC + [VERSION] && d[3] == kind.MessageType() && d[5] < 8
    && (d[5] >= 4 <==> From64(d[18..26]) != 0) && 1 <= d[26] <= 3
    && (f.node.Some? ==> d[4] as int == f.node.value)
    && (f.minSequence.Some? ==> From32(d[6..10]) >= f.minSequence.value)
    && |d| == HEADER_LENGTH + From16(d[27..29]) + CRC_LENGTH
    && From32(d[|d| - CRC_LENGTH..]) == crc(d[..|d| - CRC_LENGTH]) % TWO_32
  }

  function HeadIdentity(d: Bytes): Identity
    requires |d| >= HEADER_LENGTH
  {
    var deadline := From64(d[18..26]);
    Identity(From32(d[6..10]), From64(d[10..18]), if deadline == 0 then None else Some(deadline), d[5])
  }

  /** The decoders. */
  method DecodePacket(crc: Crc, kind: Kind, d: Bytes, f: Filter) returns (r: Option<Packet>)
    ensures r == Decoded(crc, kind, d, f)
  {
    hide Packet.Legal, Packet.Encodable, Decoded, HeadPasses, HeadIdentity, IsReading, Encode, Filter.Passes,
         IsEncoding;
    if !HeadPasses(crc, kind, d, f) {
      NotDecoded(crc, kind, d, f, None);
      return None;
    }
    HeadPassesLength(crc, kind, d, f);
    var parts := DecodeParts(kind, d[HEADER_LENGTH..|d| - CRC_LENGTH], d[26], f.outputs);
    if parts.None? || !Packet(kind, d[4], HeadIdentity(d), parts.value).Legal() {
      NotDecoded(crc, kind, d, f, parts);
      return None;
    }
    var p := Packet(kind, d[4], HeadIdentity(d), parts.value);
    ReadingIsEncoding(crc, kind, d, f, p);
    DecodeInvertsEncode(crc, kind, p, f);
    return Some(p);
  }

  /** Nothing encodes to the datagram when its header fails, its payload has no reading, or the packet that was read is
      not legal. */
  lemma NotDecoded(crc: Crc, kind: Kind, d: Bytes, f: Filter, parts: Option<seq<Part>>)
    requires HeadPasses(crc, kind, d, f) ==>
      && HEADER_LENGTH + CRC_LENGTH <= |d|
      && var payload := d[HEADER_LENGTH..|d| - CRC_LENGTH];
      match parts
      case None => forall q: seq<Part> :: !IsReading(kind, payload, d[26], f.outputs, q)
      case Some(q) =>
        && IsReading(kind, payload, d[26], f.outputs, q) && |payload| <= MAX_UINT16
        && !Packet(kind, d[4], HeadIdentity(d), q).Legal()
    ensures Decoded(crc, kind, d, f) == None
  {
    hide Packet.Legal, HeadPasses, HeadIdentity, IsReading, Body, PartsLegal;
    forall p | IsEncoding(crc, kind, d, f, p)
      ensures false
    {
      EncodingReads(crc, kind, d, f, p);
      if parts.Some? {
        OneReading(kind, d[HEADER_LENGTH..|d| - CRC_LENGTH], d[26], f.outputs, parts.value, p.parts);
      }
    }
  }

  lemma OneReading(
      kind: Kind, payload: Bytes, count: nat, outputs: Option<seq<Expected>>, a: seq<Part>, b: seq<Part>)
    requires IsReading(kind, payload, count, outputs, a) && IsReading(kind, payload, count, outputs, b)
    requires |payload| <= MAX_UINT16
    ensures a == b
  {
    hide Body, PartsLegal;
    BodyIsInjective(kind, a, b, count);
    assert a[..count] == a && b[..count] == b;
  }

  lemma HeadPassesLength(crc: Crc, kind: Kind, d: Bytes, f: Filter)
    requires HeadPasses(crc, kind, d, f)
    ensures |d| >= HEADER_LENGTH + CRC_LENGTH && |d[HEADER_LENGTH..|d| - CRC_LENGTH]| <= MAX_UINT16
  {
    hide From16, From32, From64;
    Field16WritesBack(d[27..29]);
  }

  /** What the decoder reads in an encoding. */
  lemma EncodingReads(crc: Crc, kind: Kind, d: Bytes, f: Filter, q: Packet)
    requires IsEncoding(crc, kind, d, f, q)
    ensures HeadPasses(crc, kind, d, f) && HEADER_LENGTH + CRC_LENGTH <= |d|
    ensures q == Packet(kind, d[4], HeadIdentity(d), q.parts) && q.Legal()
    ensures IsReading(kind, d[HEADER_LENGTH..|d| - CRC_LENGTH], d[26], f.outputs, q.parts)
  {
    hide Encode, From16, From32, From64, PartsLegal, Body, IsExpected;
    EncodedFields(crc, q);
    EncodedIsLong(crc, q);
  }

  /** What the decoder has read encodes to the datagram. */
  lemma ReadingIsEncoding(crc: Crc, kind: Kind, d: Bytes, f: Filter, p: Packet)
    requires HeadPasses(crc, kind, d, f) && |d| >= HEADER_LENGTH + CRC_LENGTH && p.Legal()
    requires p == Packet(kind, d[4], HeadIdentity(d), p.parts)
    requires IsReading(kind, d[HEADER_LENGTH..|d| - CRC_LENGTH], d[26], f.outputs, p.parts)
    ensures p.Encodable() && Encode(crc, p) == d && f.Passes(p, |d|)
  {
    hide Be16, Be32, Be64, From16, From32, From64, PartsLegal, Body, IsExpected, Checksum, Low;
    var n := |d| - CRC_LENGTH;
    Field16WritesBack(d[27..29]);
    HeadWrites(crc, kind, d, f);
    assert d[..n] == d[..HEADER_LENGTH] + d[HEADER_LENGTH..n];
    assert d == d[..n] + d[n..];
    ChecksumWritesBack(crc, d);
  }

  lemma HeadWrites(crc: Crc, kind: Kind, d: Bytes, f: Filter)
    requires HeadPasses(crc, kind, d, f) && |d| >= HEADER_LENGTH + CRC_LENGTH
    ensures Head(kind, d[4], HeadIdentity(d), d[26], From16(d[27..29])) == d[..HEADER_LENGTH]
    ensures 0 <= From16(d[27..29]) <= MAX_UINT16
  {
    hide Be16, Be32, Be64, From16, From32, From64, Low;
    Field16WritesBack(d[27..29]);
    Field32WritesBack(d[6..10]);
    Field64WritesBack(d[10..18]);
    Field64WritesBack(d[18..26]);
    ByteField(d[4]);
    ByteField(d[5]);
    ByteField(d[26]);
    HeadInParts(d);
  }

  lemma HeadInParts(d: Bytes)
    requires |d| >= HEADER_LENGTH
    ensures d[..HEADER_LENGTH]
         == d[..3] + [d[3], d[4], d[5]] + d[6..10] + d[10..18] + d[18..26] + [d[26]] + d[27..29]
  {
  }
}
