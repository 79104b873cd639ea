/** The datagrams of one UDP v3 frame: the complete frame if it fits the limit, ranges of its outputs otherwise. */
module UdpV3Chunks {
  import opened Util
  import opened Ddp
  import opened Fields
  import opened UdpV3

  /** The bytes of a datagram that are not pixels, when it carries one chunk. */
  const OVERHEAD: nat := HEADER_LENGTH + CHUNK_LENGTH + CRC_LENGTH

  function PixelsPerChunk(limit: int): int { (limit - OVERHEAD) / 3 }

  function ChunkCount(total: nat, per: nat): nat
    requires per >= 1
  {
    (total + per - 1) / per
  }

  /** The first pixel of chunk j. */
  function ChunkStart(per: nat, j: nat): nat { j * per }

  /** Chunk j starts before the end of the output. */
  predicate HasChunk(o: Part, per: nat, j: nat) { ChunkStart(per, j) < |o.pixels| }

  function ChunkOf(o: Part, per: nat, j: nat): Part
    requires HasChunk(o, per, j)
  {
    var start := ChunkStart(per, j);
    Part(o.outputId, o.gpio, |o.pixels|, start, o.pixels[start..Min(start + per, |o.pixels|)])
  }

  /** The packet that carries chunk j of one output. */
  function ChunkPacketOf(p: Packet, o: Part, per: nat, j: nat): Packet
    requires HasChunk(o, per, j)
  {
    Packet(CHUNK, p.nodeId, p.id, [ChunkOf(o, per, j)])
  }

  function ChunkDatagram(crc: Crc, p: Packet, o: Part, per: nat, j: nat): Bytes
    requires HasChunk(o, per, j)
  {
    Encode(crc, ChunkPacketOf(p, o, per, j))
  }

  lemma NextChunk(per: nat, j: nat)
    ensures ChunkStart(per, 0) == 0 && ChunkStart(per, j + 1) == ChunkStart(per, j) + per
  {
  }

  lemma {:induction false} ChunksAreApart(a: nat, b: nat, per: nat)
    requires a < b
    ensures ChunkStart(per, a) + per <= ChunkStart(per, b)
    decreases b
  {
    hide ChunkStart;
    NextChunk(per, b - 1);
    if a < b - 1 {
      ChunksAreApart(a, b - 1, per);
    }
  }

  lemma CountsChunks(o: Part, per: nat, j: nat)
    requires per >= 1
    ensures HasChunk(o, per, j) <==> j < ChunkCount(|o.pixels|, per)
  {
    var total := |o.pixels|;
    var n := ChunkCount(total, per);
    assert n * per <= total + per - 1 < n * per + per;
    if j < n {
      ChunksAreApart(j, n, per);
    } else if j > n {
      ChunksAreApart(n, j, per);
    }
  }

  lemma ChunkIsLegal(o: Part, per: nat, j: nat)
    requires o.Legal(FRAME) && HasChunk(o, per, j) && 1 <= per && 3 * per <= MAX_UINT16
    ensures var c := ChunkOf(o, per, j); c.Legal(CHUNK) && 1 <= |c.pixels| <= per
  {
    hide ChunkStart;
    var c := ChunkOf(o, per, j);
    assert forall x :: x in c.pixels ==> x in o.pixels;
  }

  lemma BodyOfOne(c: Part)
    ensures |Body(CHUNK, [c])| == CHUNK_LENGTH + 3 * |c.pixels|
    ensures c.Legal(CHUNK) ==> PartsLegal(CHUNK, [c])
  {
    hide PartBytes, Part.Legal;
    assert [c][..0] == [];
    assert Body(CHUNK, [c]) == PartBytes(CHUNK, c);
  }

  lemma ChunkPacketIsEncodable(p: Packet, o: Part, limit: int, j: nat)
    requires p.Legal() && o.Legal(FRAME) && OVERHEAD + 3 <= limit <= MAX_UDP_PAYLOAD
    requires HasChunk(o, PixelsPerChunk(limit), j)
    ensures var q := ChunkPacketOf(p, o, PixelsPerChunk(limit), j);
      q.Encodable() && |Body(CHUNK, q.parts)| <= limit - HEADER_LENGTH - CRC_LENGTH
  {
    hide Body, Part.Legal, ChunkOf, HasChunk, PartsLegal;
    var per := PixelsPerChunk(limit);
    ChunkIsLegal(o, per, j);
    BodyOfOne(ChunkOf(o, per, j));
  }

  /** The first k datagrams of one output. */
  function OutputDatagrams(crc: Crc, p: Packet, o: Part, per: nat, k: nat): seq<Bytes>
    requires per >= 1 && k <= ChunkCount(|o.pixels|, per)
  {
    if k == 0 then []
    else
      CountsChunks(o, per, k - 1);
      OutputDatagrams(crc, p, o, per, k - 1) + [ChunkDatagram(crc, p, o, per, k - 1)]
  }

  /** The datagrams of the outputs, one output after the other. */
  function ChunkDatagrams(crc: Crc, p: Packet, outputs: seq<Part>, per: nat): seq<Bytes>
    requires per >= 1
  {
    if outputs == [] then []
    else
      var o := outputs[|outputs| - 1];
      ChunkDatagrams(crc, p, outputs[..|outputs| - 1], per)
      + OutputDatagrams(crc, p, o, per, ChunkCount(|o.pixels|, per))
  }

  predicate FitsOne(p: Packet, limit: int) {
    p.Encodable() && HEADER_LENGTH + |Body(FRAME, p.parts)| + CRC_LENGTH <= limit
  }

  /** All datagrams of a frame, or nothing when the limit is no limit or leaves no room for a pixel. */
  function Datagrams(crc: Crc, p: Packet, limit: int): Option<seq<Bytes>>
    requires p.kind.FRAME?
  {
    if !(1 <= limit <= MAX_UDP_PAYLOAD) then None
    else if FitsOne(p, limit) then Some([Encode(crc, p)])
    else if PixelsPerChunk(limit) < 1 then None
    else Some(ChunkDatagrams(crc, p, p.parts, PixelsPerChunk(limit)))
  }

  // --- the packetizer ----------------------------------------------------------------------------

  function CompleteLength(parts: seq<Part>): nat {
    if parts == [] then 0
    else CompleteLength(parts[..|parts| - 1]) + OUTPUT_LENGTH + 3 * |parts[|parts| - 1].pixels|
  }

  lemma {:induction false} CompleteLengthIsBody(parts: seq<Part>)
    ensures CompleteLength(parts) == |Body(FRAME, parts)|
  {
    hide PartBytes;
    if parts != [] {
      CompleteLengthIsBody(parts[..|parts| - 1]);
    }
  }

  /** No constructor and no length check of a chunk ever fails: the packetizer raises for a bad limit only. */
  method EncodeFrameDatagrams(crc: Crc, p: Packet, limit: int) returns (r: Option<seq<Bytes>>)
    requires p.kind.FRAME? && p.Legal()
    ensures r == Datagrams(crc, p, limit)
  {
    hide Encode, Packet.Legal, Body;
    if !(1 <= limit <= MAX_UDP_PAYLOAD) {
      return None;
    }
    var complete := CompleteLength(p.parts);
    CompleteLengthIsBody(p.parts);
    if complete <= MAX_UINT16 {
      var whole := EncodePacket(crc, p);
      if |whole.value| <= limit {
        return Some([whole.value]);
      }
    }
    var per := PixelsPerChunk(limit);
    if per < 1 {
      return None;
    }
    var datagrams: seq<Bytes> := [];
    for i := 0 to |p.parts|
      invariant datagrams == ChunkDatagrams(crc, p, p.parts[..i], per)
    {
      assert p.parts[..i + 1][..i] == p.parts[..i];
      OutputIsLegal(p, i);
      var mine := EncodeOutput(crc, p, p.parts[i], limit);
      datagrams := datagrams + mine;
    }
    assert p.parts[..|p.parts|] == p.parts;
    return Some(datagrams);
  }

  lemma OutputIsLegal(p: Packet, i: nat)
    requires p.Legal() && i < |p.parts|
    ensures p.parts[i].Legal(p.kind)
  {
  }

  /** The inner loop, over the offsets of one output. */
  method EncodeOutput(crc: Crc, p: Packet, o: Part, limit: int) returns (datagrams: seq<Bytes>)
    requires p.Legal() && o.Legal(FRAME) && OVERHEAD + 3 <= limit <= MAX_UDP_PAYLOAD
    ensures var per := PixelsPerChunk(limit);
      datagrams == OutputDatagrams(crc, p, o, per, ChunkCount(|o.pixels|, per))
  {
    hide Encode, Packet.Legal, Part.Legal, Body, ChunkCount, ChunkStart;
    NextChunk(PixelsPerChunk(limit), 0);
    var per, total := PixelsPerChunk(limit), |o.pixels|;
    datagrams := [];
    var offset := 0;
    ghost var j := 0;
    CountsChunks(o, per, 0);
    while offset < total
      invariant offset == ChunkStart(per, j) && j <= ChunkCount(total, per)
      invariant datagrams == OutputDatagrams(crc, p, o, per, j)
      decreases total - offset
    {
      var end := Min(offset + per, total);
      var chunk := Part(o.outputId, o.gpio, total, offset, o.pixels[offset..end]);
      CountsChunks(o, per, j);
      ChunkPacketIsEncodable(p, o, limit, j);
      var encoded := EncodePacket(crc, Packet(CHUNK, p.nodeId, p.id, [chunk]));
      assert |encoded.value| <= limit;
      datagrams := datagrams + [encoded.value];
      NextChunk(per, j);
      offset := offset + per;
      j := j + 1;
    }
    CountsChunks(o, per, j);
  }

  // --- what the packetizer promises --------------------------------------------------------------

  /** A frame has datagrams if and only if the limit is one, and lets the whole frame or one pixel of it through. */
  lemma EncodesIff(crc: Crc, p: Packet, limit: int)
    requires p.kind.FRAME?
    ensures Datagrams(crc, p, limit).Some?
       <==> 1 <= limit <= MAX_UDP_PAYLOAD && (FitsOne(p, limit) || limit >= 46)
  {
    hide FitsOne;
  }

  lemma {:induction false} OutputDatagramsFit(crc: Crc, p: Packet, o: Part, limit: int, k: nat)
    requires p.Legal() && o.Legal(FRAME) && OVERHEAD + 3 <= limit <= MAX_UDP_PAYLOAD
    requires k <= ChunkCount(|o.pixels|, PixelsPerChunk(limit))
    ensures forall d <- OutputDatagrams(crc, p, o, PixelsPerChunk(limit), k) :: |d| <= limit
  {
    hide Packet.Legal, Part.Legal, Body, ChunkCount, HasChunk, ChunkOf, Head, Checksum;
    if k > 0 {
      OutputDatagramsFit(crc, p, o, limit, k - 1);
      CountsChunks(o, PixelsPerChunk(limit), k - 1);
      ChunkPacketIsEncodable(p, o, limit, k - 1);
    }
  }

  lemma {:induction false} ChunkDatagramsFit(crc: Crc, p: Packet, outputs: seq<Part>, limit: int)
    requires p.Legal() && OVERHEAD + 3 <= limit <= MAX_UDP_PAYLOAD && forall o <- outputs :: o.Legal(FRAME)
    ensures forall d <- ChunkDatagrams(crc, p, outputs, PixelsPerChunk(limit)) :: |d| <= limit
  {
    hide Packet.Legal, Part.Legal, OutputDatagrams, ChunkCount;
    if outputs != [] {
      var o := outputs[|outputs| - 1];
      ChunkDatagramsFit(crc, p, outputs[..|outputs| - 1], limit);
      OutputDatagramsFit(crc, p, o, limit, ChunkCount(|o.pixels|, PixelsPerChunk(limit)));
    }
  }

  /** No datagram exceeds the limit. */
  lemma DatagramsFit(crc: Crc, p: Packet, limit: int)
    requires p.kind.FRAME? && p.Legal() && Datagrams(crc, p, limit).Some?
    ensures forall d <- Datagrams(crc, p, limit).value :: |d| <= limit
  {
    hide Part.Legal, ChunkDatagrams, Body, Packet.Encodable;
    if !FitsOne(p, limit) {
      ChunkDatagramsFit(crc, p, p.parts, limit);
    }
  }

  /** The chunks of an output follow one another, and each is as long as the limit lets it be: only the last of an
      output has room for one more pixel. */
  lemma ChunksAreFull(crc: Crc, p: Packet, o: Part, limit: int, j: nat)
    requires p.Legal() && o.Legal(FRAME) && OVERHEAD + 3 <= limit <= MAX_UDP_PAYLOAD
    requires HasChunk(o, PixelsPerChunk(limit), j)
    ensures var per := PixelsPerChunk(limit); var c := ChunkOf(o, per, j);
      && c.outputId == o.outputId && c.gpio == o.gpio && c.total == |o.pixels|
      && c.offset + |c.pixels| <= |o.pixels| && c.pixels == o.pixels[c.offset..c.offset + |c.pixels|]
      && (j == 0 ==> c.offset == 0)
      && (c.offset + |c.pixels| < |o.pixels| ==>
            && |ChunkDatagram(crc, p, o, per, j)| + 3 > limit
            && HasChunk(o, per, j + 1) && ChunkOf(o, per, j + 1).offset == c.offset + |c.pixels|)
      && (c.offset + |c.pixels| == |o.pixels| ==> !HasChunk(o, per, j + 1))
  {
    hide Packet.Legal, Part.Legal, Body, PartsLegal, ChunkStart, Head, Checksum;
    var per := PixelsPerChunk(limit);
    NextChunk(per, j);
    ChunkIsLegal(o, per, j);
    BodyOfOne(ChunkOf(o, per, j));
  }

  lemma {:induction false} EmptyOutputsOnly(crc: Crc, p: Packet, outputs: seq<Part>, per: nat)
    requires per >= 1
    ensures ChunkDatagrams(crc, p, outputs, per) == [] <==> forall o <- outputs :: o.pixels == []
  {
    hide ChunkDatagram, ChunkCount;
    if outputs != [] {
      var o := outputs[|outputs| - 1];
      EmptyOutputsOnly(crc, p, outputs[..|outputs| - 1], per);
      CountsChunks(o, per, 0);
      HasDatagrams(crc, p, o, per, ChunkCount(|o.pixels|, per));
    }
  }

  lemma HasDatagrams(crc: Crc, p: Packet, o: Part, per: nat, k: nat)
    requires per >= 1 && k <= ChunkCount(|o.pixels|, per)
    ensures OutputDatagrams(crc, p, o, per, k) == [] <==> k == 0
  {
    hide ChunkDatagram, ChunkCount;
  }

  lemma {:induction false} LengthOfEmpty(parts: seq<Part>)
    requires forall o <- parts :: o.pixels == []
    ensures |Body(FRAME, parts)| == OUTPUT_LENGTH * |parts|
  {
    hide PartBytes;
    if parts != [] {
      LengthOfEmpty(parts[..|parts| - 1]);
    }
  }

  /** A legal frame is sent as no datagram at all if and only if it consists of three empty outputs and the limit is
      between 46 and 50. */
  lemma NothingSentIff(crc: Crc, p: Packet, limit: int)
    requires p.kind.FRAME? && p.Legal()
    ensures Datagrams(crc, p, limit) == Some([])
       <==> 46 <= limit <= 50 && |p.parts| == 3 && forall o <- p.parts :: o.pixels == []
  {
    hide Part.Legal, ChunkDatagrams, Body;
    if 46 <= limit <= MAX_UDP_PAYLOAD {
      EmptyOutputsOnly(crc, p, p.parts, PixelsPerChunk(limit));
    }
    if forall o <- p.parts :: o.pixels == [] {
      LengthOfEmpty(p.parts);
    }
  }

  /** Such a frame. */
  lemma EmptyFrameIsNotSent(crc: Crc)
    ensures var parts := seq(3, i requires 0 <= i < 3 => Part(i + 1, i, 0, 0, []));
      var p := Packet(FRAME, 1, Identity(1, 0, None, 0), parts);
      p.Legal() && Datagrams(crc, p, 46) == Some([])
  {
    var parts := seq(3, i requires 0 <= i < 3 => Part(i + 1, i, 0, 0, []));
    NothingSentIff(crc, Packet(FRAME, 1, Identity(1, 0, None, 0), parts), 46);
  }
}
