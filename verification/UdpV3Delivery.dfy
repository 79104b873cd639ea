/** From a frame to its datagrams, through any order and any repetition, and among older ones, back to the frame. */
module UdpV3Delivery {
  import opened Util
  import opened Ddp
  import opened Fields
  import opened UdpV3
  import opened UdpV3Chunks
  import opened UdpV3Reassembler

  // --- which datagrams a frame has ---------------------------------------------------------------

  /** One of the first k chunks of an output. */
  ghost predicate OfOutput(crc: Crc, p: Packet, o: Part, per: nat, k: nat, d: Bytes) {
    exists j: nat :: j < k && HasChunk(o, per, j) && d == ChunkDatagram(crc, p, o, per, j)
  }

  lemma {:induction false} OutputHasDatagrams(crc: Crc, p: Packet, o: Part, per: nat, k: nat, d: Bytes)
    requires per >= 1 && k <= ChunkCount(|o.pixels|, per)
    ensures d in OutputDatagrams(crc, p, o, per, k) <==> OfOutput(crc, p, o, per, k, d)
  {
    hide ChunkCount, ChunkDatagram, HasChunk;
    if k > 0 {
      OutputHasDatagrams(crc, p, o, per, k - 1, d);
      CountsChunks(o, per, k - 1);
    }
  }

  ghost predicate OfOutputs(crc: Crc, p: Packet, outputs: seq<Part>, per: nat, d: Bytes)
    requires per >= 1
  {
    exists i :: 0 <= i < |outputs| && OfOutput(crc, p, outputs[i], per, ChunkCount(|outputs[i].pixels|, per), d)
  }

  lemma {:induction false} ChunkDatagramsAre(crc: Crc, p: Packet, outputs: seq<Part>, per: nat, d: Bytes)
    requires per >= 1
    ensures d in ChunkDatagrams(crc, p, outputs, per) <==> OfOutputs(crc, p, outputs, per, d)
  {
    hide ChunkCount, OfOutput, OutputDatagrams;
    if outputs != [] {
      var init, o := outputs[..|outputs| - 1], outputs[|outputs| - 1];
      ChunkDatagramsAre(crc, p, init, per, d);
      OutputHasDatagrams(crc, p, o, per, ChunkCount(|o.pixels|, per), d);
      if OfOutputs(crc, p, init, per, d) {
        var i :| 0 <= i < |init| && OfOutput(crc, p, init[i], per, ChunkCount(|init[i].pixels|, per), d);
        assert outputs[i] == init[i];
      }
    }
  }

  /** The datagram that carries pixel x of output i. */
  ghost function DatagramAt(crc: Crc, p: Packet, per: nat, i: nat, x: nat): Bytes
    requires per >= 1 && i < |p.parts| && x < |p.parts[i].pixels|
  {
    ChunkOfPixel(x, per);
    ChunkDatagram(crc, p, p.parts[i], per, ChunkIndex(x, per))
  }

  function ChunkIndex(x: nat, per: nat): nat
    requires per >= 1
  {
    x / per
  }

  lemma ChunkOfPixel(x: nat, per: nat)
    requires per >= 1
    ensures ChunkStart(per, ChunkIndex(x, per)) <= x < ChunkStart(per, ChunkIndex(x, per)) + per
  {
  }

  lemma OnlyChunkOfPixel(x: nat, per: nat, j: nat)
    requires per >= 1
    ensures ChunkStart(per, j) <= x < ChunkStart(per, j) + per <==> j == ChunkIndex(x, per)
  {
    hide ChunkStart, ChunkIndex;
    ChunkOfPixel(x, per);
    if j < ChunkIndex(x, per) {
      ChunksAreApart(j, ChunkIndex(x, per), per);
    } else if j > ChunkIndex(x, per) {
      ChunksAreApart(ChunkIndex(x, per), j, per);
    }
  }

  /** What a frame needs to be sent in chunks. */
  predicate Chunked(p: Packet, limit: int) {
    p.kind.FRAME? && p.Legal() && OVERHEAD + 3 <= limit <= MAX_UDP_PAYLOAD && !FitsOne(p, limit)
  }

  /** Two chunks share a datagram only if they are one chunk. */
  lemma OneChunkEach(crc: Crc, p: Packet, limit: int, i: nat, j: nat, i': nat, j': nat)
    requires Chunked(p, limit) && i < |p.parts| && i' < |p.parts|
    requires var per := PixelsPerChunk(limit); HasChunk(p.parts[i], per, j) && HasChunk(p.parts[i'], per, j')
    requires var per := PixelsPerChunk(limit);
      ChunkDatagram(crc, p, p.parts[i], per, j) == ChunkDatagram(crc, p, p.parts[i'], per, j')
    ensures i == i' && j == j'
  {
    hide Encode, Packet.Encodable, Body, ChunkStart;
    var per := PixelsPerChunk(limit);
    OutputIsLegal(p, i);
    OutputIsLegal(p, i');
    ChunkPacketIsEncodable(p, p.parts[i], limit, j);
    ChunkPacketIsEncodable(p, p.parts[i'], limit, j');
    var a, b := ChunkPacketOf(p, p.parts[i], per, j), ChunkPacketOf(p, p.parts[i'], per, j');
    EncodeIsInjective(crc, a, b);
    assert a.parts[0] == b.parts[0];
    assert PartIds(p.parts)[i] == PartIds(p.parts)[i'];
    if j < j' {
      ChunksAreApart(j, j', per);
    } else if j' < j {
      ChunksAreApart(j', j, per);
    }
  }

  // --- what a receiver reads in them -------------------------------------------------------------

  /** The receiver is the node's, and expects the frame's outputs with their pins and lengths. */
  predicate Expects(rx: Receiver, p: Packet) {
    rx.Valid() && rx.nodeId == p.nodeId && IsExpected(p.parts, rx.outputs)
  }

  lemma ChunkArrives(crc: Crc, rx: Receiver, p: Packet, limit: int, i: nat, j: nat)
    requires Expects(rx, p) && Chunked(p, limit) && i < |p.parts| && HasChunk(p.parts[i], PixelsPerChunk(limit), j)
    ensures var per := PixelsPerChunk(limit);
      var q, d := ChunkPacketOf(p, p.parts[i], per, j), ChunkDatagram(crc, p, p.parts[i], per, j);
      && Decoded(crc, FRAME, d, rx.FrameFilter()) == None
      && Decoded(crc, CHUNK, d, rx.ChunkFilter()) == Some(q) && q.Legal()
  {
    hide Body, Part.Legal, Decoded, IsExpected, Receiver.Valid, PartsLegal;
    OutputIsLegal(p, i);
    var per := PixelsPerChunk(limit);
    var q := ChunkPacketOf(p, p.parts[i], per, j);
    ChunkPacketIsEncodable(p, p.parts[i], limit, j);
    DecodeInvertsEncode(crc, FRAME, q, rx.FrameFilter());
    DecodeInvertsEncode(crc, CHUNK, q, rx.ChunkFilter());
  }

  lemma FrameArrives(crc: Crc, rx: Receiver, p: Packet, limit: int)
    requires Expects(rx, p) && p.kind.FRAME? && limit <= MAX_UDP_PAYLOAD && FitsOne(p, limit)
    ensures Decoded(crc, FRAME, Encode(crc, p), rx.FrameFilter()) == Some(p)
  {
    hide Body, Decoded, IsExpected, Receiver.Valid, Packet.Legal;
    DecodeInvertsEncode(crc, FRAME, p, rx.FrameFilter());
  }

  // --- the buffers of a frame in progress --------------------------------------------------------

  /** The pixels of exactly those chunks are there whose datagrams have arrived. */
  ghost predicate Holds(crc: Crc, p: Packet, per: nat, buffers: map<int, Buffer>, ds: seq<Bytes>)
    requires per >= 1
  {
    forall i :: 0 <= i < |p.parts| ==> HoldsOutput(crc, p, per, i, buffers, ds)
  }

  ghost predicate HoldsOutput(crc: Crc, p: Packet, per: nat, i: nat, buffers: map<int, Buffer>, ds: seq<Bytes>)
    requires per >= 1 && i < |p.parts|
  {
    var o := p.parts[i];
    && o.outputId in buffers && |buffers[o.outputId]| == |o.pixels|
    && forall x :: 0 <= x < |o.pixels| ==>
         buffers[o.outputId][x] == if DatagramAt(crc, p, per, i, x) in ds then Some(o.pixels[x]) else None
  }

  /** No datagram of the frame has arrived, or all have. */
  ghost predicate NoPixelIn(crc: Crc, p: Packet, per: nat, ds: seq<Bytes>)
    requires per >= 1
  {
    forall i, x :: 0 <= i < |p.parts| && 0 <= x < |p.parts[i].pixels| ==> DatagramAt(crc, p, per, i, x) !in ds
  }

  ghost predicate AllPixelsIn(crc: Crc, p: Packet, per: nat, ds: seq<Bytes>)
    requires per >= 1
  {
    forall i, x :: 0 <= i < |p.parts| && 0 <= x < |p.parts[i].pixels| ==> DatagramAt(crc, p, per, i, x) in ds
  }

  lemma BlankHolds(crc: Crc, rx: Receiver, p: Packet, per: nat, ds: seq<Bytes>)
    requires Expects(rx, p) && per >= 1 && p.kind.FRAME? && p.Legal() && NoPixelIn(crc, p, per, ds)
    ensures Holds(crc, p, per, Blank(rx.outputs), ds)
  {
    hide Body, DatagramAt, Receiver.Valid;
    forall i | 0 <= i < |p.parts|
      ensures HoldsOutput(crc, p, per, i, Blank(rx.outputs), ds)
    {
      BlankByOutput(rx.outputs, p.parts[i].outputId);
      assert Matches(p.parts[i], rx.outputs);
    }
  }

  /** The chunk that a datagram carries is the one that its pixels are in. */
  lemma CarriesPixel(crc: Crc, p: Packet, limit: int, i: nat, j: nat, i': nat, x: nat)
    requires Chunked(p, limit) && i < |p.parts| && i' < |p.parts| && x < |p.parts[i'].pixels|
    requires HasChunk(p.parts[i], PixelsPerChunk(limit), j)
    ensures var per := PixelsPerChunk(limit);
      DatagramAt(crc, p, per, i', x) == ChunkDatagram(crc, p, p.parts[i], per, j)
      <==> i == i' && ChunkStart(per, j) <= x < ChunkStart(per, j) + per
  {
    hide ChunkDatagram, Packet.Legal, FitsOne, ChunkStart, ChunkIndex;
    var per := PixelsPerChunk(limit);
    ChunkOfPixel(x, per);
    OnlyChunkOfPixel(x, per, j);
    assert HasChunk(p.parts[i'], per, ChunkIndex(x, per));
    if DatagramAt(crc, p, per, i', x) == ChunkDatagram(crc, p, p.parts[i], per, j) {
      OneChunkEach(crc, p, limit, i, j, i', ChunkIndex(x, per));
    }
  }

  /** A chunk of the frame never contradicts what has arrived of it, and adds its own pixels. */
  lemma PlaceHolds(crc: Crc, p: Packet, limit: int, buffers: map<int, Buffer>, ds: seq<Bytes>, i: nat, j: nat)
    requires Chunked(p, limit) && i < |p.parts| && HasChunk(p.parts[i], PixelsPerChunk(limit), j)
    requires Holds(crc, p, PixelsPerChunk(limit), buffers, ds)
    ensures var per := PixelsPerChunk(limit); var c, o := ChunkOf(p.parts[i], per, j), p.parts[i];
      && o.outputId in buffers && Agrees(buffers[o.outputId], c)
      && Holds(crc, p, per, buffers[o.outputId := Placed(buffers[o.outputId], c)],
               ds + [ChunkDatagram(crc, p, o, per, j)])
  {
    hide ChunkDatagram, DatagramAt, Packet.Legal, FitsOne, HoldsOutput;
    var per := PixelsPerChunk(limit);
    var o := p.parts[i];
    var c, d := ChunkOf(o, per, j), ChunkDatagram(crc, p, o, per, j);
    OutputHolds(crc, p, limit, buffers, ds, i, j);
    var after, ds' := buffers[o.outputId := Placed(buffers[o.outputId], c)], ds + [d];
    forall k | 0 <= k < |p.parts|
      ensures HoldsOutput(crc, p, per, k, after, ds')
    {
      if k != i {
        OtherOutputHolds(crc, p, limit, buffers, ds, i, j, k, after[o.outputId]);
      }
    }
  }

  lemma OutputHolds(crc: Crc, p: Packet, limit: int, buffers: map<int, Buffer>, ds: seq<Bytes>, i: nat, j: nat)
    requires Chunked(p, limit) && i < |p.parts| && HasChunk(p.parts[i], PixelsPerChunk(limit), j)
    requires HoldsOutput(crc, p, PixelsPerChunk(limit), i, buffers, ds)
    ensures var per := PixelsPerChunk(limit); var c, o := ChunkOf(p.parts[i], per, j), p.parts[i];
      && o.outputId in buffers && Agrees(buffers[o.outputId], c)
      && HoldsOutput(crc, p, per, i, buffers[o.outputId := Placed(buffers[o.outputId], c)],
                     ds + [ChunkDatagram(crc, p, o, per, j)])
  {
    hide ChunkDatagram, DatagramAt, Packet.Legal, FitsOne, ChunkStart;
    var per, o := PixelsPerChunk(limit), p.parts[i];
    var d := ChunkDatagram(crc, p, o, per, j);
    forall x | 0 <= x < |o.pixels|
      ensures DatagramAt(crc, p, per, i, x) in ds + [d]
         <==> DatagramAt(crc, p, per, i, x) in ds || ChunkStart(per, j) <= x < ChunkStart(per, j) + per
    {
      CarriesPixel(crc, p, limit, i, j, i, x);
    }
  }

  lemma OtherOutputHolds(
      crc: Crc, p: Packet, limit: int, buffers: map<int, Buffer>, ds: seq<Bytes>, i: nat, j: nat, k: nat,
      b: Buffer)
    requires Chunked(p, limit) && i < |p.parts| && HasChunk(p.parts[i], PixelsPerChunk(limit), j)
    requires k < |p.parts| && k != i && HoldsOutput(crc, p, PixelsPerChunk(limit), k, buffers, ds)
    ensures var per := PixelsPerChunk(limit); var o := p.parts[i];
      HoldsOutput(crc, p, per, k, buffers[o.outputId := b], ds + [ChunkDatagram(crc, p, o, per, j)])
  {
    hide ChunkDatagram, DatagramAt, Body, Part.Legal;
    var per, o := PixelsPerChunk(limit), p.parts[i];
    assert p.parts[k].outputId != o.outputId by {
      assert PartIds(p.parts)[k] != PartIds(p.parts)[i];
    }
    forall x | 0 <= x < |p.parts[k].pixels|
      ensures DatagramAt(crc, p, per, k, x) != ChunkDatagram(crc, p, o, per, j)
    {
      CarriesPixel(crc, p, limit, i, j, k, x);
    }
  }

  /** Nothing is missing exactly when every datagram has arrived. */
  lemma FullIff(crc: Crc, rx: Receiver, p: Packet, per: nat, buffers: map<int, Buffer>, ds: seq<Bytes>)
    requires per >= 1 && Expects(rx, p) && Shaped(rx, buffers) && Holds(crc, p, per, buffers, ds)
    ensures Full(buffers) <==> AllPixelsIn(crc, p, per, ds)
  {
    hide DatagramAt, Receiver.Valid;
    if AllPixelsIn(crc, p, per, ds) {
      forall id <- buffers
        ensures BufferFull(buffers[id])
      {
        var e :| e in rx.outputs && e.outputId == id;
        var i :| 0 <= i < |p.parts| && PartIds(p.parts)[i] == id;
        assert HoldsOutput(crc, p, per, i, buffers, ds);
      }
    }
    if Full(buffers) {
      forall i, x | 0 <= i < |p.parts| && 0 <= x < |p.parts[i].pixels|
        ensures DatagramAt(crc, p, per, i, x) in ds
      {
        assert HoldsOutput(crc, p, per, i, buffers, ds);
        var buffer := buffers[p.parts[i].outputId];
        assert buffer[x] in buffer;
      }
    }
  }

  // --- what comes out ----------------------------------------------------------------------------

  function PartById(parts: seq<Part>, id: int): (r: Part)
    requires id in PartIds(parts)
    ensures r in parts && r.outputId == id
  {
    var last := parts[|parts| - 1];
    if last.outputId == id then last
    else
      var init := parts[..|parts| - 1];
      assert PartIds(parts) == PartIds(init) + [last.outputId];
      PartById(init, id)
  }

  /** The frame as a receiver hands it over: as it was sent when it came in one datagram, and otherwise with its
      outputs in the receiver's order. */
  function HandedOver(rx: Receiver, p: Packet, limit: int): Packet
    requires Expects(rx, p) && p.kind.FRAME?
  {
    if FitsOne(p, limit) then p
    else p.(parts := seq(|rx.outputs|, i requires 0 <= i < |rx.outputs| =>
      assert rx.outputs[i] in rx.outputs; PartById(p.parts, rx.outputs[i].outputId)))
  }

  /** A receiver that has the outputs in the frame's order hands over the frame itself. */
  lemma SameOrderSameFrame(rx: Receiver, p: Packet, limit: int)
    requires Expects(rx, p) && p.kind.FRAME? && p.Legal() && |rx.outputs| == |p.parts|
    requires forall i :: 0 <= i < |p.parts| ==> rx.outputs[i].outputId == p.parts[i].outputId
    ensures HandedOver(rx, p, limit) == p
  {
    hide Body, Part.Legal, FitsOne, Receiver.Valid;
    forall i | 0 <= i < |p.parts|
      ensures rx.outputs[i].outputId in PartIds(p.parts) && PartById(p.parts, rx.outputs[i].outputId) == p.parts[i]
    {
      assert PartIds(p.parts)[i] == rx.outputs[i].outputId;
      OnePart(p, PartById(p.parts, rx.outputs[i].outputId), i);
    }
    if !FitsOne(p, limit) {
      assert HandedOver(rx, p, limit).parts == p.parts;
    }
  }

  lemma OnePart(p: Packet, o: Part, i: nat)
    requires p.Legal() && o in p.parts && i < |p.parts| && o.outputId == p.parts[i].outputId
    ensures o == p.parts[i]
  {
    hide Body, Part.Legal;
    var k :| 0 <= k < |p.parts| && p.parts[k] == o;
    assert PartIds(p.parts)[k] == PartIds(p.parts)[i];
  }

  lemma GatheredIsFrame(crc: Crc, rx: Receiver, p: Packet, limit: int, buffers: map<int, Buffer>, ds: seq<Bytes>)
    requires Expects(rx, p) && Chunked(p, limit) && Shaped(rx, buffers) && Full(buffers)
    requires Holds(crc, p, PixelsPerChunk(limit), buffers, ds)
    ensures Packet(FRAME, rx.nodeId, p.id, Gathered(rx, buffers)) == HandedOver(rx, p, limit)
  {
    hide FitsOne, Packet.Legal, DatagramAt, HoldsOutput, Shaped, Full;
    var gathered, parts := Gathered(rx, buffers), HandedOver(rx, p, limit).parts;
    forall i | 0 <= i < |rx.outputs|
      ensures gathered[i] == parts[i]
    {
      var e := rx.outputs[i];
      assert e in rx.outputs;
      var o := PartById(p.parts, e.outputId);
      var k :| 0 <= k < |p.parts| && p.parts[k] == o;
      LookupOfMember(rx.outputs, i);
      assert Matches(o, rx.outputs);
      ChunkedPart(p, limit, k);
      OutputGathered(crc, p, PixelsPerChunk(limit), k, buffers, ds);
    }
  }

  lemma ChunkedPart(p: Packet, limit: int, k: nat)
    requires Chunked(p, limit) && k < |p.parts|
    ensures p.parts[k].offset == 0 && p.parts[k].total == |p.parts[k].pixels|
  {
    OutputIsLegal(p, k);
  }

  lemma OutputGathered(crc: Crc, p: Packet, per: nat, k: nat, buffers: map<int, Buffer>, ds: seq<Bytes>)
    requires per >= 1 && k < |p.parts| && HoldsOutput(crc, p, per, k, buffers, ds) && Full(buffers)
    ensures var id := p.parts[k].outputId;
      id in buffers && BufferFull(buffers[id]) && Values(buffers[id]) == p.parts[k].pixels
  {
    hide DatagramAt;
    var buffer := buffers[p.parts[k].outputId];
    forall x | 0 <= x < |buffer|
      ensures buffer[x] == Some(p.parts[k].pixels[x])
    {
      assert buffer[x] in buffer;
    }
  }

  // --- one chunk -----------------------------------------------------------------------------

  /** The frame may start, and has not. */
  predicate Waiting(st: State, id: Identity) { CanStart(st, id) && st.active != Some(id) }

  ghost predicate InProgress(crc: Crc, p: Packet, per: nat, st: State, ds: seq<Bytes>)
    requires per >= 1
  {
    st.active == Some(p.id) && st.lastIdentity != Some(p.id) && Holds(crc, p, per, st.buffers, ds)
  }

  /** A chunk of a frame that waits or is in progress is taken; the last one brings the frame out. */
  lemma ChunkStep(
      crc: Crc, rx: Receiver, p: Packet, limit: int, st: State, ds: seq<Bytes>, i: nat, j: nat)
    requires Expects(rx, p) && Chunked(p, limit) && Sound(rx, st)
    requires i < |p.parts| && HasChunk(p.parts[i], PixelsPerChunk(limit), j)
    requires var per := PixelsPerChunk(limit);
      InProgress(crc, p, per, st, ds) || (Waiting(st, p.id) && NoPixelIn(crc, p, per, ds))
    ensures var per := PixelsPerChunk(limit);
      var d := ChunkDatagram(crc, p, p.parts[i], per, j);
      var (after, r) := Accepted(crc, rx, st, d);
      if AllPixelsIn(crc, p, per, ds + [d]) then after == Completed(p.id) && r == Some(HandedOver(rx, p, limit))
      else InProgress(crc, p, per, after, ds + [d]) && r == None
  {
    hide ChunkDatagram, Packet.Legal, FitsOne, Receiver.Valid, Shaped, DatagramAt, HoldsOutput, Blank, Full, IsExpected,
         Part.Legal, Placed, Gathered, HandedOver, AllPixelsIn, NoPixelIn, Decoded, Agrees, CanStart, Holds, ChunkOf;
    var per, o := PixelsPerChunk(limit), p.parts[i];
    var d, c := ChunkDatagram(crc, p, o, per, j), ChunkOf(o, per, j);
    ChunkArrives(crc, rx, p, limit, i, j);
    assert CanStart(st, p.id) by { MayGoOn(st, p.id); }
    BlankIsShaped(rx);
    var begun := Begun(rx, st, p.id);
    if st.active != Some(p.id) {
      BlankHolds(crc, rx, p, per, ds);
    }
    PlaceHolds(crc, p, limit, begun.buffers, ds, i, j);
    OneChunkPacket(rx, begun.buffers, p, limit, i, j);
    var placed := PlacedAll(begun.buffers, [c]);
    PlacedAllIsShaped(rx, begun.buffers, [c]);
    FullIff(crc, rx, p, per, placed, ds + [d]);
    if Full(placed) {
      GatheredIsFrame(crc, rx, p, limit, placed, ds + [d]);
    }
    StartsOnlyOnce(st, p.id);
  }

  lemma MayGoOn(st: State, id: Identity)
    requires Waiting(st, id) || (st.active == Some(id) && st.lastIdentity != Some(id))
    ensures CanStart(st, id)
  {
  }

  lemma StartsOnlyOnce(st: State, id: Identity)
    requires CanStart(st, id)
    ensures st.lastIdentity != Some(id)
  {
  }

  lemma OneChunkPacket(rx: Receiver, buffers: map<int, Buffer>, p: Packet, limit: int, i: nat, j: nat)
    requires Expects(rx, p) && Chunked(p, limit) && i < |p.parts| && HasChunk(p.parts[i], PixelsPerChunk(limit), j)
    requires p.parts[i].outputId in buffers
    ensures var o := p.parts[i]; var c := ChunkOf(o, PixelsPerChunk(limit), j);
      && Matches(c, rx.outputs) && ByteChannels(c.pixels) && c.outputId == o.outputId
      && PlacedAll(buffers, [c]) == buffers[o.outputId := Placed(buffers[o.outputId], c)]
      && (AllAgree(rx, buffers, [c]) <==> Agrees(buffers[o.outputId], c))
  {
    hide Agrees, Placed, Body;
    var o, per := p.parts[i], PixelsPerChunk(limit);
    var c := ChunkOf(o, per, j);
    OutputIsLegal(p, i);
    ChunkIsLegal(o, per, j);
    assert Matches(o, rx.outputs);
    assert [c][..0] == [];
    assert PlacedAll(buffers, [c][..0]) == buffers;
  }
}
