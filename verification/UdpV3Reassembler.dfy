/** The UDP v3 receiver: at most one incomplete frame, filled chunk by chunk, in any order. */
module UdpV3Reassembler {
  import opened Util
  import opened Ddp
  import opened Fields
  import opened Lists
  import opened UdpV3

  type Buffer = seq<Option<Pixel>>

  /** What a receiver is for: one node, and its outputs in the order in which they were given. */
  datatype Receiver = Receiver(nodeId: int, outputs: seq<Expected>) {
    /** What the constructor accepts. */
    predicate Valid() {
      && 1 <= nodeId <= 0xFF && 1 <= |outputs| <= 3
      && (forall i :: 0 <= i < |outputs| ==>
            var e := outputs[i];
            1 <= e.outputId <= 0xFF && 0 <= e.gpio <= 0xFF && 1 <= e.pixelCount <= MAX_UINT16)
      && (forall i, j :: 0 <= i < j < |outputs| ==>
            outputs[i].outputId != outputs[j].outputId && outputs[i].gpio != outputs[j].gpio)
    }

    function FrameFilter(): Filter { Filter(Some(nodeId), None, Some(outputs), MAX_UDP_PAYLOAD) }

    function ChunkFilter(): Filter { Filter(Some(nodeId), None, None, MAX_UDP_PAYLOAD) }
  }

  datatype State = State(
    active: Option<Identity>, buffers: map<int, Buffer>, lastIdentity: Option<Identity>, lastSequence: Option<int>)

  const NEW: State := State(None, map[], None, None)

  // --- which frames may start --------------------------------------------------------------------

  /** Newer in uint32 arithmetic: ahead by less than half the range. */
  predicate IsNewer(candidate: int, previous: int) { 0 < (candidate - previous) % TWO_32 < 0x8000_0000 }

  predicate StartsSession(id: Identity) { id.sequence == 1 && id.IsKey() }

  function Reference(st: State): Option<int> {
    if st.active.Some? then Some(st.active.value.sequence) else st.lastSequence
  }

  predicate CanStart(st: State, id: Identity) {
    if st.lastIdentity == Some(id) then false
    else if Reference(st).None? then true
    else if st.active.Some? && id.sequence == st.active.value.sequence then st.active == Some(id)
    else StartsSession(id) || IsNewer(id.sequence, Reference(st).value)
  }

  // --- buffers -----------------------------------------------------------------------------------

  function Blank(outputs: seq<Expected>): map<int, Buffer> {
    if outputs == [] then map[]
    else
      var e := outputs[|outputs| - 1];
      Blank(outputs[..|outputs| - 1])[e.outputId := seq(Max(e.pixelCount, 0), i => None)]
  }

  /** One buffer for each expected output, as long as the output, holding bytes. */
  predicate Shaped(rx: Receiver, buffers: map<int, Buffer>) {
    && (forall e <- rx.outputs :: e.outputId in buffers && |buffers[e.outputId]| == e.pixelCount)
    && (forall id <- buffers :: exists e <- rx.outputs :: e.outputId == id)
    && (forall id <- buffers :: forall x <- buffers[id] :: x.Some? ==> ByteChannels([x.value]))
  }

  /** No pixel of the chunk contradicts one that arrived before. */
  predicate Agrees(buffer: Buffer, c: Part) {
    forall k :: 0 <= k < |c.pixels| && 0 <= c.offset + k < |buffer| ==>
      buffer[c.offset + k].Some? ==> buffer[c.offset + k].value == c.pixels[k]
  }

  predicate AllAgree(rx: Receiver, buffers: map<int, Buffer>, chunks: seq<Part>) {
    forall i :: 0 <= i < |chunks| ==>
      && Matches(chunks[i], rx.outputs) && chunks[i].outputId in buffers
      && Agrees(buffers[chunks[i].outputId], chunks[i])
  }

  function Placed(buffer: Buffer, c: Part): (r: Buffer)
    ensures |r| == |buffer|
  {
    seq(|buffer|, x requires 0 <= x < |buffer| =>
      if c.offset <= x < c.offset + |c.pixels| then Some(c.pixels[x - c.offset]) else buffer[x])
  }

  function PlacedAll(buffers: map<int, Buffer>, chunks: seq<Part>): map<int, Buffer> {
    if chunks == [] then buffers
    else
      var before, c := PlacedAll(buffers, chunks[..|chunks| - 1]), chunks[|chunks| - 1];
      if c.outputId in before then before[c.outputId := Placed(before[c.outputId], c)] else before
  }

  predicate BufferFull(buffer: Buffer) { forall x <- buffer :: x.Some? }

  predicate Full(buffers: map<int, Buffer>) { forall id <- buffers :: BufferFull(buffers[id]) }

  function Values(buffer: Buffer): (r: seq<Pixel>)
    requires BufferFull(buffer)
    ensures |r| == |buffer|
  {
    seq(|buffer|, x requires 0 <= x < |buffer| => assert buffer[x] in buffer; buffer[x].value)
  }

  function Gathered(rx: Receiver, buffers: map<int, Buffer>): (r: seq<Part>)
    requires Shaped(rx, buffers) && Full(buffers)
    ensures |r| == |rx.outputs|
  {
    seq(|rx.outputs|, i requires 0 <= i < |rx.outputs| =>
      var e := rx.outputs[i];
      assert e in rx.outputs;
      Part(e.outputId, e.gpio, e.pixelCount, 0, Values(buffers[e.outputId])))
  }

  // --- one datagram ------------------------------------------------------------------------------

  predicate Sound(rx: Receiver, st: State) { st.active.Some? ==> Shaped(rx, st.buffers) }

  function Begun(rx: Receiver, st: State, id: Identity): State {
    if st.active == Some(id) then st else st.(active := Some(id), buffers := Blank(rx.outputs))
  }

  function Completed(id: Identity): State { State(None, map[], Some(id), Some(id.sequence)) }

  lemma {:induction false} LookupFinds(outputs: seq<Expected>, id: int)
    ensures Lookup(outputs, id).Some? ==>
      Lookup(outputs, id).value in outputs && Lookup(outputs, id).value.outputId == id
  {
    if outputs != [] {
      LookupFinds(outputs[..|outputs| - 1], id);
    }
  }

  lemma {:induction false} LookupOfMember(outputs: seq<Expected>, i: nat)
    requires i < |outputs|
    requires forall j, k :: 0 <= j < k < |outputs| ==> outputs[j].outputId != outputs[k].outputId
    ensures Lookup(outputs, outputs[i].outputId) == Some(outputs[i])
  {
    if i < |outputs| - 1 {
      LookupOfMember(outputs[..|outputs| - 1], i);
    }
  }

  lemma {:induction false} BlankByOutput(outputs: seq<Expected>, id: int)
    ensures id in Blank(outputs) <==> Lookup(outputs, id).Some?
    ensures Lookup(outputs, id).Some? ==>
      Blank(outputs)[id] == seq(Max(Lookup(outputs, id).value.pixelCount, 0), i => None)
  {
    if outputs != [] {
      BlankByOutput(outputs[..|outputs| - 1], id);
    }
  }

  lemma BlankIsShaped(rx: Receiver)
    requires rx.Valid()
    ensures Shaped(rx, Blank(rx.outputs))
  {
    var blank := Blank(rx.outputs);
    forall e <- rx.outputs
      ensures e.outputId in blank && |blank[e.outputId]| == e.pixelCount
    {
      var i :| 0 <= i < |rx.outputs| && rx.outputs[i] == e;
      LookupOfMember(rx.outputs, i);
      BlankByOutput(rx.outputs, e.outputId);
    }
    forall id <- blank
      ensures (exists e <- rx.outputs :: e.outputId == id) && forall x <- blank[id] :: x == None
    {
      BlankByOutput(rx.outputs, id);
      LookupFinds(rx.outputs, id);
    }
  }

  lemma PlacedIsShaped(rx: Receiver, buffers: map<int, Buffer>, c: Part)
    requires Shaped(rx, buffers) && c.outputId in buffers && ByteChannels(c.pixels)
    ensures Shaped(rx, buffers[c.outputId := Placed(buffers[c.outputId], c)])
  {
    var old_, after := buffers[c.outputId], buffers[c.outputId := Placed(buffers[c.outputId], c)];
    forall x <- Placed(old_, c)
      ensures x.Some? ==> ByteChannels([x.value])
    {
      var k :| 0 <= k < |old_| && Placed(old_, c)[k] == x;
      if c.offset <= k < c.offset + |c.pixels| {
        assert c.pixels[k - c.offset] in c.pixels;
      } else {
        assert old_[k] in old_;
      }
    }
  }

  lemma {:induction false} PlacedAllIsShaped(rx: Receiver, buffers: map<int, Buffer>, chunks: seq<Part>)
    requires Shaped(rx, buffers) && forall c <- chunks :: ByteChannels(c.pixels)
    ensures Shaped(rx, PlacedAll(buffers, chunks))
  {
    hide Shaped, Placed, ByteChannels;
    if chunks != [] {
      PlacedAllIsShaped(rx, buffers, chunks[..|chunks| - 1]);
      var before, c := PlacedAll(buffers, chunks[..|chunks| - 1]), chunks[|chunks| - 1];
      if c.outputId in before {
        PlacedIsShaped(rx, before, c);
      }
    }
  }

  lemma LegalChunks(q: Packet)
    requires q.Legal()
    ensures forall c <- q.parts :: c.Legal(q.kind) && ByteChannels(c.pixels)
    ensures Distinct(PartIds(q.parts))
  {
  }

  /** A chunk packet: begin its frame unless it is the active one, refuse it if it contradicts what arrived, place its
      pixels, and hand the frame over when nothing is missing. */
  function AcceptedChunks(rx: Receiver, st: State, q: Packet): (r: (State, Option<Packet>))
    requires rx.Valid() && Sound(rx, st) && q.kind.CHUNK? && q.Legal()
    ensures Sound(rx, r.0)
  {
    if !CanStart(st, q.id) then (st, None)
    else
      BlankIsShaped(rx);
      LegalChunks(q);
      var begun := Begun(rx, st, q.id);
      if !AllAgree(rx, begun.buffers, q.parts) then (begun, None)
      else
        PlacedAllIsShaped(rx, begun.buffers, q.parts);
        var placed := PlacedAll(begun.buffers, q.parts);
        if !Full(placed) then (begun.(buffers := placed), None)
        else (Completed(q.id), Some(Packet(FRAME, rx.nodeId, q.id, Gathered(rx, placed))))
  }

  ghost function Accepted(crc: Crc, rx: Receiver, st: State, d: Bytes): (r: (State, Option<Packet>))
    requires rx.Valid() && Sound(rx, st)
    ensures Sound(rx, r.0)
  {
    match Decoded(crc, FRAME, d, rx.FrameFilter())
    case Some(p) => if CanStart(st, p.id) then (Completed(p.id), Some(p)) else (st, None)
    case None =>
      match Decoded(crc, CHUNK, d, rx.ChunkFilter())
      case Some(q) => AcceptedChunks(rx, st, q)
      case None => (st, None)
  }

  // --- the receiver ------------------------------------------------------------------------------

  class Reassembler {
    const crc: Crc
    const rx: Receiver
    var activeIdentity: Option<Identity>
    var buffers: map<int, Buffer>
    var lastCompletedIdentity: Option<Identity>
    var lastCompletedSequence: Option<int>

    function Now(): State
      reads this
    {
      State(activeIdentity, buffers, lastCompletedIdentity, lastCompletedSequence)
    }

    predicate Valid()
      reads this
    {
      rx.Valid() && Sound(rx, Now())
    }

    constructor (crc: Crc, rx: Receiver)
      requires rx.Valid()
      ensures Valid() && this.crc == crc && this.rx == rx && Now() == NEW
    {
      this.crc, this.rx := crc, rx;
      activeIdentity, buffers, lastCompletedIdentity, lastCompletedSequence := None, map[], None, None;
    }

    method Accept(d: Bytes) returns (r: Option<Packet>)
      requires Valid()
      modifies this
      ensures Valid() && (Now(), r) == Accepted(crc, rx, old(Now()), d)
    {
      hide Sound, Receiver.Valid, CanStart, AcceptedChunks, Decoded, Packet.Legal;
      var complete := DecodePacket(crc, FRAME, d, rx.FrameFilter());
      if complete.Some? {
        if !CanStart(Now(), complete.value.id) {
          return None;
        }
        MarkComplete(complete.value.id);
        return complete;
      }
      var packet := DecodePacket(crc, CHUNK, d, rx.ChunkFilter());
      if packet.None? {
        return None;
      }
      EncodeInvertsDecode(crc, CHUNK, d, rx.ChunkFilter());
      EncodableIsLegal(packet.value);
      r := AcceptChunks(packet.value);
    }

    method MarkComplete(id: Identity)
      modifies this
      ensures Now() == Completed(id) && Sound(rx, Now())
    {
      lastCompletedIdentity, lastCompletedSequence := Some(id), Some(id.sequence);
      activeIdentity, buffers := None, map[];
    }

    method AcceptChunks(q: Packet) returns (r: Option<Packet>)
      requires Valid() && q.kind.CHUNK? && q.Legal()
      modifies this
      ensures Valid() && (Now(), r) == AcceptedChunks(rx, old(Now()), q)
    {
      hide Shaped, CanStart, Packet.Legal, Blank, PlacedAll, Gathered, AllAgree, Full, Receiver.Valid;
      if !CanStart(Now(), q.id) {
        return None;
      }
      BlankIsShaped(rx);
      LegalChunks(q);
      if activeIdentity != Some(q.id) {
        activeIdentity, buffers := Some(q.id), Blank(rx.outputs);
      }
      var agree := CheckChunks(q.parts);
      if !agree {
        return None;
      }
      PlacedAllIsShaped(rx, buffers, q.parts);
      PlaceChunks(q.parts);
      if !Full(buffers) {
        return None;
      }
      r := Some(Packet(FRAME, rx.nodeId, q.id, Gathered(rx, buffers)));
      MarkComplete(q.id);
    }

    /** The checking loop, pixel by pixel. */
    method CheckChunks(chunks: seq<Part>) returns (agree: bool)
      requires Shaped(rx, buffers) && rx.Valid() && forall c <- chunks :: c.Legal(CHUNK)
      ensures agree <==> AllAgree(rx, buffers, chunks)
    {
      hide Shaped, Agrees, Receiver.Valid, Part.Legal;
      for i := 0 to |chunks|
        invariant AllAgree(rx, buffers, chunks[..i])
      {
        var c := chunks[i];
        assert chunks[..i + 1][..i] == chunks[..i];
        if !Matches(c, rx.outputs) {
          return false;
        }
        MatchedHasRoom(rx, buffers, c);
        var target := buffers[c.outputId];
        var fits := CheckPixels(target, c);
        if !fits {
          return false;
        }
        assert AllAgree(rx, buffers, chunks[..i + 1]) by {
          assert forall j :: 0 <= j < i ==> chunks[..i + 1][j] == chunks[..i][j];
        }
      }
      assert chunks[..|chunks|] == chunks;
      return true;
    }

    method CheckPixels(target: Buffer, c: Part) returns (fits: bool)
      requires 0 <= c.offset && c.offset + |c.pixels| <= |target|
      ensures fits <==> Agrees(target, c)
    {
      for k := 0 to |c.pixels|
        invariant forall j :: 0 <= j < k ==>
          target[c.offset + j].Some? ==> target[c.offset + j].value == c.pixels[j]
      {
        var existing := target[c.offset + k];
        if existing.Some? && existing.value != c.pixels[k] {
          return false;
        }
      }
      return true;
    }

    method PlaceChunks(chunks: seq<Part>)
      requires Shaped(rx, buffers) && rx.Valid() && AllAgree(rx, buffers, chunks)
      requires forall c <- chunks :: c.Legal(CHUNK)
      modifies this`buffers
      ensures buffers == PlacedAll(old(buffers), chunks)
    {
      hide Shaped, Receiver.Valid, Part.Legal, Agrees, Placed, Matches;
      for i := 0 to |chunks|
        invariant buffers == PlacedAll(old(buffers), chunks[..i]) && buffers.Keys == old(buffers).Keys
      {
        var c := chunks[i];
        assert chunks[..i + 1][..i] == chunks[..i];
        assert c.outputId in old(buffers);
        buffers := buffers[c.outputId := Placed(buffers[c.outputId], c)];
      }
      assert chunks[..|chunks|] == chunks;
    }
  }

  lemma EncodableIsLegal(q: Packet)
    requires q.Encodable()
    ensures q.Legal()
  {
  }

  /** A legal chunk that matches lies within its buffer. */
  lemma MatchedHasRoom(rx: Receiver, buffers: map<int, Buffer>, c: Part)
    requires rx.Valid() && Shaped(rx, buffers) && c.Legal(CHUNK) && Matches(c, rx.outputs)
    ensures c.outputId in buffers && 0 <= c.offset && c.offset + |c.pixels| <= c.total == |buffers[c.outputId]|
  {
    LookupFinds(rx.outputs, c.outputId);
  }
}
