/** Whole runs of a UDP v3 receiver: a frame comes out once, when its last datagram arrives, and older frames never
    disturb it. */
module UdpV3Reassembly {
  import opened Util
  import opened Ddp
  import opened Fields
  import opened UdpV3
  import opened UdpV3Chunks
  import opened UdpV3Reassembler
  import opened UdpV3Delivery

  // --- the datagrams of a frame, by pixel --------------------------------------------------------

  lemma DatagramOfFrame(crc: Crc, p: Packet, limit: int, d: Bytes) returns (i: nat, j: nat)
    requires Chunked(p, limit) && d in Datagrams(crc, p, limit).value
    ensures i < |p.parts| && HasChunk(p.parts[i], PixelsPerChunk(limit), j)
    ensures d == ChunkDatagram(crc, p, p.parts[i], PixelsPerChunk(limit), j)
  {
    hide ChunkDatagrams, Packet.Legal, FitsOne, ChunkDatagram, HasChunk;
    var per := PixelsPerChunk(limit);
    ChunkDatagramsAre(crc, p, p.parts, per, d);
    i :| 0 <= i < |p.parts| && OfOutput(crc, p, p.parts[i], per, ChunkCount(|p.parts[i].pixels|, per), d);
    j :| HasChunk(p.parts[i], per, j) && d == ChunkDatagram(crc, p, p.parts[i], per, j);
  }

  lemma ChunkIsOfFrame(crc: Crc, p: Packet, limit: int, i: nat, j: nat)
    requires Chunked(p, limit) && i < |p.parts| && HasChunk(p.parts[i], PixelsPerChunk(limit), j)
    ensures ChunkDatagram(crc, p, p.parts[i], PixelsPerChunk(limit), j) in Datagrams(crc, p, limit).value
  {
    hide ChunkDatagrams, Packet.Legal, FitsOne, ChunkDatagram, HasChunk, ChunkCount;
    var per, o := PixelsPerChunk(limit), p.parts[i];
    var d := ChunkDatagram(crc, p, o, per, j);
    ChunkDatagramsAre(crc, p, p.parts, per, d);
    CountsChunks(o, per, j);
    assert OfOutput(crc, p, p.parts[i], per, ChunkCount(|o.pixels|, per), d);
  }

  ghost predicate NoneIn(dg: seq<Bytes>, ds: seq<Bytes>) { forall d <- dg :: d !in ds }

  ghost predicate AllIn(dg: seq<Bytes>, ds: seq<Bytes>) { forall d <- dg :: d in ds }

  /** Each datagram carries some pixel, and each pixel is in some datagram. */
  lemma ArrivedByPixel(crc: Crc, p: Packet, limit: int, ds: seq<Bytes>)
    requires Chunked(p, limit)
    ensures var dg, per := Datagrams(crc, p, limit).value, PixelsPerChunk(limit);
      && (NoneIn(dg, ds) <==> NoPixelIn(crc, p, per, ds)) && (AllIn(dg, ds) <==> AllPixelsIn(crc, p, per, ds))
  {
    hide ChunkDatagrams, Packet.Legal, FitsOne, ChunkDatagram, DatagramAt, ChunkStart, ChunkIndex;
    var dg, per := Datagrams(crc, p, limit).value, PixelsPerChunk(limit);
    forall i, x | 0 <= i < |p.parts| && 0 <= x < |p.parts[i].pixels|
      ensures DatagramAt(crc, p, per, i, x) in dg
    {
      ChunkOfPixel(x, per);
      CarriesPixel(crc, p, limit, i, ChunkIndex(x, per), i, x);
      ChunkIsOfFrame(crc, p, limit, i, ChunkIndex(x, per));
    }
    forall d <- dg
      ensures exists i, x :: 0 <= i < |p.parts| && 0 <= x < |p.parts[i].pixels| && DatagramAt(crc, p, per, i, x) == d
    {
      var i, j := DatagramOfFrame(crc, p, limit, d);
      CarriesPixel(crc, p, limit, i, j, i, ChunkStart(per, j));
    }
  }

  // --- datagrams of other frames -----------------------------------------------------------------

  /** The frame that a datagram belongs to, if the receiver can read it at all. */
  ghost function IdentityOf(crc: Crc, rx: Receiver, d: Bytes): Option<Identity> {
    match Decoded(crc, FRAME, d, rx.FrameFilter())
    case Some(p) => Some(p.id)
    case None =>
      match Decoded(crc, CHUNK, d, rx.ChunkFilter())
      case Some(q) => Some(q.id)
      case None => None
  }

  /** The datagram is no frame of this receiver's, or one that the given frame is newer than, and starts no session. */
  ghost predicate Older(crc: Crc, rx: Receiver, d: Bytes, id: Identity) {
    match IdentityOf(crc, rx, d)
    case None => true
    case Some(other) => IsNewer(id.sequence, other.sequence) && !StartsSession(other)
  }

  /** Of two sequence numbers one at most is newer than the other. */
  lemma NewerIsOneWay(a: int, b: int)
    requires IsNewer(a, b)
    ensures !IsNewer(b, a) && a != b
  {
    var q, r := (a - b) / TWO_32, (a - b) % TWO_32;
    Remainder(b - a, -q - 1, TWO_32 - r);
  }

  lemma Remainder(x: int, q: int, r: int)
    requires x == q * TWO_32 + r && 0 <= r < TWO_32
    ensures x % TWO_32 == r
  {
    var d := x / TWO_32 - q;
    assert d * TWO_32 == r - x % TWO_32;
  }

  /** A frame that waits goes on waiting while older datagrams arrive, whatever they bring out. */
  lemma OlderWhileWaiting(crc: Crc, rx: Receiver, st: State, d: Bytes, id: Identity)
    requires rx.Valid() && Sound(rx, st) && Waiting(st, id) && Older(crc, rx, d, id)
    ensures var (after, r) := Accepted(crc, rx, st, d); Waiting(after, id) && (r.Some? ==> r.value.id != id)
  {
    hide Sound, Receiver.Valid, Decoded, Packet.Legal, AllAgree, PlacedAll, Full, Gathered, Blank;
    var other := IdentityOf(crc, rx, d);
    if other.Some? {
      NewerIsOneWay(id.sequence, other.value.sequence);
    }
  }

  /** A frame in progress is not disturbed by older datagrams, and nor is one that has come out, not even by its
      own. */
  lemma OlderIsIgnored(crc: Crc, rx: Receiver, st: State, d: Bytes, id: Identity)
    requires rx.Valid() && Sound(rx, st) && (st.active == Some(id) || st == Completed(id))
    requires Older(crc, rx, d, id) || (st == Completed(id) && IdentityOf(crc, rx, d) == Some(id))
    ensures Accepted(crc, rx, st, d) == (st, None)
  {
    hide Sound, Receiver.Valid, Decoded, Packet.Legal;
    var other := IdentityOf(crc, rx, d);
    if other.Some? && other != Some(id) {
      NewerIsOneWay(id.sequence, other.value.sequence);
    }
  }

  // --- runs --------------------------------------------------------------------------------------

  ghost function AcceptAll(crc: Crc, rx: Receiver, st: State, ds: seq<Bytes>): (r: (State, seq<Option<Packet>>))
    requires rx.Valid() && Sound(rx, st)
    ensures Sound(rx, r.0) && |r.1| == |ds|
  {
    if ds == [] then (st, [])
    else
      var (before, results) := AcceptAll(crc, rx, st, ds[..|ds| - 1]);
      var (after, r) := Accepted(crc, rx, before, ds[|ds| - 1]);
      (after, results + [r])
  }

  /** The last missing datagram arrives as number k. */
  ghost predicate CompletesAt(dg: seq<Bytes>, ds: seq<Bytes>, k: nat)
    requires k < |ds|
  {
    AllIn(dg, ds[..k + 1]) && !AllIn(dg, ds[..k])
  }

  /** Where a run stands with a frame. */
  ghost predicate Stands(crc: Crc, p: Packet, limit: int, st: State, ds: seq<Bytes>)
    requires p.kind.FRAME? && Datagrams(crc, p, limit).Some?
  {
    var dg := Datagrams(crc, p, limit).value;
    if NoneIn(dg, ds) then Waiting(st, p.id)
    else if AllIn(dg, ds) then st == Completed(p.id)
    else Chunked(p, limit) && InProgress(crc, p, PixelsPerChunk(limit), st, ds)
  }

  lemma DatagramsAreThere(crc: Crc, rx: Receiver, p: Packet, limit: int)
    requires Expects(rx, p) && p.kind.FRAME? && p.Legal() && Datagrams(crc, p, limit).Some?
    ensures FitsOne(p, limit) || Chunked(p, limit)
    ensures Datagrams(crc, p, limit).value != []
  {
    hide FitsOne, PartsLegal, Body, ChunkDatagrams;
    if !FitsOne(p, limit) {
      var o := p.parts[0];
      assert Matches(o, rx.outputs);
      LookupFinds(rx.outputs, o.outputId);
      ChunkedPart(p, limit, 0);
      ChunkIsOfFrame(crc, p, limit, 0, 0);
    }
  }

  /** One of the frame's own datagrams. */
  lemma OwnStep(crc: Crc, rx: Receiver, p: Packet, limit: int, st: State, ds: seq<Bytes>, d: Bytes)
    requires Expects(rx, p) && p.kind.FRAME? && p.Legal() && Datagrams(crc, p, limit).Some? && Sound(rx, st)
    requires Stands(crc, p, limit, st, ds) && d in Datagrams(crc, p, limit).value
    ensures var dg := Datagrams(crc, p, limit).value;
      var (after, r) := Accepted(crc, rx, st, d);
      && Stands(crc, p, limit, after, ds + [d])
      && r == if AllIn(dg, ds + [d]) && !AllIn(dg, ds) then Some(HandedOver(rx, p, limit)) else None
  {
    hide FitsOne, Packet.Legal, Datagrams, Receiver.Valid, IsExpected, Sound, Accepted, HandedOver, Waiting;
    var dg := Datagrams(crc, p, limit).value;
    DatagramsAreThere(crc, rx, p, limit);
    if AllIn(dg, ds) {
      OwnIdentity(crc, rx, p, limit, d);
      OlderIsIgnored(crc, rx, st, d, p.id);
    } else if FitsOne(p, limit) {
      WholeStep(crc, rx, p, limit, st, d);
      OneDatagram(crc, p, limit);
    } else {
      var i, j := DatagramOfFrame(crc, p, limit, d);
      ArrivedByPixel(crc, p, limit, ds);
      ArrivedByPixel(crc, p, limit, ds + [d]);
      ChunkStep(crc, rx, p, limit, st, ds, i, j);
    }
  }

  lemma OneDatagram(crc: Crc, p: Packet, limit: int)
    requires p.kind.FRAME? && FitsOne(p, limit) && Datagrams(crc, p, limit).Some?
    ensures Datagrams(crc, p, limit).value == [Encode(crc, p)] && limit <= MAX_UDP_PAYLOAD
  {
  }

  lemma OwnIdentity(crc: Crc, rx: Receiver, p: Packet, limit: int, d: Bytes)
    requires Expects(rx, p) && p.kind.FRAME? && p.Legal() && Datagrams(crc, p, limit).Some?
    requires d in Datagrams(crc, p, limit).value
    ensures IdentityOf(crc, rx, d) == Some(p.id)
  {
    hide FitsOne, Packet.Legal, Datagrams, Receiver.Valid, IsExpected, Decoded, ChunkDatagram;
    DatagramsAreThere(crc, rx, p, limit);
    if FitsOne(p, limit) {
      OneDatagram(crc, p, limit);
      FrameArrives(crc, rx, p, limit);
    } else {
      var i, j := DatagramOfFrame(crc, p, limit, d);
      ChunkArrives(crc, rx, p, limit, i, j);
    }
  }

  lemma WholeStep(crc: Crc, rx: Receiver, p: Packet, limit: int, st: State, d: Bytes)
    requires Expects(rx, p) && p.kind.FRAME? && FitsOne(p, limit) && Datagrams(crc, p, limit).Some? && Sound(rx, st)
    requires Waiting(st, p.id) && d in Datagrams(crc, p, limit).value
    ensures Accepted(crc, rx, st, d) == (Completed(p.id), Some(HandedOver(rx, p, limit)))
  {
    hide FitsOne, Receiver.Valid, IsExpected, Decoded, Sound;
    OneDatagram(crc, p, limit);
    FrameArrives(crc, rx, p, limit);
  }

  /** An older datagram, or none of the receiver's. */
  lemma OtherStep(crc: Crc, rx: Receiver, p: Packet, limit: int, st: State, ds: seq<Bytes>, d: Bytes)
    requires Expects(rx, p) && p.kind.FRAME? && p.Legal() && Datagrams(crc, p, limit).Some? && Sound(rx, st)
    requires Stands(crc, p, limit, st, ds) && d !in Datagrams(crc, p, limit).value && Older(crc, rx, d, p.id)
    ensures var (after, r) := Accepted(crc, rx, st, d);
      Stands(crc, p, limit, after, ds + [d]) && (r.Some? ==> r.value.id != p.id)
  {
    hide FitsOne, Packet.Legal, Datagrams, Receiver.Valid, IsExpected, Sound, Accepted, Waiting, Older, Holds,
         NoPixelIn, AllPixelsIn;
    var dg := Datagrams(crc, p, limit).value;
    assert NoneIn(dg, ds + [d]) <==> NoneIn(dg, ds);
    assert AllIn(dg, ds + [d]) <==> AllIn(dg, ds);
    if NoneIn(dg, ds) {
      OlderWhileWaiting(crc, rx, st, d, p.id);
    } else {
      OlderIsIgnored(crc, rx, st, d, p.id);
      if !AllIn(dg, ds) {
        StillHolds(crc, p, limit, st.buffers, ds, d);
      }
    }
  }

  lemma StillHolds(crc: Crc, p: Packet, limit: int, buffers: map<int, Buffer>, ds: seq<Bytes>, d: Bytes)
    requires Chunked(p, limit) && Holds(crc, p, PixelsPerChunk(limit), buffers, ds)
    requires d !in Datagrams(crc, p, limit).value
    ensures Holds(crc, p, PixelsPerChunk(limit), buffers, ds + [d])
  {
    hide FitsOne, Packet.Legal, Datagrams, DatagramAt, ChunkDatagram;
    var per := PixelsPerChunk(limit);
    forall i | 0 <= i < |p.parts|
      ensures HoldsOutput(crc, p, per, i, buffers, ds + [d])
    {
      assert HoldsOutput(crc, p, per, i, buffers, ds);
      forall x | 0 <= x < |p.parts[i].pixels|
        ensures DatagramAt(crc, p, per, i, x) != d
      {
        ChunkOfPixel(x, per);
        CarriesPixel(crc, p, limit, i, ChunkIndex(x, per), i, x);
        ChunkIsOfFrame(crc, p, limit, i, ChunkIndex(x, per));
      }
    }
  }

  /** Give a receiver that expects a frame, and where the frame may start, any run of datagrams: the frame's own, in
      any order and any number of times, and among them any that are older or not the receiver's. The frame comes out
      exactly where the last of its datagrams arrives for the first time, whole and once; none of its other datagrams
      brings anything out, and no other datagram brings it out. */
  lemma {:induction false} FrameComesOutOnce(crc: Crc, rx: Receiver, p: Packet, limit: int, st: State, ds: seq<Bytes>)
    requires Expects(rx, p) && p.kind.FRAME? && p.Legal() && Datagrams(crc, p, limit).Some? && Sound(rx, st)
    requires Waiting(st, p.id)
    requires forall d <- ds :: d in Datagrams(crc, p, limit).value || Older(crc, rx, d, p.id)
    ensures var dg, results := Datagrams(crc, p, limit).value, AcceptAll(crc, rx, st, ds).1;
      forall k :: 0 <= k < |ds| ==>
        if ds[k] in dg then results[k] == if CompletesAt(dg, ds, k) then Some(HandedOver(rx, p, limit)) else None
        else results[k].Some? ==> results[k].value.id != p.id
    ensures Stands(crc, p, limit, AcceptAll(crc, rx, st, ds).0, ds)
  {
    hide FitsOne, Packet.Legal, Datagrams, Receiver.Valid, IsExpected, Sound, Accepted, Waiting, Older, Stands,
         HandedOver, AllIn;
    var dg := Datagrams(crc, p, limit).value;
    if ds == [] {
      NothingStands(crc, rx, p, limit, st);
    } else {
      var init, d := ds[..|ds| - 1], ds[|ds| - 1];
      FrameComesOutOnce(crc, rx, p, limit, st, init);
      var before := AcceptAll(crc, rx, st, init).0;
      assert ds == init + [d];
      forall k | 0 <= k < |init|
        ensures CompletesAt(dg, ds, k) <==> CompletesAt(dg, init, k)
      {
        assert ds[..k + 1] == init[..k + 1] && ds[..k] == init[..k];
      }
      assert ds[..|init| + 1] == ds && ds[..|init|] == init;
      if d in dg {
        OwnStep(crc, rx, p, limit, before, init, d);
      } else {
        OtherStep(crc, rx, p, limit, before, init, d);
      }
    }
  }

  lemma NothingStands(crc: Crc, rx: Receiver, p: Packet, limit: int, st: State)
    requires Expects(rx, p) && p.kind.FRAME? && p.Legal() && Datagrams(crc, p, limit).Some? && Waiting(st, p.id)
    ensures Stands(crc, p, limit, st, [])
  {
    hide FitsOne, Packet.Legal, Datagrams, Receiver.Valid, IsExpected, Waiting;
    DatagramsAreThere(crc, rx, p, limit);
  }

  /** A receiver that can take the frame, reached by all its datagrams in any order, hands it over once. */
  lemma FrameComesOut(crc: Crc, rx: Receiver, p: Packet, limit: int, st: State, ds: seq<Bytes>) returns (k: nat)
    requires Expects(rx, p) && p.kind.FRAME? && p.Legal() && Datagrams(crc, p, limit).Some? && Sound(rx, st)
    requires Waiting(st, p.id)
    requires forall d <- ds :: d in Datagrams(crc, p, limit).value || Older(crc, rx, d, p.id)
    requires forall d <- Datagrams(crc, p, limit).value :: d in ds
    ensures var results := AcceptAll(crc, rx, st, ds).1;
      && k < |ds| && results[k] == Some(HandedOver(rx, p, limit))
      && forall j :: 0 <= j < |ds| && results[j].Some? && results[j].value.id == p.id ==> j == k
  {
    hide FitsOne, Packet.Legal, Datagrams, Receiver.Valid, IsExpected, Sound, Waiting, Older, Stands, HandedOver,
         CompletesAt, AcceptAll;
    var dg := Datagrams(crc, p, limit).value;
    DatagramsAreThere(crc, rx, p, limit);
    FrameComesOutOnce(crc, rx, p, limit, st, ds);
    k := LastToArrive(dg, ds);
    forall j | 0 <= j < |ds| && CompletesAt(dg, ds, j)
      ensures j == k
    {
      CompletesOnce(dg, ds, j, k);
    }
    assert ds[k] in dg by { LastIsOwn(dg, ds, k); }
  }

  lemma LastToArrive(dg: seq<Bytes>, ds: seq<Bytes>) returns (k: nat)
    requires dg != [] && AllIn(dg, ds)
    ensures k < |ds| && CompletesAt(dg, ds, k)
  {
    assert dg[0] in ds;
    var init := ds[..|ds| - 1];
    if AllIn(dg, init) {
      k := LastToArrive(dg, init);
      assert init[..k + 1] == ds[..k + 1] && init[..k] == ds[..k];
    } else {
      k := |ds| - 1;
      assert ds[..k + 1] == ds;
    }
  }

  lemma CompletesOnce(dg: seq<Bytes>, ds: seq<Bytes>, j: nat, k: nat)
    requires j < |ds| && k < |ds| && CompletesAt(dg, ds, j) && CompletesAt(dg, ds, k)
    ensures j == k
  {
  }

  lemma LastIsOwn(dg: seq<Bytes>, ds: seq<Bytes>, k: nat)
    requires k < |ds| && CompletesAt(dg, ds, k)
    ensures ds[k] in dg
  {
    assert ds[..k + 1] == ds[..k] + [ds[k]];
  }

  // --- which sequence numbers are newer ----------------------------------------------------------

  /** Of two sequence numbers the greater is newer when it is ahead by less than half the range, and the smaller when
      it is behind by more: then it has gone round. */
  lemma NewerIs(candidate: int, previous: int)
    requires 0 <= candidate < 0x1_0000_0000 && 0 <= previous < 0x1_0000_0000
    ensures IsNewer(candidate, previous) <==>
      || (previous < candidate && candidate - previous < 0x8000_0000)
      || (candidate < previous && previous - candidate > 0x8000_0000)
  {
    if candidate < previous {
      Remainder(candidate - previous, -1, candidate - previous + TWO_32);
    } else {
      Remainder(candidate - previous, 0, candidate - previous);
    }
  }

  /** A session starts with a key frame of sequence 1; the key is the second flag. */
  lemma SessionStartIs(id: Identity)
    requires id.Legal()
    ensures StartsSession(id) <==> id.sequence == 1 && id.flags in {2, 3, 6, 7}
  {
  }

  // --- what else a receiver promises -------------------------------------------------------------

  /** A frame in progress is given up for the datagram of another frame if and only if that frame has another sequence
      number, has not just come out, and starts a session or is newer. */
  lemma GivenUpIff(crc: Crc, rx: Receiver, st: State, d: Bytes, id: Identity)
    requires rx.Valid() && Sound(rx, st) && st.active == Some(id)
    requires IdentityOf(crc, rx, d).Some? && IdentityOf(crc, rx, d) != Some(id)
    ensures var other := IdentityOf(crc, rx, d).value;
      Accepted(crc, rx, st, d).0.active != Some(id)
      <==> && other.sequence != id.sequence && st.lastIdentity != Some(other)
           && (StartsSession(other) || IsNewer(other.sequence, id.sequence))
  {
    hide Sound, Receiver.Valid, Decoded, Packet.Legal, AllAgree, PlacedAll, Full, Gathered, Blank;
  }

  /** Whatever arrives, a frame that comes out is a legal frame of the receiver's node, with exactly the outputs that
      it expects. */
  lemma WhatComesOutIsLegal(crc: Crc, rx: Receiver, st: State, d: Bytes)
    requires rx.Valid() && Sound(rx, st) && Accepted(crc, rx, st, d).1.Some?
    ensures var p := Accepted(crc, rx, st, d).1.value; p.kind.FRAME? && p.Legal() && Expects(rx, p)
    ensures IdentityOf(crc, rx, d) == Some(Accepted(crc, rx, st, d).1.value.id)
  {
    hide Body, Part.Legal, Receiver.Valid, IsExpected, Shaped, AllAgree, Full, Gathered, CanStart, Blank;
    if Decoded(crc, FRAME, d, rx.FrameFilter()).None? {
      var q := Decoded(crc, CHUNK, d, rx.ChunkFilter()).value;
      BlankIsShaped(rx);
      LegalChunks(q);
      var begun := Begun(rx, st, q.id);
      PlacedAllIsShaped(rx, begun.buffers, q.parts);
      GatheredIsLegal(rx, PlacedAll(begun.buffers, q.parts));
    }
  }

  lemma GatheredIsLegal(rx: Receiver, buffers: map<int, Buffer>)
    requires rx.Valid() && Shaped(rx, buffers) && Full(buffers)
    ensures var parts := Gathered(rx, buffers);
      PartsLegal(FRAME, parts) && 1 <= |parts| <= 3 && IsExpected(parts, rx.outputs)
  {
    var parts := Gathered(rx, buffers);
    forall i | 0 <= i < |parts|
      ensures parts[i].Legal(FRAME) && Matches(parts[i], rx.outputs)
    {
      var e := rx.outputs[i];
      assert e in rx.outputs;
      LookupOfMember(rx.outputs, i);
      ValuesAreBytes(buffers[e.outputId]);
    }
    forall e <- rx.outputs
      ensures e.outputId in PartIds(parts)
    {
      var i :| 0 <= i < |rx.outputs| && rx.outputs[i] == e;
      assert PartIds(parts)[i] == e.outputId;
    }
  }

  lemma ValuesAreBytes(buffer: Buffer)
    requires BufferFull(buffer) && forall x <- buffer :: x.Some? ==> ByteChannels([x.value])
    ensures ByteChannels(Values(buffer))
  {
    forall v <- Values(buffer)
      ensures ByteChannels([v])
    {
      var k :| 0 <= k < |buffer| && Values(buffer)[k] == v;
      assert buffer[k] in buffer;
    }
    forall v <- Values(buffer)
      ensures ByteChannel(v.red) && ByteChannel(v.green) && ByteChannel(v.blue)
    {
      assert v in [v];
    }
  }
}
