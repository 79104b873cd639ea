/** The UDP v3 output end to end: what a node's receiver hands over when a frame was counted as sent. */
module UdpV3EndToEnd {
  import opened Util
  import opened Fields
  import opened UdpV3
  import opened UdpV3Chunks
  import opened UdpV3Reassembler
  import opened UdpV3Delivery
  import opened UdpV3Reassembly
  import A = UdpV3Accounting
  import D = Ddp
  import M = FrameMapping
  import O = DatagramOutput
  import T = UdpV3Output
  import U = UdpV2Delivery

  // --- the encoder of the output -----------------------------------------------------------------

  function PartOf(o: M.OutputFrame, round: U.Round): Part {
    Part(o.outputId, o.gpio, |o.pixels|, 0, U.Rounded(o.pixels, round))
  }

  function PartsOf(outputs: seq<M.OutputFrame>, round: U.Round): (r: seq<Part>)
    ensures |r| == |outputs|
  {
    seq(|outputs|, i requires 0 <= i < |outputs| => PartOf(outputs[i], round))
  }

  function FlagsOf(frame: T.Frame, stamp: T.Stamp): int {
    (if frame.safeState then 1 else 0) + (if stamp.key then 2 else 0) + (if stamp.applyAt.Some? then 4 else 0)
  }

  /** The packet of one node, once the time stamp is an integer. */
  function PacketOf(n: M.NodeFrame, frame: T.Frame, stamp: T.Stamp, round: U.Round): Packet
    requires frame.mediaUs.Some?
  {
    Packet(FRAME, n.nodeId, Identity(frame.sequence, frame.mediaUs.value, stamp.applyAt, FlagsOf(frame, stamp)),
           PartsOf(n.outputs, round))
  }

  /** The packet carries the node's number, the frame's sequence, time and deadline, a flag each for the safe state,
      the key and the deadline, and every output with its number, its pin and its rounded pixels. */
  predicate CarriesNode(p: Packet, n: M.NodeFrame, frame: T.Frame, stamp: T.Stamp, round: U.Round) {
    && p.nodeId == n.nodeId && p.id.sequence == frame.sequence && Some(p.id.mediaUs) == frame.mediaUs
    && p.id.applyAtUs == stamp.applyAt && 0 <= p.id.flags < 8
    && (p.id.flags % 2 == 1 <==> frame.safeState) && ((p.id.flags / 2) % 2 == 1 <==> stamp.key)
    && (p.id.flags / 4 == 1 <==> stamp.applyAt.Some?)
    && |p.parts| == |n.outputs|
    && forall j :: 0 <= j < |n.outputs| ==> CarriesOutput(p.parts[j], n.outputs[j], round)
  }

  predicate CarriesOutput(part: Part, o: M.OutputFrame, round: U.Round) {
    && part.outputId == o.outputId && part.gpio == o.gpio && part.total == |part.pixels| == |o.pixels|
    && part.offset == 0
    && forall x :: 0 <= x < |o.pixels| ==>
         part.pixels[x] == D.Pixel(round(o.pixels[x].r * 255.0), round(o.pixels[x].g * 255.0),
                                   round(o.pixels[x].b * 255.0))
  }

  lemma PacketCarries(n: M.NodeFrame, frame: T.Frame, stamp: T.Stamp, round: U.Round)
    requires frame.mediaUs.Some?
    ensures CarriesNode(PacketOf(n, frame, stamp, round), n, frame, stamp, round)
  {
    hide CarriesOutput;
    forall j | 0 <= j < |n.outputs|
      ensures CarriesOutput(PartOf(n.outputs[j], round), n.outputs[j], round)
    {
      PartCarries(n.outputs[j], round);
    }
  }

  lemma PartCarries(o: M.OutputFrame, round: U.Round)
    ensures CarriesOutput(PartOf(o, round), o, round)
  {
  }

  /** The datagrams of one node, or nothing when a constructor or the packetizer raises. */
  function UdpV3Encoder(round: U.Round, crc: Crc): T.Encoder {
    (n: M.NodeFrame, frame: T.Frame, stamp: T.Stamp) =>
      if frame.mediaUs.None? then None
      else
        var p := PacketOf(n, frame, stamp, round);
        if p.Legal() then Datagrams(crc, p, n.maxUdpPayload) else None
  }

  /** The receiver of a node, told its outputs in the order in which they are sent. */
  function ReceiverOf(n: M.NodeFrame): Receiver {
    Receiver(n.nodeId, seq(|n.outputs|, i requires 0 <= i < |n.outputs| =>
      Expected(n.outputs[i].outputId, n.outputs[i].gpio, |n.outputs[i].pixels|)))
  }

  lemma ReceiverExpects(n: M.NodeFrame, frame: T.Frame, stamp: T.Stamp, round: U.Round, limit: int)
    requires frame.mediaUs.Some? && PacketOf(n, frame, stamp, round).Legal() && forall o <- n.outputs :: o.pixels != []
    ensures Expects(ReceiverOf(n), PacketOf(n, frame, stamp, round))
    ensures HandedOver(ReceiverOf(n), PacketOf(n, frame, stamp, round), limit) == PacketOf(n, frame, stamp, round)
  {
    hide Body, ByteChannels, FitsOne;
    var p, rx := PacketOf(n, frame, stamp, round), ReceiverOf(n);
    forall i | 0 <= i < |n.outputs|
      ensures p.parts[i].Legal(FRAME) && n.outputs[i].pixels != []
    {
      assert n.outputs[i] in n.outputs;
    }
    forall i, j | 0 <= i < j < |n.outputs|
      ensures rx.outputs[i].outputId != rx.outputs[j].outputId && rx.outputs[i].gpio != rx.outputs[j].gpio
    {
      assert PartIds(p.parts)[i] != PartIds(p.parts)[j] && PartGpios(p.parts)[i] != PartGpios(p.parts)[j];
    }
    forall i | 0 <= i < |n.outputs|
      ensures Matches(p.parts[i], rx.outputs) && rx.outputs[i].outputId in PartIds(p.parts)
    {
      LookupOfMember(rx.outputs, i);
      assert PartIds(p.parts)[i] == rx.outputs[i].outputId;
    }
    SameOrderSameFrame(rx, p, limit);
  }

  // --- datagrams of one frame at one address -----------------------------------------------------

  /** Some enabled node among these sends the datagram. */
  ghost predicate SentBy(u: T.Setup, frame: T.Frame, stamp: T.Stamp, n: M.NodeFrame, d: T.Datagram) {
    && n.enabled && T.EncodeNode(u, n, frame, stamp).Some? && d.1 == (n.host, n.port)
    && d.0 in T.EncodeNode(u, n, frame, stamp).value
  }

  lemma {:induction false} WhoSends(u: T.Setup, frame: T.Frame, stamp: T.Stamp, nodes: seq<M.NodeFrame>, d: T.Datagram)
    requires T.EncodeAll(u, frame, stamp, nodes).Some?
    ensures d in T.EncodeAll(u, frame, stamp, nodes).value <==> exists n <- nodes :: SentBy(u, frame, stamp, n, d)
    ensures forall n <- nodes :: n.enabled ==> T.EncodeNode(u, n, frame, stamp).Some?
  {
    hide T.EncodeNode;
    if nodes != [] {
      var init, n := nodes[..|nodes| - 1], nodes[|nodes| - 1];
      assert forall x :: x in nodes <==> x in init || x == n;
      WhoSends(u, frame, stamp, init, d);
      if n.enabled {
        var packets := T.EncodeNode(u, n, frame, stamp).value;
        AddressedAre(packets, (n.host, n.port), d);
        assert SentBy(u, frame, stamp, n, d) <==> d in O.Addressed(packets, (n.host, n.port));
      }
      if x :| x in init && SentBy(u, frame, stamp, x, d) {
        assert x in nodes;
      }
      if x :| x in nodes && SentBy(u, frame, stamp, x, d) {
        assert x in init || x == n;
      }
    }
  }

  lemma AddressedAre(packets: seq<D.Bytes>, address: T.Address, d: T.Datagram)
    ensures d in O.Addressed(packets, address) <==> d.1 == address && d.0 in packets
  {
    if d.1 == address && d.0 in packets {
      var i :| 0 <= i < |packets| && packets[i] == d.0;
      assert O.Addressed(packets, address)[i] == d;
    }
  }

  /** Another node's datagram is nothing to this receiver. */
  lemma ForeignIsNothing(crc: Crc, rx: Receiver, p: Packet, limit: int, d: D.Bytes, id: Identity)
    requires p.kind.FRAME? && p.Legal() && Datagrams(crc, p, limit).Some? && d in Datagrams(crc, p, limit).value
    requires rx.nodeId != p.nodeId
    ensures Older(crc, rx, d, id)
  {
    hide Body, PartsLegal, Identity.Legal, Decoded, Part.Legal, ChunkDatagrams, FitsOne;
    if FitsOne(p, limit) {
      assert p.Encodable() by { FittingIsEncodable(p, limit); }
      DecodeInvertsEncode(crc, FRAME, p, rx.FrameFilter());
      DecodeInvertsEncode(crc, CHUNK, p, rx.ChunkFilter());
    } else {
      var i, j := DatagramOfFrame(crc, p, limit, d);
      OutputIsLegal(p, i);
      ChunkPacketIsEncodable(p, p.parts[i], limit, j);
      var q := ChunkPacketOf(p, p.parts[i], PixelsPerChunk(limit), j);
      DecodeInvertsEncode(crc, FRAME, q, rx.FrameFilter());
      DecodeInvertsEncode(crc, CHUNK, q, rx.ChunkFilter());
    }
  }

  lemma FittingIsEncodable(p: Packet, limit: int)
    requires FitsOne(p, limit)
    ensures p.Encodable()
  {
  }

  // --- the main result ---------------------------------------------------------------------------

  /** The frame datagrams of this frame that a stretch of the trace shows as delivered at an address. */
  ghost predicate DeliveredAt(
      events: seq<T.Event>, frame: T.Frame, stamp: T.Stamp, address: T.Address, d: D.Bytes)
  {
    T.FrameDatagram(frame, stamp, (d, address), true) in events
  }

  lemma {:induction false} RepeatedAre(frame: T.Frame, stamp: T.Stamp, ds: seq<T.Datagram>, n: nat, d: T.Datagram)
    requires n >= 1
    ensures T.FrameDatagram(frame, stamp, d, true) in A.Repeated(A.Delivered(frame, stamp, ds), n) <==> d in ds
    decreases n
  {
    var round, event := A.Delivered(frame, stamp, ds), T.FrameDatagram(frame, stamp, d, true);
    if d in ds {
      var i :| 0 <= i < |ds| && ds[i] == d;
      assert round[i] == event;
    }
    assert A.Repeated(round, n) == A.Repeated(round, n - 1) + round;
    if n > 1 {
      RepeatedAre(frame, stamp, ds, n - 1, d);
    } else {
      assert A.Repeated(round, 0) == [];
    }
  }

  /** What is delivered at a node's address is the node's own datagrams, and others that mean nothing to its
      receiver. */
  lemma OwnOrForeign(
      u: T.Setup, round: U.Round, crc: Crc, frame: T.Frame, stamp: T.Stamp, i: nat, d: D.Bytes)
    requires u.encode == UdpV3Encoder(round, crc) && frame.mediaUs.Some? && i < |frame.nodes| && frame.nodes[i].enabled
    requires T.EncodeAll(u, frame, stamp, frame.nodes).Some?
    requires forall j :: 0 <= j < |frame.nodes| && j != i ==> frame.nodes[j].nodeId != frame.nodes[i].nodeId
    ensures var n := frame.nodes[i]; var p := PacketOf(n, frame, stamp, round);
      && p.Legal() && Datagrams(crc, p, n.maxUdpPayload).Some?
      && var dg, all := Datagrams(crc, p, n.maxUdpPayload).value, T.EncodeAll(u, frame, stamp, frame.nodes).value;
      && (d in dg ==> (d, (n.host, n.port)) in all)
      && ((d, (n.host, n.port)) in all ==> d in dg || Older(crc, ReceiverOf(n), d, p.id))
  {
    hide Packet.Legal, Datagrams, Older, T.EncodeAll;
    var n := frame.nodes[i];
    var address := (n.host, n.port);
    var p := PacketOf(n, frame, stamp, round);
    WhoSends(u, frame, stamp, frame.nodes, (d, address));
    assert n in frame.nodes;
    assert SentBy(u, frame, stamp, n, (d, address)) <==> d in Datagrams(crc, p, n.maxUdpPayload).value;
    if m :| m in frame.nodes && SentBy(u, frame, stamp, m, (d, address)) && m != n {
      var q := PacketOf(m, frame, stamp, round);
      ForeignIsNothing(crc, ReceiverOf(n), q, m.maxUdpPayload, d, p.id);
    }
  }

  /** What the flush delivered at node i's address has reached its receiver, in any order and any number of times, and
      together with anything older; the receiver can take the frame, and has not begun it. */
  ghost predicate Reached(
      u: T.Setup, round: U.Round, crc: Crc, st: T.State, ready: T.State, stamp: T.Stamp, i: nat, rst: State,
      arrived: seq<D.Bytes>)
    requires st.slot.Some? && i < |st.slot.value.nodes|
    requires T.Prepared(u, st.(slot := None), st.slot.value) == (ready, Some(stamp))
  {
    var frame := st.slot.value;
    var n := frame.nodes[i];
    var rx, p := ReceiverOf(n), PacketOf(n, frame, stamp, round);
    && Sound(rx, rst) && Waiting(rst, p.id) && |ready.trace| <= |T.Flushed(u, st).0.trace|
    && var sent := T.Flushed(u, st).0.trace[|ready.trace|..];
    && (forall d <- arrived :: DeliveredAt(sent, frame, stamp, (n.host, n.port), d) || Older(crc, rx, d, p.id))
    && (forall d :: DeliveredAt(sent, frame, stamp, (n.host, n.port), d) ==> d in arrived)
  }

  /** Let the output count a frame as sent, and let what it delivered at the address of an enabled node reach the
      node's receiver, in any order and any number of times, together with anything older: the receiver hands the
      frame of its node over once, and it is exactly the node's packet, with the rounded pixels of all its outputs. */
  lemma SentFrameIsReassembled(
      u: T.Setup, round: U.Round, crc: Crc, st: T.State, ready: T.State, stamp: T.Stamp, i: nat, rst: State,
      arrived: seq<D.Bytes>)
    returns (k: nat)
    requires u.Valid() && u.encode == UdpV3Encoder(round, crc) && st.slot.Some?
    requires T.Flushed(u, st).0.health.framesSent > st.health.framesSent
    requires T.Prepared(u, st.(slot := None), st.slot.value) == (ready, Some(stamp))
    requires i < |st.slot.value.nodes| && st.slot.value.nodes[i].enabled
    requires var nodes := st.slot.value.nodes;
      && (forall j :: 0 <= j < |nodes| && j != i ==> nodes[j].nodeId != nodes[i].nodeId)
      && (forall o <- nodes[i].outputs :: o.pixels != [])
    requires Reached(u, round, crc, st, ready, stamp, i, rst, arrived)
    ensures var frame := st.slot.value; var n := frame.nodes[i];
      var rx, p := ReceiverOf(n), PacketOf(n, frame, stamp, round);
      && rx.Valid() && p.Legal()
      && var results := AcceptAll(crc, rx, rst, arrived).1;
      && k < |arrived| && results[k] == Some(p) && CarriesNode(p, n, frame, stamp, round)
      && forall j :: 0 <= j < |arrived| && results[j].Some? && results[j].value.id == p.id ==> j == k
  {
    hide Packet.Legal, Datagrams, Older, Waiting, Sound, Receiver.Valid, T.Flushed, T.Prepared, T.EncodeAll, AcceptAll,
         A.Delivered, A.Repeated, IsExpected, FitsOne, CarriesNode;
    var frame := st.slot.value;
    assert frame.mediaUs.Some? by { PreparedHasTime(u, st.(slot := None), frame); }
    var n := frame.nodes[i];
    var address := (n.host, n.port);
    var rx, p := ReceiverOf(n), PacketOf(n, frame, stamp, round);
    PacketCarries(n, frame, stamp, round);
    A.SentMeansDelivered(u, st);
    var all := T.EncodeAll(u, frame, stamp, frame.nodes).value;
    OwnOrForeign(u, round, crc, frame, stamp, i, []);
    ReceiverExpects(n, frame, stamp, round, n.maxUdpPayload);
    forall d: D.Bytes
      ensures d in Datagrams(crc, p, n.maxUdpPayload).value ==> d in arrived
      ensures d in arrived ==> d in Datagrams(crc, p, n.maxUdpPayload).value || Older(crc, rx, d, p.id)
    {
      OwnOrForeign(u, round, crc, frame, stamp, i, d);
      DeliveredAre(u, st, ready, stamp, d, address);
    }
    k := FrameComesOut(crc, rx, p, n.maxUdpPayload, rst, arrived);
  }

  lemma PreparedHasTime(u: T.Setup, st: T.State, frame: T.Frame)
    requires T.Prepared(u, st, frame).1.Some?
    ensures frame.mediaUs.Some?
  {
  }

  /** The trace shows exactly the frame's datagrams as delivered. */
  lemma DeliveredAre(
      u: T.Setup, st: T.State, ready: T.State, stamp: T.Stamp, d: D.Bytes, address: T.Address)
    requires u.Valid() && st.slot.Some? && T.Flushed(u, st).0.health.framesSent > st.health.framesSent
    requires T.Prepared(u, st.(slot := None), st.slot.value) == (ready, Some(stamp))
    ensures |ready.trace| <= |T.Flushed(u, st).0.trace|
    ensures var frame, sent := st.slot.value, T.Flushed(u, st).0.trace[|ready.trace|..];
      && T.EncodeAll(u, frame, stamp, frame.nodes).Some?
      && (DeliveredAt(sent, frame, stamp, address, d)
          <==> (d, address) in T.EncodeAll(u, frame, stamp, frame.nodes).value)
  {
    hide T.Flushed, T.Prepared, T.EncodeAll, A.Delivered, A.Repeated;
    A.SentMeansDelivered(u, st);
    var frame := st.slot.value;
    var all, rounds := T.EncodeAll(u, frame, stamp, frame.nodes).value, T.RoundsFor(u, stamp);
    var repeated := A.Repeated(A.Delivered(frame, stamp, all), rounds);
    var tail := if stamp.key then [T.KeyDelivered] else [];
    assert T.Flushed(u, st).0.trace == ready.trace + repeated + tail;
    assert T.Flushed(u, st).0.trace[|ready.trace|..] == repeated + tail;
    RepeatedAre(frame, stamp, all, rounds, (d, address));
  }
}
