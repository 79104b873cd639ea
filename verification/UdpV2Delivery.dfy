/** The UDP v2 output end to end: what a node decodes from a frame that was counted as sent. */
module UdpV2Delivery {
  import opened Util
  import opened Rgb
  import opened FrameMapping
  import opened DatagramOutput
  import opened Fields
  import U = UdpV2
  import D = Ddp

  type Round = real -> int

  function Rounded(pixels: Pixels, round: Round): seq<D.Pixel> {
    seq(|pixels|, i requires 0 <= i < |pixels| =>
      D.Pixel(round(pixels[i].r * 255.0), round(pixels[i].g * 255.0), round(pixels[i].b * 255.0)))
  }

  function PacketOf(n: NodeFrame, frame: PhysicalFrame, round: Round): U.Packet {
    U.Packet(n.nodeId, frame.sequence, Rounded(n.pixels, round), if frame.safeState then 1 else 0, 1)
  }

  /** The packet carries the node's number and rounded pixels, and the frame's sequence and safe-state flag. */
  predicate CarriesNode(p: U.Packet, n: NodeFrame, frame: PhysicalFrame, round: Round) {
    && p.nodeId == n.nodeId && p.sequence == frame.sequence && p.flags == (if frame.safeState then 1 else 0)
    && p.messageType == 1 && |p.pixels| == |n.pixels|
    && forall x :: 0 <= x < |n.pixels| ==>
         p.pixels[x] == D.Pixel(round(n.pixels[x].r * 255.0), round(n.pixels[x].g * 255.0),
                                round(n.pixels[x].b * 255.0))
  }

  /** One datagram, or nothing when the packet's constructor raises. */
  function UdpV2Encoder(round: Round, crc: Crc): Encoder {
    (n: NodeFrame, frame: PhysicalFrame) =>
      var p := PacketOf(n, frame, round);
      if p.Legal() then Some([U.Encode(crc, p)]) else None
  }

  /** The setup of a UDP v2 output. */
  ghost predicate IsUdpV2(u: Setup, round: Round, crc: Crc) {
    u.encode == UdpV2Encoder(round, crc) && !u.skipsDisabled && u.port == None
  }

  lemma {:induction false} OneDatagramPerNode(
      u: Setup, round: Round, crc: Crc, frame: PhysicalFrame, nodes: seq<NodeFrame>)
    requires IsUdpV2(u, round, crc) && forall n <- nodes :: PacketOf(n, frame, round).Legal()
    ensures var ds := Wanted(u, frame, nodes);
      && |ds| == |nodes|
      && forall i :: 0 <= i < |nodes| ==>
           ds[i] == (U.Encode(crc, PacketOf(nodes[i], frame, round)), (nodes[i].host, nodes[i].port))
  {
    hide U.Encode, PacketOf;
    if nodes != [] {
      var init, n := nodes[..|nodes| - 1], nodes[|nodes| - 1];
      assert forall x :: x in nodes <==> x in init || x == n;
      OneDatagramPerNode(u, round, crc, frame, init);
      var packets := [U.Encode(crc, PacketOf(n, frame, round))];
      assert Addressed(packets, (n.host, n.port)) == [(packets[0], (n.host, n.port))];
    }
  }

  /** A frame counted as sent put one datagram per node on the wire, in order, at the node's own address; each of them
      that fits one datagram decodes at its node to exactly that node's rounded pixels, with the frame's sequence
      number and its safe-state flag. */
  lemma SentFrameIsDecoded(u: Setup, round: Round, crc: Crc, st: State)
    requires IsUdpV2(u, round, crc) && u.mode != Fake && st.slot.Some?
    requires Flushed(u, st).0.health.framesSent == st.health.framesSent + 1
    ensures var frame := st.slot.value; var log := Flushed(u, st).0.log;
      && |log| == |st.log| + |frame.nodes|
      && log[..|st.log|] == st.log
      && forall i :: 0 <= i < |frame.nodes| ==>
           var n := frame.nodes[i]; var d := log[|st.log| + i];
           && d.1 == (n.host, n.port)
           && U.Decode(crc, d.0, U.ANY.(node := Some(n.nodeId)))
              == (if |n.pixels| <= 21829 then Some(PacketOf(n, frame, round)) else None)
           && CarriesNode(PacketOf(n, frame, round), n, frame, round)
  {
    hide Flushed, Wanted, U.Encode, U.Decode;
    SentIffDelivered(u, st);
    var frame := st.slot.value;
    forall n <- frame.nodes ensures PacketOf(n, frame, round).Legal() {
      var i :| 0 <= i < |frame.nodes| && frame.nodes[i] == n;
      assert u.encode(frame.nodes[i], frame).Some?;
    }
    OneDatagramPerNode(u, round, crc, frame, frame.nodes);
    forall i | 0 <= i < |frame.nodes|
      ensures var n := frame.nodes[i];
        U.Decode(crc, U.Encode(crc, PacketOf(n, frame, round)), U.ANY.(node := Some(n.nodeId)))
        == if |n.pixels| <= 21829 then Some(PacketOf(n, frame, round)) else None
    {
      var n := frame.nodes[i];
      U.DecodeInvertsEncode(crc, PacketOf(n, frame, round), U.ANY.(node := Some(n.nodeId)));
    }
  }
}
