/** The whole chain over UDP: from a validated room to what each node's receiver makes of a frame. */
module ConfigToUdp {
  import opened Util
  import opened Rgb
  import opened Fields
  import opened Topology
  import opened Layouts
  import opened PhysicalMapping
  import opened Sorting
  import opened FrameMapping
  import opened DdpLayout
  import D = Ddp
  import E = UdpV3EndToEnd
  import O = DatagramOutput
  import R = UdpV3Reassembler
  import T = UdpV3Output
  import U = UdpV2
  import V = ValidatorAgreement
  import W = UdpV2Delivery
  import X = UdpV3Reassembly

  // --- version 2 ---------------------------------------------------------------------------------

  /** A colour as bytes. */
  function RoundedPixel(c: RGB, round: W.Round): D.Pixel {
    D.Pixel(round(c.r * 255.0), round(c.g * 255.0), round(c.b * 255.0))
  }

  /** What a legacy node shows at pixel x when segment s covers it: its strip's pixel at that place, or the mirrored
      one, black beyond what was drawn. */
  function SegmentPixel(s: Segment, drawn: Frame, x: int): RGB
    requires s.offset <= x < s.offset + s.pixelCount
  {
    var k := x - s.offset;
    var from := if s.direction == REVERSE then s.pixelCount - 1 - k else k;
    if from < |Drawn(drawn, s.stripId)| then Drawn(drawn, s.stripId)[from] else BLACK
  }

  /** Let a validated layout be mapped and the frame be counted as sent by a UDP v2 output. A node that speaks version
      2 and has at most 21829 pixels decodes, from the datagram at its address, as many pixels as it has: at each the
      rounded colour of the one segment that covers it, and the rounded black where none does. */
  lemma LegacyNodeIsDecoded(
      l: Layout, drawn: Frame, u: O.Setup, round: W.Round, crc: Crc, st: O.State, i: nat, x: nat)
    requires PhysicalOk(l) && st.slot.Some? && IsMapped(l, drawn, st.slot.value.nodes)
    requires W.IsUdpV2(u, round, crc) && u.mode != O.Fake
    requires O.Flushed(u, st).0.health.framesSent == st.health.framesSent + 1
    requires i < |st.slot.value.nodes|
    requires var n := SortBy(l.digitalNodes, BY_NODE)[i]; n.protocolVersion != 3 && x < n.pixelCount <= 21829
    ensures |O.Flushed(u, st).0.log| == |st.log| + |st.slot.value.nodes|
    ensures var n, d := SortBy(l.digitalNodes, BY_NODE)[i], O.Flushed(u, st).0.log[|st.log| + i];
      && d.1 == (n.host, n.port)
      && var p := U.Decode(crc, d.0, U.ANY.(node := Some(n.nodeId)));
      && p.Some? && p.value.nodeId == n.nodeId && p.value.sequence == st.slot.value.sequence
      && p.value.flags == (if st.slot.value.safeState then 1 else 0) && p.value.messageType == 1
      && |p.value.pixels| == n.pixelCount
      && (forall s <- l.segments :: Covers(s, n.nodeId, x) ==>
            p.value.pixels[x] == RoundedPixel(SegmentPixel(s, drawn, x), round))
      && ((forall s <- l.segments :: !Covers(s, n.nodeId, x)) ==> p.value.pixels[x] == RoundedPixel(BLACK, round))
  {
    hide PhysicalOk, O.Flushed, U.Decode, SortBy, FrameOf, W.UdpV2Encoder, Drawn;
    W.SentFrameIsDecoded(u, round, crc, st);
    MappedLegacyNode(l, drawn, st.slot.value.nodes, i, x);
    MappedAddress(l, drawn, st.slot.value.nodes, i);
    forall s <- l.segments | Covers(s, SortBy(l.digitalNodes, BY_NODE)[i].nodeId, x)
      ensures st.slot.value.nodes[i].pixels[x] == SegmentPixel(s, drawn, x)
    {
      var j :| 0 <= j < |l.segments| && l.segments[j] == s;
    }
    if forall s <- l.segments :: !Covers(s, SortBy(l.digitalNodes, BY_NODE)[i].nodeId, x) {
      assert forall j :: 0 <= j < |l.segments| ==> l.segments[j] in l.segments;
    }
  }

  // --- version 3 ---------------------------------------------------------------------------------

  /** Every pixel of a v3 node's frame: of each output, the strip's pixel at that place, or the mirrored one, black
      beyond what was drawn. */
  lemma MappedOutputs(l: Layout, drawn: Frame, nodes: seq<NodeFrame>, i: nat)
    requires PhysicalOk(l) && IsMapped(l, drawn, nodes) && i < |nodes|
    requires SortBy(l.digitalNodes, BY_NODE)[i].protocolVersion == 3
    ensures forall f <- nodes[i].outputs ::
      exists o <- l.outputs :: o.nodeId == nodes[i].nodeId && f == OutputOf(o, drawn) && o.pixelCount >= 1
    ensures forall f <- nodes[i].outputs :: f.pixels != []
  {
    hide SortBy, DigitalNodesOk, AnalogNodesOk, SegmentsOk, NodeComplete, OutputOf, Painted;
    var n := SortBy(l.digitalNodes, BY_NODE)[i];
    var mine := At(l.outputs, n.nodeId);
    SortByContract(OutputsOfAll(mine, drawn), BY_OUTPUT);
    forall f <- nodes[i].outputs
      ensures exists o <- l.outputs :: o.nodeId == n.nodeId && f == OutputOf(o, drawn) && o.pixelCount >= 1
      ensures f.pixels != []
    {
      assert f in multiset(nodes[i].outputs);
      var k :| 0 <= k < |mine| && OutputsOfAll(mine, drawn)[k] == f;
      AtAreOutputs(l.outputs, n.nodeId, k);
      var j :| 0 <= j < |l.outputs| && l.outputs[j] == mine[k];
      OutputHasPixels(l, drawn, j);
    }
  }

  lemma OutputHasPixels(l: Layout, drawn: Frame, j: nat)
    requires PhysicalOk(l) && j < |l.outputs|
    ensures l.outputs[j].pixelCount >= 1 && |OutputOf(l.outputs[j], drawn).pixels| == l.outputs[j].pixelCount
  {
    hide DigitalNodesOk, AnalogNodesOk, SegmentsOk, NodeComplete, Source;
    assert OutputIsSound(l, l.outputs[j]);
  }

  /** From an accepted topology-v3 configuration over UDP v3 to the receivers: if the output counts the mapped frame
      as sent, and what it delivered at the address of an enabled node reaches the node's receiver, in any order, any
      number of times, and together with anything older, then the receiver hands the node's frame over once, exactly
      as it was mapped, each pixel rounded. */
  lemma AcceptedRoomIsReassembled(
      c: Config, hostOk: HostRule, drawn: Frame, u: T.Setup, round: W.Round, crc: Crc, st: T.State, ready: T.State,
      stamp: T.Stamp, i: nat, rst: R.State, arrived: seq<D.Bytes>)
    returns (k: nat)
    requires Accepted(c, hostOk) && c.IsV3() && Loads(c) && (|c.analogNodes| == 1 || c.OneOutputEach())
    requires st.slot.Some? && IsMapped(Loaded(c), drawn, st.slot.value.nodes)
    requires u.Valid() && u.encode == E.UdpV3Encoder(round, crc)
    requires T.Flushed(u, st).0.health.framesSent > st.health.framesSent
    requires T.Prepared(u, st.(slot := None), st.slot.value) == (ready, Some(stamp))
    requires i < |st.slot.value.nodes| && st.slot.value.nodes[i].enabled
    requires E.Reached(u, round, crc, st, ready, stamp, i, rst, arrived)
    ensures var frame := st.slot.value; var n := frame.nodes[i];
      var rx, p := E.ReceiverOf(n), E.PacketOf(n, frame, stamp, round);
      && rx.Valid() && p.Legal()
      && var results := X.AcceptAll(crc, rx, rst, arrived).1;
      && k < |arrived| && results[k] == Some(p) && E.CarriesNode(p, n, frame, stamp, round)
      && forall j :: 0 <= j < |arrived| && results[j].Some? && results[j].value.id == p.id ==> j == k
    ensures forall f <- st.slot.value.nodes[i].outputs ::
      exists o <- Loaded(c).outputs ::
        o.nodeId == st.slot.value.nodes[i].nodeId && f == OutputOf(o, drawn) && o.pixelCount >= 1
  {
    hide Accepted, MappingLoads, PhysicalOk, FrameOf, SortBy, T.Flushed, T.Prepared, Loaded, E.Reached, OutputOf,
         IsMapped, E.CarriesNode;
    var l := Loaded(c);
    V.SecondValidatorAcceptsIff(c, hostOk);
    V.LoadedNodesOk(c, hostOk);
    MappedNumbers(l, drawn, st.slot.value.nodes);
    SortedIsV3(l, drawn, st.slot.value.nodes, i);
    MappedOutputs(l, drawn, st.slot.value.nodes, i);
    k := E.SentFrameIsReassembled(u, round, crc, st, ready, stamp, i, rst, arrived);
  }

  lemma SortedIsV3(l: Layout, drawn: Frame, nodes: seq<NodeFrame>, i: nat)
    requires IsMapped(l, drawn, nodes) && i < |nodes|
    requires forall k :: 0 <= k < |l.digitalNodes| ==> l.digitalNodes[k].protocolVersion == 3
    ensures SortBy(l.digitalNodes, BY_NODE)[i].protocolVersion == 3
  {
    hide SortBy, Painted;
    var n := SortBy(l.digitalNodes, BY_NODE)[i];
    var k :| 0 <= k < |l.digitalNodes| && l.digitalNodes[k] == n;
  }
}
