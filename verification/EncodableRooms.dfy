/** Which accepted rooms the UDP v3 output can send at all: the validators let numbers and lengths through that have no
    room on the wire. */
module EncodableRooms {
  import opened Util
  import opened Rgb
  import opened Fields
  import opened Lists
  import opened Topology
  import opened Layouts
  import opened PhysicalMapping
  import opened Sorting
  import opened FrameMapping
  import opened DdpLayout
  import A = UdpV3Accounting
  import C = UdpV3Chunks
  import E = UdpV3EndToEnd
  import T = UdpV3Output
  import V = ValidatorAgreement
  import W = UdpV2Delivery
  import X = UdpV3

  // --- what must hold of a frame -----------------------------------------------------------------

  predicate FrameInRange(frame: T.Frame) {
    && 0 <= frame.sequence < 0x1_0000_0000
    && frame.mediaUs.Some? && 0 <= frame.mediaUs.value <= 0xFFFF_FFFF_FFFF_FFFF
  }

  predicate ChannelsRound(pixels: Pixels, round: W.Round) {
    forall p <- pixels ::
      && 0 <= round(p.r * 255.0) <= 0xFF && 0 <= round(p.g * 255.0) <= 0xFF && 0 <= round(p.b * 255.0) <= 0xFF
  }

  predicate OutputFits(o: OutputFrame, round: W.Round) {
    o.outputId <= 0xFF && o.gpio <= 0xFF && |o.pixels| <= 0xFFFF && ChannelsRound(o.pixels, round)
  }

  /** What the validators promise of the frame of a v3 node. */
  predicate IsV3Node(n: NodeFrame) {
    && n.nodeId >= 1 && 1 <= |n.outputs| <= 3
    && (forall o <- n.outputs :: o.outputId >= 1 && o.gpio >= 0)
    && AllDiffer(n.outputs, BY_OUTPUT) && AllDiffer(n.outputs, BY_GPIO)
  }

  const BY_GPIO: OutputFrame -> int := (o: OutputFrame) => o.gpio

  lemma RoundedIff(pixels: Pixels, round: W.Round)
    ensures ByteChannels(W.Rounded(pixels, round)) <==> ChannelsRound(pixels, round)
  {
    var bytes := W.Rounded(pixels, round);
    if ByteChannels(bytes) {
      forall p <- pixels
        ensures 0 <= round(p.r * 255.0) <= 0xFF && 0 <= round(p.g * 255.0) <= 0xFF && 0 <= round(p.b * 255.0) <= 0xFF
      {
        var i :| 0 <= i < |pixels| && pixels[i] == p;
        assert bytes[i] in bytes;
      }
    }
  }

  lemma PartLegalIff(o: OutputFrame, round: W.Round)
    requires o.outputId >= 1 && o.gpio >= 0
    ensures E.PartOf(o, round).Legal(X.FRAME) <==> OutputFits(o, round)
  {
    hide ChannelsRound, ByteChannels;
    RoundedIff(o.pixels, round);
  }

  lemma PartsLegalIff(n: NodeFrame, round: W.Round)
    requires IsV3Node(n)
    ensures X.PartsLegal(X.FRAME, E.PartsOf(n.outputs, round)) <==> forall o <- n.outputs :: OutputFits(o, round)
  {
    hide OutputFits, X.Part.Legal;
    var parts := E.PartsOf(n.outputs, round);
    forall i | 0 <= i < |n.outputs|
      ensures parts[i].Legal(X.FRAME) <==> OutputFits(n.outputs[i], round)
    {
      PartLegalIff(n.outputs[i], round);
    }
    forall i, j | 0 <= i < j < |n.outputs|
      ensures X.PartIds(parts)[i] != X.PartIds(parts)[j] && X.PartGpios(parts)[i] != X.PartGpios(parts)[j]
    {
      assert BY_OUTPUT(n.outputs[i]) != BY_OUTPUT(n.outputs[j]) && BY_GPIO(n.outputs[i]) != BY_GPIO(n.outputs[j]);
    }
  }

  /** A v3 node's frame encodes exactly if every number, length and channel fits its field. */
  lemma NodeEncodesIff(n: NodeFrame, frame: T.Frame, stamp: T.Stamp, round: W.Round, crc: Crc)
    requires IsV3Node(n) && 46 <= n.maxUdpPayload <= 65507 && A.LegalStamp(stamp)
    ensures E.UdpV3Encoder(round, crc)(n, frame, stamp).Some?
       <==> FrameInRange(frame) && n.nodeId <= 0xFF && forall o <- n.outputs :: OutputFits(o, round)
  {
    hide X.PartsLegal, OutputFits, C.Datagrams;
    if frame.mediaUs.Some? {
      var p := E.PacketOf(n, frame, stamp, round);
      PartsLegalIff(n, round);
      assert p.Legal() <==> p.id.Legal() && n.nodeId <= 0xFF && X.PartsLegal(X.FRAME, p.parts);
      C.EncodesIff(crc, p, n.maxUdpPayload);
    }
  }

  // --- from the layout ---------------------------------------------------------------------------

  lemma MappedIsV3Node(l: Layout, drawn: Frame, nodes: seq<NodeFrame>, i: nat)
    requires PhysicalOk(l) && IsMapped(l, drawn, nodes) && i < |nodes|
    requires SortBy(l.digitalNodes, BY_NODE)[i].protocolVersion == 3
    ensures IsV3Node(nodes[i])
  {
    hide SortBy, AnalogNodesOk, SegmentsOk, Source, At, Distinct, OutputsOk;
    var n := SortBy(l.digitalNodes, BY_NODE)[i];
    var k :| 0 <= k < |l.digitalNodes| && l.digitalNodes[k] == n;
    ValidatedNode(l, k);
    var mine := At(l.outputs, n.nodeId);
    var all := OutputsOfAll(mine, drawn);
    ApartInMapping(n, l.outputs, drawn);
    SortKeepsDiffering(all, BY_OUTPUT, BY_OUTPUT);
    SortKeepsDiffering(all, BY_OUTPUT, BY_GPIO);
    forall f <- nodes[i].outputs
      ensures f.outputId >= 1 && f.gpio >= 0
    {
      var o := OutputBehind(l, drawn, n.nodeId, f);
    }
  }

  lemma ApartInMapping(n: DigitalNode, outputs: seq<Output>, drawn: Frame)
    requires NodeComplete(n, outputs)
    ensures var all := OutputsOfAll(At(outputs, n.nodeId), drawn);
      1 <= |all| <= 3 && AllDiffer(all, BY_OUTPUT) && AllDiffer(all, BY_GPIO)
  {
    hide At, Source;
    var mine := At(outputs, n.nodeId);
    forall a, b | 0 <= a < b < |mine|
      ensures mine[a].outputId != mine[b].outputId && mine[a].gpio != mine[b].gpio
    {
      assert IdsOf(mine)[a] != IdsOf(mine)[b] && GpiosOf(mine)[a] != GpiosOf(mine)[b];
    }
  }

  /** Every output frame of a node comes from one of the node's outputs. */
  lemma OutputBehind(l: Layout, drawn: Frame, nodeId: int, f: OutputFrame) returns (o: Output)
    requires PhysicalOk(l) && l.outputs != [] && f in SortBy(OutputsOfAll(At(l.outputs, nodeId), drawn), BY_OUTPUT)
    ensures o in l.outputs && o.nodeId == nodeId && f == OutputOf(o, drawn)
    ensures o.outputId >= 1 && o.gpio >= 0 && |f.pixels| == o.pixelCount >= 1
  {
    hide SortBy, AnalogNodesOk, SegmentsOk, Source, DigitalNodesOk, At, NodeComplete;
    var mine := At(l.outputs, nodeId);
    SortByContract(OutputsOfAll(mine, drawn), BY_OUTPUT);
    assert f in multiset(SortBy(OutputsOfAll(mine, drawn), BY_OUTPUT));
    var k :| 0 <= k < |mine| && OutputsOfAll(mine, drawn)[k] == f;
    AtAreOutputs(l.outputs, nodeId, k);
    o := mine[k];
    var j :| 0 <= j < |l.outputs| && l.outputs[j] == o;
    assert OutputIsSound(l, l.outputs[j]);
  }

  /** And every output of a node has its frame. */
  lemma OutputIsSent(l: Layout, drawn: Frame, o: Output)
    requires o in l.outputs
    ensures OutputOf(o, drawn) in SortBy(OutputsOfAll(At(l.outputs, o.nodeId), drawn), BY_OUTPUT)
  {
    hide SortBy, At, OutputOf;
    var mine := At(l.outputs, o.nodeId);
    var j :| 0 <= j < |l.outputs| && l.outputs[j] == o;
    InAt(l.outputs, j);
    var k :| 0 <= k < |mine| && mine[k] == o;
    var all := OutputsOfAll(mine, drawn);
    SortByContract(all, BY_OUTPUT);
    assert all[k] == OutputOf(o, drawn) && all[k] in multiset(all);
  }

  // --- colours -----------------------------------------------------------------------------------

  predicate ColoursLegal(drawn: Frame) {
    forall s <- drawn, p <- s.pixels :: 0.0 <= p.r <= 1.0 && 0.0 <= p.g <= 1.0 && 0.0 <= p.b <= 1.0
  }

  ghost predicate RoundsToBytes(round: W.Round) { forall x: real :: 0.0 <= x <= 255.0 ==> 0 <= round(x) <= 0xFF }

  lemma {:induction false} DrawnIsLegal(drawn: Frame, id: string)
    requires ColoursLegal(drawn)
    ensures forall p <- Drawn(drawn, id) :: 0.0 <= p.r <= 1.0 && 0.0 <= p.g <= 1.0 && 0.0 <= p.b <= 1.0
  {
    if drawn != [] {
      DrawnIsLegal(drawn[..|drawn| - 1], id);
    }
  }

  lemma SourceRounds(drawn: Frame, o: Output, round: W.Round)
    requires ColoursLegal(drawn) && RoundsToBytes(round)
    ensures ChannelsRound(OutputOf(o, drawn).pixels, round)
  {
    hide Drawn, ColoursLegal;
    DrawnIsLegal(drawn, o.stripId);
    var pixels := OutputOf(o, drawn).pixels;
    forall p <- pixels
      ensures 0 <= round(p.r * 255.0) <= 0xFF && 0 <= round(p.g * 255.0) <= 0xFF && 0 <= round(p.b * 255.0) <= 0xFF
    {
      var k :| 0 <= k < |pixels| && pixels[k] == p;
      OutputIs(o, drawn, k);
      assert 0.0 <= p.r <= 1.0 && 0.0 <= p.g <= 1.0 && 0.0 <= p.b <= 1.0;
      assert 0.0 <= p.r * 255.0 <= 255.0 && 0.0 <= p.g * 255.0 <= 255.0 && 0.0 <= p.b * 255.0 <= 255.0;
    }
  }

  // --- from the configuration --------------------------------------------------------------------

  /** The numbers of a node and of its outputs fit a byte, and the lengths of its strips sixteen bits. */
  predicate NumbersFit(c: Config, nodeId: int) {
    && nodeId <= 0xFF
    && forall o <- c.outputs, s <- c.strips :: o.nodeId == nodeId && s.id == o.stripId ==>
         o.outputId <= 0xFF && o.gpio <= 0xFF && s.pixelCount <= 0xFFFF
  }

  /** A version-3 room with a UDP v3 output that both validators accept. */
  predicate IsRoom(c: Config, hostOk: HostRule) {
    && Accepted(c, hostOk) && c.IsV3() && Loads(c) && (|c.analogNodes| == 1 || c.OneOutputEach())
    && "udp_v3" in c.backends
  }

  /** A loaded output is an authored one, as long as the strip that it names. */
  lemma LoadedOutputOf(c: Config, hostOk: HostRule, k: nat) returns (s: Strip)
    requires IsRoom(c, hostOk) && k < |c.outputs|
    ensures |Loaded(c).outputs| == |c.outputs| && s in c.strips && s.id == c.outputs[k].stripId
    ensures forall t <- c.strips :: t.id == s.id ==> t == s
    ensures var raw, o := c.outputs[k], Loaded(c).outputs[k];
      && o.nodeId == raw.nodeId && o.outputId == raw.outputId && o.gpio == raw.gpio && o.pixelCount == s.pixelCount
  {
    hide Lengths, PolicyOk, BiasesOk, AnalogOk, DigitalOk, SegmentsOk, ZoneLoads, StripLoads, Loaded, MappingLoads;
    var raw := c.outputs[k];
    assert OutputOk(c, raw);
    LengthsByIndex(c.strips);
    var j :| 0 <= j < |c.strips| && c.strips[j].id == raw.stripId;
    s := c.strips[j];
    assert Distinct(StripIds(c.strips)) by { V.AcceptedNames(c, hostOk); }
    forall i | 0 <= i < |c.strips| && i != j
      ensures c.strips[i].id != s.id
    {
      assert StripIds(c.strips)[i] != StripIds(c.strips)[j];
    }
    LoadedOutputIs(c, k, j);
  }

  /** A node's authored numbers fit exactly if the loaded ones do. */
  lemma NumbersFitIff(c: Config, hostOk: HostRule, nodeId: int)
    requires IsRoom(c, hostOk)
    ensures NumbersFit(c, nodeId)
       <==> nodeId <= 0xFF && forall o <- Loaded(c).outputs :: o.nodeId == nodeId ==>
              o.outputId <= 0xFF && o.gpio <= 0xFF && o.pixelCount <= 0xFFFF
  {
    hide Accepted, MappingLoads, StripLoads, ZoneLoads, Loaded;
    var l := Loaded(c);
    assert |l.outputs| == |c.outputs| by { AllOutputsLoad(c); }
    if NumbersFit(c, nodeId) {
      forall o <- l.outputs | o.nodeId == nodeId
        ensures o.outputId <= 0xFF && o.gpio <= 0xFF && o.pixelCount <= 0xFFFF
      {
        var k :| 0 <= k < |l.outputs| && l.outputs[k] == o;
        var s := LoadedOutputOf(c, hostOk, k);
        assert c.outputs[k] in c.outputs;
      }
    }
    if nodeId <= 0xFF && forall o <- l.outputs :: o.nodeId == nodeId ==>
         o.outputId <= 0xFF && o.gpio <= 0xFF && o.pixelCount <= 0xFFFF
    {
      forall raw <- c.outputs, t <- c.strips | raw.nodeId == nodeId && t.id == raw.stripId
        ensures raw.outputId <= 0xFF && raw.gpio <= 0xFF && t.pixelCount <= 0xFFFF
      {
        var k :| 0 <= k < |c.outputs| && c.outputs[k] == raw;
        var s := LoadedOutputOf(c, hostOk, k);
        assert t == s && l.outputs[k] in l.outputs;
      }
    }
  }

  lemma AllOutputsLoad(c: Config)
    requires MappingLoads(c)
    ensures |Loaded(c).outputs| == |c.outputs|
  {
  }

  /** What the room's validators and its loader leave of one digital node. */
  lemma LoadedNodeOf(c: Config, hostOk: HostRule, k: nat)
    requires IsRoom(c, hostOk) && k < |Loaded(c).digitalNodes|
    ensures |Loaded(c).digitalNodes| == |c.digitalNodes|
    ensures var raw, n := c.digitalNodes[k], Loaded(c).digitalNodes[k];
      && n.nodeId == raw.nodeId && n.enabled == raw.enabled && n.protocolVersion == 3
      && 46 <= n.maxUdpPayload <= 65507
  {
    hide PolicyOk, BiasesOk, AnalogOk, SegmentsOk, V3Ok, NamesOk, MappingLoads, Loaded, ZoneLoads, StripLoads;
    V.LoadedNodesOk(c, hostOk);
    LoadedNodeIs(c, k);
    assert DigitalNodeOk(c, c.digitalNodes[k], hostOk);
  }

  /** Every node frame of the room belongs to an authored node. */
  lemma NodeBehind(c: Config, hostOk: HostRule, drawn: Frame, nodes: seq<NodeFrame>, i: nat)
    returns (raw: RawDigitalNode)
    requires IsRoom(c, hostOk) && IsMapped(Loaded(c), drawn, nodes) && i < |nodes|
    ensures raw in c.digitalNodes && raw.nodeId == nodes[i].nodeId && raw.enabled == nodes[i].enabled
    ensures IsV3Node(nodes[i]) && nodes[i].outputs != [] && 46 <= nodes[i].maxUdpPayload <= 65507
    ensures nodes[i].outputs == SortBy(OutputsOfAll(At(Loaded(c).outputs, nodes[i].nodeId), drawn), BY_OUTPUT)
  {
    hide Accepted, MappingLoads, StripLoads, ZoneLoads, Loaded, PhysicalOk, SortBy, Painted, At, IsV3Node;
    var l := Loaded(c);
    RoomIsPhysical(c, hostOk);
    var k :| 0 <= k < |l.digitalNodes| && l.digitalNodes[k] == SortBy(l.digitalNodes, BY_NODE)[i];
    LoadedNodeOf(c, hostOk, k);
    MappedIsV3Node(l, drawn, nodes, i);
    assert nodes[i].outputs != [] by { V3NodeHasOutputs(nodes[i]); }
    raw := c.digitalNodes[k];
  }

  lemma V3NodeHasOutputs(n: NodeFrame)
    requires IsV3Node(n)
    ensures n.outputs != []
  {
  }

  /** And every authored node has a frame. */
  lemma FrameOfAuthored(c: Config, hostOk: HostRule, drawn: Frame, nodes: seq<NodeFrame>, raw: RawDigitalNode)
    returns (i: nat)
    requires IsRoom(c, hostOk) && IsMapped(Loaded(c), drawn, nodes) && raw in c.digitalNodes
    ensures i < |nodes| && raw.nodeId == nodes[i].nodeId && raw.enabled == nodes[i].enabled
  {
    hide Accepted, MappingLoads, StripLoads, ZoneLoads, Loaded, PhysicalOk, SortBy, Painted, At;
    var l := Loaded(c);
    var sorted := SortBy(l.digitalNodes, BY_NODE);
    RoomIsPhysical(c, hostOk);
    SortByContract(l.digitalNodes, BY_NODE);
    var k :| 0 <= k < |c.digitalNodes| && c.digitalNodes[k] == raw;
    LoadedNodeOf(c, hostOk, k);
    assert l.digitalNodes[k] in multiset(l.digitalNodes);
    i :| 0 <= i < |sorted| && sorted[i] == l.digitalNodes[k];
  }

  lemma RoomIsPhysical(c: Config, hostOk: HostRule)
    requires IsRoom(c, hostOk)
    ensures PhysicalOk(Loaded(c)) && |Loaded(c).digitalNodes| == |c.digitalNodes|
  {
    V.SecondValidatorAcceptsIff(c, hostOk);
    V.LoadedNodesOk(c, hostOk);
  }

  /** A node of an accepted room encodes a frame with legal colours exactly if its numbers fit. */
  lemma AcceptedNodeEncodesIff(
      c: Config, hostOk: HostRule, drawn: Frame, nodes: seq<NodeFrame>, i: nat, frame: T.Frame, stamp: T.Stamp,
      round: W.Round, crc: Crc)
    requires IsRoom(c, hostOk) && IsMapped(Loaded(c), drawn, nodes) && i < |nodes| && A.LegalStamp(stamp)
    ensures nodes[i].outputs != []
    ensures E.UdpV3Encoder(round, crc)(nodes[i], frame, stamp).Some? ==> NumbersFit(c, nodes[i].nodeId)
    ensures FrameInRange(frame) && ColoursLegal(drawn) && RoundsToBytes(round) && NumbersFit(c, nodes[i].nodeId) ==>
      E.UdpV3Encoder(round, crc)(nodes[i], frame, stamp).Some?
  {
    hide Accepted, MappingLoads, StripLoads, ZoneLoads, Loaded, IsMapped, SortBy, OutputOf, At, RoundsToBytes,
         ColoursLegal, ChannelsRound, FrameInRange, E.UdpV3Encoder, A.LegalStamp, PhysicalOk, IsV3Node;
    var l, n := Loaded(c), nodes[i];
    RoomIsPhysical(c, hostOk);
    var raw := NodeBehind(c, hostOk, drawn, nodes, i);
    NodeEncodesIff(n, frame, stamp, round, crc);
    NumbersFitIff(c, hostOk, n.nodeId);
    if forall o <- n.outputs :: OutputFits(o, round) {
      forall o <- l.outputs | o.nodeId == n.nodeId
        ensures o.outputId <= 0xFF && o.gpio <= 0xFF && o.pixelCount <= 0xFFFF
      {
        OutputIsSent(l, drawn, o);
        OutputNumbers(l, drawn, o);
      }
    }
    if ColoursLegal(drawn) && RoundsToBytes(round) && NumbersFit(c, n.nodeId) {
      forall f <- n.outputs
        ensures OutputFits(f, round)
      {
        OutputsExist(l, n);
        var o := OutputBehind(l, drawn, n.nodeId, f);
        OutputNumbers(l, drawn, o);
        SourceRounds(drawn, o, round);
      }
    }
  }

  lemma OutputsExist(l: Layout, n: NodeFrame)
    requires PhysicalOk(l) && n.outputs != []
    requires exists drawn :: n.outputs == SortBy(OutputsOfAll(At(l.outputs, n.nodeId), drawn), BY_OUTPUT)
    ensures l.outputs != []
  {
  }

  lemma OutputNumbers(l: Layout, drawn: Frame, o: Output)
    requires PhysicalOk(l) && o in l.outputs
    ensures var f := OutputOf(o, drawn);
      f.outputId == o.outputId && f.gpio == o.gpio && |f.pixels| == o.pixelCount
  {
    hide AnalogNodesOk, DigitalNodesOk, SegmentsOk, Source, NodeComplete;
    var j :| 0 <= j < |l.outputs| && l.outputs[j] == o;
    assert OutputIsSound(l, l.outputs[j]);
  }

  // --- which rooms are sent ----------------------------------------------------------------------

  predicate AllNumbersFit(c: Config) { forall n <- c.digitalNodes :: n.enabled ==> NumbersFit(c, n.nodeId) }

  /** From an accepted version-3 configuration to the counter: where nothing fails and the frame, its colours and the
      clock are in range, a mapped frame is counted as sent if and only if the authored numbers of every enabled node
      fit the wire. */
  lemma AcceptedRoomIsSentIff(
      c: Config, hostOk: HostRule, drawn: Frame, u: T.Setup, round: W.Round, crc: Crc, st: T.State)
    requires IsRoom(c, hostOk) && st.slot.Some? && IsMapped(Loaded(c), drawn, st.slot.value.nodes)
    requires u.Valid() && u.encode == E.UdpV3Encoder(round, crc)
    requires A.SendsWork(u, st) && forall i: nat :: !u.sleepFails(i)
    requires FrameInRange(st.slot.value) && ColoursLegal(drawn) && RoundsToBytes(round)
    requires !A.BadPreparation(u, st, st.slot.value)
    ensures T.Flushed(u, st).0.health.framesSent == st.health.framesSent + 1 <==> AllNumbersFit(c)
  {
    hide Accepted, MappingLoads, StripLoads, ZoneLoads, Loaded, IsMapped, IsV3Node, SortBy, At, FrameInRange,
         ColoursLegal, RoundsToBytes, NumbersFit, A.SendsWork, A.LegalStamp, A.BadPreparation, T.Flushed, T.EncodeAll,
         E.UdpV3Encoder;
    if AllNumbersFit(c) {
      var frame := st.slot.value;
      forall stamp: T.Stamp | A.LegalStamp(stamp)
        ensures T.EncodeAll(u, frame, stamp, frame.nodes).Some?
      {
        forall n <- frame.nodes | n.enabled
          ensures n.outputs != [] && u.encode(n, frame, stamp).Some?
        {
          var i :| 0 <= i < |frame.nodes| && frame.nodes[i] == n;
          var raw := NodeBehind(c, hostOk, drawn, frame.nodes, i);
          AcceptedNodeEncodesIff(c, hostOk, drawn, frame.nodes, i, frame, stamp, round, crc);
        }
        A.EncodeAllIff(u, frame, stamp, frame.nodes);
      }
      A.SentIfNothingFails(u, st);
    } else {
      UnfitRoomIsNeverSent(c, hostOk, drawn, u, round, crc, st);
    }
  }

  /** A room with an enabled node whose numbers do not fit is never sent, whatever is drawn and whatever else works. */
  lemma UnfitRoomIsNeverSent(
      c: Config, hostOk: HostRule, drawn: Frame, u: T.Setup, round: W.Round, crc: Crc, st: T.State)
    requires IsRoom(c, hostOk) && st.slot.Some? && IsMapped(Loaded(c), drawn, st.slot.value.nodes)
    requires u.Valid() && u.encode == E.UdpV3Encoder(round, crc) && !AllNumbersFit(c)
    ensures T.Flushed(u, st).0.health.framesSent == st.health.framesSent
  {
    hide Accepted, MappingLoads, StripLoads, ZoneLoads, Loaded, IsMapped, IsV3Node, SortBy, At, NumbersFit,
         A.LegalStamp, T.Flushed, T.EncodeAll, E.UdpV3Encoder;
    var frame := st.slot.value;
    var raw :| raw in c.digitalNodes && raw.enabled && !NumbersFit(c, raw.nodeId);
    var i := FrameOfAuthored(c, hostOk, drawn, frame.nodes, raw);
    forall stamp: T.Stamp | A.LegalStamp(stamp)
      ensures T.EncodeAll(u, frame, stamp, frame.nodes).None?
    {
      AcceptedNodeEncodesIff(c, hostOk, drawn, frame.nodes, i, frame, stamp, round, crc);
      A.EncodeAllIff(u, frame, stamp, frame.nodes);
      assert frame.nodes[i] in frame.nodes;
    }
    A.NotSentUnlessEncoded(u, st);
  }

  // --- a room that shows the difference ----------------------------------------------------------

  /** A scheduled production room under a deployment policy whose only node has the number 256. */
  const WIDE: Config := Config(
    3, Some(GPIO4), true, {"udp_v3"}, true, [], [Strip("a", 1, "center", FORWARD)], [],
    [RawDigitalNode(256, "h", 1, true, None, None, Some(1024))], [], [RawOutput(256, 1, 4, "a", None, FORWARD)], [], [],
    UdpDefaults("h", 9001, 4096), [])

  /** Both validators accept it, and no frame of it is ever sent. */
  lemma WideRoomIsNeverSent(
      hostOk: HostRule, drawn: Frame, u: T.Setup, round: W.Round, crc: Crc, st: T.State)
    requires hostOk("h") && st.slot.Some?
    requires MappingLoads(WIDE) && IsMapped(Loaded(WIDE), drawn, st.slot.value.nodes)
    requires u.Valid() && u.encode == E.UdpV3Encoder(round, crc)
    ensures Accepted(WIDE, hostOk) && Loads(WIDE) && PhysicalOk(Loaded(WIDE))
    ensures T.Flushed(u, st).0.health.framesSent == st.health.framesSent
  {
    hide Accepted, Loads, MappingLoads, Loaded, IsMapped, PhysicalOk, T.Flushed, E.UdpV3Encoder;
    WideRoomIsAccepted(hostOk);
    V.AcceptedLoads(WIDE, hostOk);
    RoomIsPhysical(WIDE, hostOk);
    assert WIDE.digitalNodes[0] in WIDE.digitalNodes;
    UnfitRoomIsNeverSent(WIDE, hostOk, drawn, u, round, crc, st);
  }

  lemma WideRoomIsAccepted(hostOk: HostRule)
    requires hostOk("h")
    ensures Accepted(WIDE, hostOk)
  {
    hide Lengths, OutputsOf, TotalPixels, NodeIds, StripIds, OutputStrips;
    var c := WIDE;
    WideParts();
    assert OutputOk(c, c.outputs[0]);
    assert NodeOutputsOk(c, c.digitalNodes[0]);
    assert V3Ok(c);
  }

  lemma WideParts()
    ensures Lengths(WIDE.strips) == map["a" := 1]
    ensures StripIds(WIDE.strips) == ["a"] && NodeIds(WIDE.digitalNodes) == [256] && OutputStrips(WIDE.outputs) == ["a"]
    ensures OutputsOf(WIDE.outputs, 256) == WIDE.outputs && TotalPixels(WIDE.outputs, Lengths(WIDE.strips)) == 1
  {
    assert WIDE.strips[..0] == [] && WIDE.outputs[..0] == [] && WIDE.digitalNodes[..0] == [];
  }
}
