/** Two nodes at one host: a room that is accepted, sent, and not shown. */
module TwinHosts {
  import opened Util
  import opened Rgb
  import opened Topology
  import opened Layouts
  import opened PhysicalMapping
  import opened Sorting
  import opened FrameMapping
  import opened DdpLayout
  import opened DdpOverlay
  import opened ConfigToWire
  import V = ValidatorAgreement
  import O = DatagramOutput
  import D = Ddp

  /** The first validator asks for different (host, port) pairs, the second for none. */
  const TWINS: Config := Config(
    3, Some(WLED), false, {"ddp"}, false, [],
    [Strip("a", 1, "center", FORWARD), Strip("b", 1, "center", FORWARD)], [],
    [RawDigitalNode(1, "h", 1, true, None, None, None), RawDigitalNode(2, "h", 2, true, None, None, None)], [],
    [RawOutput(1, 1, 0, "a", None, FORWARD), RawOutput(2, 1, 0, "b", None, FORWARD)], [], [],
    UdpDefaults("h", 9001, 4096), [])

  const WHITE: RGB := RGB(1.0, 1.0, 1.0)

  const WHITE_AND_BLACK: Frame := [LogicalStrip("a", [WHITE]), LogicalStrip("b", [BLACK])]

  lemma TwinsAreAccepted(hostOk: HostRule)
    requires hostOk("h")
    ensures Accepted(TWINS, hostOk) && Loads(TWINS)
  {
    hide Accepted, Loads;
    TwinsParts();
    TwinsOutputs(1, 0);
    TwinsOutputs(2, 1);
    TwinsPass(hostOk);
    V.AcceptedLoads(TWINS, hostOk);
  }

  lemma TwinsParts()
    ensures Lengths(TWINS.strips) == map["a" := 1, "b" := 1]
    ensures StripIds(TWINS.strips) == ["a", "b"] && OutputStrips(TWINS.outputs) == ["a", "b"]
    ensures NodeIds(TWINS.digitalNodes) == [1, 2]
  {
    var strips := TWINS.strips;
    assert strips[..1] == [strips[0]] && strips[..1][..0] == [];
    assert Lengths(strips[..1]) == map["a" := 1];
  }

  lemma TwinsOutputs(id: int, k: nat)
    requires (id == 1 && k == 0) || (id == 2 && k == 1)
    ensures OutputsOf(TWINS.outputs, id) == [TWINS.outputs[k]]
    ensures TotalPixels([TWINS.outputs[k]], map["a" := 1, "b" := 1]) == 1
  {
    var outputs := TWINS.outputs;
    assert outputs[..1] == [outputs[0]] && outputs[..1][..0] == [];
    assert OutputsOf(outputs[..1], id) == if id == 1 then [outputs[0]] else [];
    assert [outputs[k]][..0] == [];
  }

  lemma TwinsPass(hostOk: HostRule)
    requires hostOk("h")
    requires Lengths(TWINS.strips) == map["a" := 1, "b" := 1]
    requires StripIds(TWINS.strips) == ["a", "b"] && OutputStrips(TWINS.outputs) == ["a", "b"]
    requires NodeIds(TWINS.digitalNodes) == [1, 2]
    requires OutputsOf(TWINS.outputs, 1) == [TWINS.outputs[0]] && OutputsOf(TWINS.outputs, 2) == [TWINS.outputs[1]]
    requires TotalPixels([TWINS.outputs[0]], map["a" := 1, "b" := 1]) == 1
    requires TotalPixels([TWINS.outputs[1]], map["a" := 1, "b" := 1]) == 1
    ensures Accepted(TWINS, hostOk)
  {
    hide Lengths, OutputsOf, TotalPixels, NodeIds, StripIds, OutputStrips;
    var c := TWINS;
    assert OutputOk(c, c.outputs[0]) && OutputOk(c, c.outputs[1]) by {
      assert NodeIds(c.digitalNodes)[0] == 1 && NodeIds(c.digitalNodes)[1] == 2;
    }
    assert NodeOutputsOk(c, c.digitalNodes[0]) && NodeOutputsOk(c, c.digitalNodes[1]);
    assert V3Ok(c);
    assert NamesOk(c) && AnalogOk(c) && PolicyOk(c) && DigitalOk(c, hostOk);
    assert SegmentsOk(c.segments, Lengths(c.strips), NodeLengths(c.digitalNodes));
  }

  /** The two frames that the room's nodes are sent. */
  lemma TwinFrames(nodes: seq<NodeFrame>, hostOk: HostRule)
    requires hostOk("h") && MappingLoads(TWINS) && IsMapped(Loaded(TWINS), WHITE_AND_BLACK, nodes)
    ensures |nodes| == 2
    ensures nodes[0].enabled && nodes[0].host == "h" && nodes[0].outputs == [OutputFrame(1, 0, "a", [WHITE])]
    ensures nodes[1].enabled && nodes[1].host == "h" && nodes[1].outputs == [OutputFrame(1, 0, "b", [BLACK])]
  {
    hide IsMapped, MappingLoads, Loaded;
    TwinsParts();
    TwinLayout();
    var l := Loaded(TWINS);
    assert SortBy(l.digitalNodes, BY_NODE) == l.digitalNodes by { SortOfSorted(l.digitalNodes, BY_NODE); }
    MappedTwin(l, nodes, 0);
    MappedTwin(l, nodes, 1);
    TwinSource("a", 0);
    TwinSource("b", 1);
    OneOutput(l, 0, WHITE);
    OneOutput(l, 1, BLACK);
  }

  lemma TwinLayout()
    requires MappingLoads(TWINS)
    ensures var l := Loaded(TWINS);
      && |l.digitalNodes| == 2 && |l.outputs| == 2
      && l.digitalNodes[0].nodeId == 1 && l.digitalNodes[1].nodeId == 2
      && (forall i :: 0 <= i < 2 ==> l.digitalNodes[i].host == "h" && l.digitalNodes[i].enabled)
      && l.outputs == [Output(1, 1, 0, "a", 1, FORWARD), Output(2, 1, 0, "b", 1, FORWARD)]
  {
    hide Derived, Lengths;
    TwinsParts();
  }

  lemma MappedTwin(l: Layout, nodes: seq<NodeFrame>, i: nat)
    requires IsMapped(l, WHITE_AND_BLACK, nodes) && |l.digitalNodes| == 2 && i < 2
    requires SortBy(l.digitalNodes, BY_NODE) == l.digitalNodes
    ensures |nodes| == 2
    ensures var n := l.digitalNodes[i];
      && nodes[i].host == n.host && nodes[i].enabled == n.enabled
      && nodes[i].outputs == SortBy(OutputsOfAll(At(l.outputs, n.nodeId), WHITE_AND_BLACK), BY_OUTPUT)
  {
  }

  lemma OneOutput(l: Layout, i: nat, c: RGB)
    requires i < 2 && l.outputs == [Output(1, 1, 0, "a", 1, FORWARD), Output(2, 1, 0, "b", 1, FORWARD)]
    requires Source(WHITE_AND_BLACK, l.outputs[i].stripId, 1, FORWARD) == [c]
    ensures SortBy(OutputsOfAll(At(l.outputs, i + 1), WHITE_AND_BLACK), BY_OUTPUT)
         == [OutputFrame(1, 0, l.outputs[i].stripId, [c])]
  {
    hide Source;
    assert l.outputs[..1] == [l.outputs[0]] && l.outputs[..1][..0] == [];
    assert At(l.outputs[..1], i + 1) == if i == 0 then [l.outputs[0]] else [];
    var mine := OutputsOfAll(At(l.outputs, i + 1), WHITE_AND_BLACK);
    assert mine == [OutputFrame(1, 0, l.outputs[i].stripId, [c])];
    SortOfSorted(mine, BY_OUTPUT);
  }

  lemma TwinSource(id: string, i: nat)
    requires (id == "a" && i == 0) || (id == "b" && i == 1)
    ensures Source(WHITE_AND_BLACK, id, 1, FORWARD) == [if i == 0 then WHITE else BLACK]
  {
    var frame := WHITE_AND_BLACK;
    assert frame[..1] == [frame[0]];
    assert Drawn(frame, id) == frame[i].pixels;
    SourceByIndex(frame, id, 1, FORWARD, 0);
  }

  /** The payload of a node with one output of one pixel. */
  lemma OnePixelPayload(f: NodeFrame, o: OutputFrame, c: RGB, toU8: ToU8)
    requires f.outputs == [o] && o.pixels == [c]
    ensures PayloadOf(f, toU8) == [toU8(c.r), toU8(c.g), toU8(c.b)]
  {
    hide D.Channels, D.Payload, Joined, SortBy;
    SortOfSorted(f.outputs, BY_OUTPUT);
    assert Joined(f.outputs) == [c] by { OneJoined(o); }
    var p := Quantised([c], toU8);
    assert p == [D.Pixel(toU8(c.r), toU8(c.g), toU8(c.b))];
    OneChannelled(p[0]);
  }

  lemma OneJoined(o: OutputFrame)
    ensures Joined([o]) == o.pixels
  {
    assert [o][..0] == [];
  }

  lemma OneChannelled(p: D.Pixel)
    ensures D.Payload([p]) == [D.Low(p.red), D.Low(p.green), D.Low(p.blue)]
  {
    assert [p][..0] == [];
  }

  /** An accepted room under a deployment policy that is not shown: two nodes at one host, on ports of their own that
      DDP ignores. The first is white, the second black; a frame counted as sent leaves the receiver black for both. */
  lemma TwinsCollide(hostOk: HostRule, u: O.Setup, toU8: ToU8, st: O.State, buffer: D.Bytes)
    requires hostOk("h") && toU8(0.0) != toU8(1.0) && |buffer| == 3
    requires IsDdp(u, toU8) && u.mode == O.Memory && st.slot.Some?
    requires MappingLoads(TWINS) && IsMapped(Loaded(TWINS), WHITE_AND_BLACK, st.slot.value.nodes)
    ensures Accepted(TWINS, hostOk) && Loads(TWINS) && TWINS.OneOutputEach() && PhysicalOk(Loaded(TWINS))
    ensures var (after, r) := O.Flushed(u, st); var f := st.slot.value.nodes[0];
      && |st.slot.value.nodes| == 2 && f.enabled
      && after.health.framesSent == st.health.framesSent + 1 && |st.log| <= |after.log|
      && D.ApplyAll(buffer, Received(after.log[|st.log|..], (f.host, u.port.value))) != PayloadOf(f, toU8)
  {
    hide Accepted, Loads, MappingLoads, IsMapped, Loaded, PhysicalOk, SortBy, O.Flushed, D.ApplyAll, Received,
         PayloadOf, Undisturbed, D.Channels, Quantised, Joined;
    TwinsAreAccepted(hostOk);
    TwinsDisagree(st.slot.value.nodes, hostOk, toU8);
    EverythingIsSent(u, toU8, st);
    TwinLengths();
    AcceptedRoomIsShownIff(TWINS, hostOk, WHITE_AND_BLACK, 0, u, toU8, st, buffer);
  }

  lemma TwinsDisagree(nodes: seq<NodeFrame>, hostOk: HostRule, toU8: ToU8)
    requires hostOk("h") && toU8(0.0) != toU8(1.0)
    requires MappingLoads(TWINS) && IsMapped(Loaded(TWINS), WHITE_AND_BLACK, nodes)
    ensures |nodes| == 2 && nodes[0].enabled && nodes[0].host == "h" && |PayloadOf(nodes[0], toU8)| == 3
    ensures !Undisturbed(nodes[0 + 1..], toU8, "h", PayloadOf(nodes[0], toU8))
  {
    hide IsMapped, MappingLoads, Loaded, PayloadOf, Undisturbed;
    TwinFrames(nodes, hostOk);
    OnePixelPayload(nodes[0], nodes[0].outputs[0], WHITE, toU8);
    OnePixelPayload(nodes[1], nodes[1].outputs[0], BLACK, toU8);
    SecondDisturbs(nodes, toU8);
  }

  lemma TwinLengths()
    requires Loads(TWINS)
    ensures forall n <- Loaded(TWINS).digitalNodes :: n.pixelCount == 1
  {
    hide Lengths;
    TwinsParts();
    var outputs := TWINS.outputs;
    assert outputs[..1] == [outputs[0]] && outputs[..1][..0] == [];
    assert Derived(outputs[..1], Lengths(TWINS.strips)) == map[1 := 1];
    assert Derived(outputs, Lengths(TWINS.strips)) == map[1 := 1, 2 := 1];
  }

  lemma SecondDisturbs(nodes: seq<NodeFrame>, toU8: ToU8)
    requires |nodes| == 2 && nodes[1].enabled && nodes[1].host == "h" && toU8(0.0) != toU8(1.0)
    requires |PayloadOf(nodes[0], toU8)| == |PayloadOf(nodes[1], toU8)| == 3
    requires PayloadOf(nodes[0], toU8)[0] == toU8(1.0) && PayloadOf(nodes[1], toU8)[0] == toU8(0.0)
    ensures !Undisturbed(nodes[1..], toU8, "h", PayloadOf(nodes[0], toU8))
  {
    hide PayloadOf, Reach;
    WholePayloadFits(3, 3, LIMIT);
    assert nodes[1..][0] == nodes[1];
    assert LastByte(nodes[1..], toU8, "h", 3, 0) == Some(toU8(0.0));
  }

  /** Outside production mode a DDP frame is always counted as sent. */
  lemma EverythingIsSent(u: O.Setup, toU8: ToU8, st: O.State)
    requires IsDdp(u, toU8) && u.mode == O.Memory && st.slot.Some?
    ensures O.Flushed(u, st).0.health.framesSent == st.health.framesSent + 1
  {
    hide O.Flushed;
    O.SentIfAllEncode(u, st);
  }
}
