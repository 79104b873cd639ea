/** The layout that the loader derives from an authored configuration. */
module Layouts {
  import opened Util
  import opened PixelSets
  import opened Lists
  import opened Topology

  datatype DigitalNode = DigitalNode(
    nodeId: int, host: string, port: int, pixelCount: int, maxUdpPayload: int, protocolVersion: int, enabled: bool)

  datatype Output = Output(nodeId: int, outputId: int, gpio: int, stripId: string, pixelCount: int, direction: string)

  datatype Layout = Layout(
    topologyVersion: int, policy: Option<string>, zones: seq<Zone>, strips: seq<Strip>, analogNodes: seq<AnalogNode>,
    digitalNodes: seq<DigitalNode>, segments: seq<Segment>, outputs: seq<Output>)

  // --- derived node lengths ----------------------------------------------------------------------

  /** `derived_node_lengths`: the pixels of the strips that each node's outputs drive. */
  function Derived(outputs: seq<RawOutput>, lengths: map<string, int>): map<int, int> {
    if outputs == [] then map[]
    else
      var before, last := Derived(outputs[..|outputs| - 1], lengths), outputs[|outputs| - 1];
      before[last.nodeId := (if last.nodeId in before then before[last.nodeId] else 0)
                            + (if last.stripId in lengths then lengths[last.stripId] else 0)]
  }

  /** The running sums are, node by node, the totals over the node's own outputs. */
  lemma {:induction false} DerivedIsTotal(outputs: seq<RawOutput>, lengths: map<string, int>, nodeId: int)
    ensures nodeId in Derived(outputs, lengths) <==> OutputsOf(outputs, nodeId) != []
    ensures nodeId in Derived(outputs, lengths) ==>
      Derived(outputs, lengths)[nodeId] == TotalPixels(OutputsOf(outputs, nodeId), lengths)
  {
    if outputs != [] {
      var init, last := outputs[..|outputs| - 1], outputs[|outputs| - 1];
      DerivedIsTotal(init, lengths, nodeId);
      if last.nodeId == nodeId {
        var mine := OutputsOf(outputs, nodeId);
        assert mine[..|mine| - 1] == OutputsOf(init, nodeId);
      }
    }
  }

  // --- what stands in for what is not authored ---------------------------------------------------

  /** Version 2 without analog nodes: one for each zone, numbered from 1. */
  function AnalogFromZones(zones: seq<Zone>): (r: seq<AnalogNode>)
    ensures |r| == |zones|
  {
    seq(|zones|, i requires 0 <= i < |zones| => AnalogNode(i + 1, zones[i].id, 0, "RGBWC", zones[i].videoZone))
  }

  function AnalogOf(c: Config): seq<AnalogNode> {
    if c.analogNodes == [] && !c.IsV3() then AnalogFromZones(c.zones) else c.analogNodes
  }

  function HighestId(nodes: seq<AnalogNode>): int {
    if nodes == [] then 0
    else if |nodes| == 1 then nodes[0].nodeId
    else Max(HighestId(nodes[..|nodes| - 1]), nodes[|nodes| - 1].nodeId)
  }

  function TotalLength(strips: seq<Strip>): int {
    if strips == [] then 0 else TotalLength(strips[..|strips| - 1]) + strips[|strips| - 1].pixelCount
  }

  /** No authored digital nodes: one node for all strips. */
  function SoleNode(c: Config): DigitalNode {
    DigitalNode(HighestId(AnalogOf(c)) + 1, c.udp.host, c.udp.port, TotalLength(c.strips), c.udp.maxPacketSize, 2, true)
  }

  /** Version 2 without segments: the strips one after the other on one node. */
  function SegmentsFromStrips(strips: seq<Strip>, nodeId: int): (r: seq<Segment>)
    ensures |r| == |strips|
  {
    if strips == [] then []
    else
      var init, s := strips[..|strips| - 1], strips[|strips| - 1];
      SegmentsFromStrips(init, nodeId)
      + [Segment(s.id, s.id, nodeId, TotalLength(init), s.pixelCount, s.direction, s.videoZone)]
  }

  // --- what loads, and what it loads to ----------------------------------------------------------

  predicate ZoneLoads(z: Zone) { z.id != "" && z.videoZone in VIDEO_ZONES && IsDirection(z.direction) }

  predicate StripLoads(s: Strip) {
    s.id != "" && s.pixelCount >= 1 && s.videoZone in VIDEO_ZONES && IsDirection(s.direction)
  }

  predicate AnalogLoads(n: AnalogNode) {
    n.nodeId >= 1 && n.zoneId != "" && n.videoZone != "" && n.channelOrder != "" && n.fadeMs >= 0
  }

  predicate NodeLoads(c: Config, n: RawDigitalNode) {
    && n.nodeId >= 1
    && (if c.IsV3() then
          var derived := Derived(c.outputs, Lengths(c.strips));
          && n.nodeId in derived
          && (n.pixelCount.Some? ==> n.pixelCount.value >= 1 && n.pixelCount.value == derived[n.nodeId])
        else n.pixelCount.Some? && n.pixelCount.value >= 1)
    && n.host != "" && n.port >= 1 && c.PayloadOf(n) >= 1 && c.VersionOf(n) >= 2
  }

  predicate SegmentLoads(s: Segment) {
    && s.segmentId != "" && s.stripId != "" && s.nodeId >= 1 && s.offset >= 0 && s.pixelCount >= 1
    && s.direction != "" && s.videoZone != ""
  }

  predicate OutputLoads(c: Config, o: RawOutput) {
    && o.nodeId >= 1 && o.stripId != ""
    && (if c.IsV3() then
          && o.stripId in Lengths(c.strips)
          && (o.pixelCount.Some? ==> o.pixelCount.value >= 1 && o.pixelCount.value == Lengths(c.strips)[o.stripId])
        else o.pixelCount.Some? && o.pixelCount.value >= 1)
    && o.outputId >= 1 && o.gpio >= 0 && o.direction != ""
  }

  predicate MappingLoads(c: Config) {
    && (forall i :: 0 <= i < |c.analogNodes| ==> AnalogLoads(c.analogNodes[i]))
    && (forall i :: 0 <= i < |c.outputs| ==> OutputLoads(c, c.outputs[i]))
    && (forall i :: 0 <= i < |c.digitalNodes| ==> NodeLoads(c, c.digitalNodes[i]))
    && (c.digitalNodes == [] && c.strips != [] ==> c.udp.port >= 1 && c.udp.maxPacketSize >= 1)
    && (forall i :: 0 <= i < |c.segments| ==> SegmentLoads(c.segments[i]))
  }

  predicate Loads(c: Config) {
    && (forall i :: 0 <= i < |c.strips| ==> StripLoads(c.strips[i]))
    && (forall i :: 0 <= i < |c.zones| ==> ZoneLoads(c.zones[i]))
    && MappingLoads(c)
  }

  function LoadNode(c: Config, n: RawDigitalNode): DigitalNode
    requires NodeLoads(c, n)
  {
    var pixelCount := if c.IsV3() then Derived(c.outputs, Lengths(c.strips))[n.nodeId] else n.pixelCount.value;
    DigitalNode(n.nodeId, n.host, n.port, pixelCount, c.PayloadOf(n), c.VersionOf(n), n.enabled)
  }

  function LoadOutput(c: Config, o: RawOutput): Output
    requires OutputLoads(c, o)
  {
    var pixelCount := if c.IsV3() then Lengths(c.strips)[o.stripId] else o.pixelCount.value;
    Output(o.nodeId, o.outputId, o.gpio, o.stripId, pixelCount, o.direction)
  }

  function LoadNodes(c: Config, nodes: seq<RawDigitalNode>): (r: seq<DigitalNode>)
    requires forall i :: 0 <= i < |nodes| ==> NodeLoads(c, nodes[i])
    ensures |r| == |nodes|
  {
    seq(|nodes|, i requires 0 <= i < |nodes| => LoadNode(c, nodes[i]))
  }

  function LoadOutputs(c: Config, outputs: seq<RawOutput>): (r: seq<Output>)
    requires forall i :: 0 <= i < |outputs| ==> OutputLoads(c, outputs[i])
    ensures |r| == |outputs|
  {
    seq(|outputs|, i requires 0 <= i < |outputs| => LoadOutput(c, outputs[i]))
  }

  function NodesOf(c: Config): seq<DigitalNode>
    requires MappingLoads(c)
  {
    if c.digitalNodes != [] then LoadNodes(c, c.digitalNodes) else if c.strips != [] then [SoleNode(c)] else []
  }

  function SegmentsOf(c: Config): seq<Segment>
    requires MappingLoads(c)
  {
    if c.segments != [] || c.IsV3() then c.segments
    else
      var nodes := NodesOf(c);
      SegmentsFromStrips(c.strips, if nodes != [] then nodes[0].nodeId else 1)
  }

  function Loaded(c: Config): Layout
    requires MappingLoads(c)
  {
    Layout(c.topologyVersion, c.policy, c.zones, c.strips, AnalogOf(c), NodesOf(c), SegmentsOf(c),
           LoadOutputs(c, c.outputs))
  }

  // --- the loader --------------------------------------------------------------------------------

  /** The layout, before its virtual paths are built and the second validator looks at it. */
  method LoadTopology(c: Config) returns (r: Option<Layout>)
    ensures r.Some? <==> Loads(c)
    ensures r.Some? ==> r.value == Loaded(c)
  {
    hide MappingLoads, Loaded;
    for i := 0 to |c.strips|
      invariant forall j :: 0 <= j < i ==> StripLoads(c.strips[j])
    {
      if c.strips[i].videoZone !in VIDEO_ZONES || !StripLoads(c.strips[i]) {
        return None;
      }
    }
    for i := 0 to |c.zones|
      invariant forall j :: 0 <= j < i ==> ZoneLoads(c.zones[j])
    {
      if c.zones[i].videoZone !in VIDEO_ZONES || !ZoneLoads(c.zones[i]) {
        return None;
      }
    }
    r := LoadPhysicalMapping(c);
  }

  method LoadPhysicalMapping(c: Config) returns (r: Option<Layout>)
    ensures r.Some? <==> MappingLoads(c)
    ensures r.Some? ==> r.value == Loaded(c)
  {
    hide AnalogLoads, NodeLoads, OutputLoads, SegmentLoads, Derived, Lengths, AnalogOf, SegmentsOf, LoadNodes;
    var analogNodes := LoadAnalogNodes(c);
    if analogNodes.None? {
      return None;
    }
    var stripLengths := Lengths(c.strips);
    var derived := DeriveLengths(c, stripLengths);
    if derived.None? {
      return None;
    }
    var digitalNodes: seq<DigitalNode> := [];
    if c.digitalNodes != [] {
      var loaded := LoadNodeList(c, derived.value);
      if loaded.None? {
        return None;
      }
      digitalNodes := loaded.value;
    } else if c.strips != [] {
      if c.udp.port < 1 || c.udp.maxPacketSize < 1 {
        return None;
      }
      digitalNodes := [DigitalNode(HighestId(analogNodes.value) + 1, c.udp.host, c.udp.port, TotalLength(c.strips),
                                   c.udp.maxPacketSize, 2, true)];
    }
    var segments := LoadSegments(c, digitalNodes);
    if segments.None? {
      return None;
    }
    var outputs := LoadOutputList(c, stripLengths);
    if outputs.None? {
      return None;
    }
    assert MappingLoads(c);
    assert digitalNodes == NodesOf(c);
    assert segments.value == SegmentsOf(c) by { SegmentsUnfold(c); }
    return Some(Layout(c.topologyVersion, c.policy, c.zones, c.strips, analogNodes.value, digitalNodes, segments.value,
                       outputs.value));
  }

  lemma SegmentsUnfold(c: Config)
    requires MappingLoads(c)
    ensures SegmentsOf(c) == ChosenSegments(c, NodesOf(c))
  {
  }

  /** The segments, given the digital nodes. */
  function ChosenSegments(c: Config, nodes: seq<DigitalNode>): seq<Segment> {
    if c.segments != [] || c.IsV3() then c.segments
    else SegmentsFromStrips(c.strips, if nodes != [] then nodes[0].nodeId else 1)
  }

  method LoadAnalogNodes(c: Config) returns (r: Option<seq<AnalogNode>>)
    ensures r.Some? <==> forall i :: 0 <= i < |c.analogNodes| ==> AnalogLoads(c.analogNodes[i])
    ensures r.Some? ==> r.value == AnalogOf(c)
  {
    var nodes: seq<AnalogNode> := [];
    if c.analogNodes != [] {
      for i := 0 to |c.analogNodes|
        invariant nodes == c.analogNodes[..i]
        invariant forall j :: 0 <= j < i ==> AnalogLoads(c.analogNodes[j])
      {
        if !AnalogLoads(c.analogNodes[i]) {
          return None;
        }
        nodes := nodes + [c.analogNodes[i]];
      }
      assert nodes == c.analogNodes;
    } else if !c.IsV3() {
      for i := 0 to |c.zones|
        invariant nodes == AnalogFromZones(c.zones)[..i]
      {
        nodes := nodes + [AnalogNode(i + 1, c.zones[i].id, 0, "RGBWC", c.zones[i].videoZone)];
      }
      assert nodes == AnalogFromZones(c.zones);
    }
    return Some(nodes);
  }

  /** `derived_node_lengths`, filled for version 3 only; some output that is refused here does not load. */
  method DeriveLengths(c: Config, stripLengths: map<string, int>) returns (r: Option<map<int, int>>)
    requires stripLengths == Lengths(c.strips)
    ensures r.Some? && c.IsV3() ==> r.value == Derived(c.outputs, stripLengths)
    ensures r.None? ==> exists i :: 0 <= i < |c.outputs| && !OutputLoads(c, c.outputs[i])
  {
    hide Lengths;
    var derived: map<int, int> := map[];
    if c.IsV3() {
      for i := 0 to |c.outputs|
        invariant derived == Derived(c.outputs[..i], stripLengths)
      {
        var o := c.outputs[i];
        assert c.outputs[..i + 1][..i] == c.outputs[..i];
        if o.nodeId < 1 || o.stripId == "" || o.stripId !in stripLengths {
          assert !OutputLoads(c, o);
          return None;
        }
        var before := if o.nodeId in derived then derived[o.nodeId] else 0;
        derived := derived[o.nodeId := before + stripLengths[o.stripId]];
      }
      assert c.outputs[..|c.outputs|] == c.outputs;
    }
    return Some(derived);
  }

  method LoadNodeList(c: Config, derived: map<int, int>) returns (r: Option<seq<DigitalNode>>)
    requires c.IsV3() ==> derived == Derived(c.outputs, Lengths(c.strips))
    ensures r.Some? <==> forall i :: 0 <= i < |c.digitalNodes| ==> NodeLoads(c, c.digitalNodes[i])
    ensures r.Some? ==> r.value == LoadNodes(c, c.digitalNodes)
  {
    hide Lengths, Derived;
    var nodes: seq<DigitalNode> := [];
    for i := 0 to |c.digitalNodes|
      invariant |nodes| == i
      invariant forall j :: 0 <= j < i ==> NodeLoads(c, c.digitalNodes[j]) && nodes[j] == LoadNode(c, c.digitalNodes[j])
    {
      var n := c.digitalNodes[i];
      var node := LoadOneNode(c, n, derived);
      if node.None? {
        return None;
      }
      nodes := nodes + [node.value];
    }
    assert nodes == LoadNodes(c, c.digitalNodes);
    return Some(nodes);
  }

  method LoadOneNode(c: Config, n: RawDigitalNode, derived: map<int, int>) returns (r: Option<DigitalNode>)
    requires c.IsV3() ==> derived == Derived(c.outputs, Lengths(c.strips))
    ensures r.Some? <==> NodeLoads(c, n)
    ensures r.Some? ==> r.value == LoadNode(c, n)
  {
    hide Lengths, Derived;
    if n.nodeId < 1 {
      return None;
    }
    var pixelCount: int;
    if c.IsV3() {
      if n.nodeId !in derived {
        return None;
      }
      pixelCount := derived[n.nodeId];
      if n.pixelCount.Some? && (n.pixelCount.value < 1 || n.pixelCount.value != pixelCount) {
        return None;
      }
    } else {
      if n.pixelCount.None? || n.pixelCount.value < 1 {
        return None;
      }
      pixelCount := n.pixelCount.value;
    }
    if n.host == "" || n.port < 1 || c.PayloadOf(n) < 1 || c.VersionOf(n) < 2 {
      return None;
    }
    return Some(DigitalNode(n.nodeId, n.host, n.port, pixelCount, c.PayloadOf(n), c.VersionOf(n), n.enabled));
  }

  method LoadSegments(c: Config, nodes: seq<DigitalNode>) returns (r: Option<seq<Segment>>)
    ensures r.Some? <==> forall i :: 0 <= i < |c.segments| ==> SegmentLoads(c.segments[i])
    ensures r.Some? ==> r.value == ChosenSegments(c, nodes)
  {
    var segments: seq<Segment> := [];
    if c.segments != [] {
      for i := 0 to |c.segments|
        invariant segments == c.segments[..i]
        invariant forall j :: 0 <= j < i ==> SegmentLoads(c.segments[j])
      {
        if !SegmentLoads(c.segments[i]) {
          return None;
        }
        segments := segments + [c.segments[i]];
      }
      assert segments == c.segments;
    } else if !c.IsV3() {
      var offset := 0;
      var nodeId := if nodes != [] then nodes[0].nodeId else 1;
      for i := 0 to |c.strips|
        invariant offset == TotalLength(c.strips[..i])
        invariant segments == SegmentsFromStrips(c.strips[..i], nodeId)
      {
        var s := c.strips[i];
        assert c.strips[..i + 1][..i] == c.strips[..i];
        segments := segments + [Segment(s.id, s.id, nodeId, offset, s.pixelCount, s.direction, s.videoZone)];
        offset := offset + s.pixelCount;
      }
      assert c.strips[..|c.strips|] == c.strips;
    }
    return Some(segments);
  }

  method LoadOutputList(c: Config, stripLengths: map<string, int>) returns (r: Option<seq<Output>>)
    requires stripLengths == Lengths(c.strips)
    ensures r.Some? <==> forall i :: 0 <= i < |c.outputs| ==> OutputLoads(c, c.outputs[i])
    ensures r.Some? ==> r.value == LoadOutputs(c, c.outputs)
  {
    hide Lengths;
    var outputs: seq<Output> := [];
    for i := 0 to |c.outputs|
      invariant |outputs| == i
      invariant forall j :: 0 <= j < i ==> OutputLoads(c, c.outputs[j]) && outputs[j] == LoadOutput(c, c.outputs[j])
    {
      var output := LoadOneOutput(c, c.outputs[i], stripLengths);
      if output.None? {
        return None;
      }
      outputs := outputs + [output.value];
    }
    assert outputs == LoadOutputs(c, c.outputs);
    return Some(outputs);
  }

  method LoadOneOutput(c: Config, o: RawOutput, stripLengths: map<string, int>) returns (r: Option<Output>)
    requires stripLengths == Lengths(c.strips)
    ensures r.Some? <==> OutputLoads(c, o)
    ensures r.Some? ==> r.value == LoadOutput(c, o)
  {
    hide Lengths;
    if o.stripId == "" {
      return None;
    }
    var pixelCount: int;
    if c.IsV3() {
      if o.stripId !in stripLengths {
        return None;
      }
      pixelCount := stripLengths[o.stripId];
      if o.pixelCount.Some? && (o.pixelCount.value < 1 || o.pixelCount.value != pixelCount) {
        return None;
      }
    } else {
      if o.pixelCount.None? || o.pixelCount.value < 1 {
        return None;
      }
      pixelCount := o.pixelCount.value;
    }
    if o.nodeId < 1 || o.outputId < 1 || o.gpio < 0 || o.direction == "" {
      return None;
    }
    return Some(Output(o.nodeId, o.outputId, o.gpio, o.stripId, pixelCount, o.direction));
  }

  // --- the loaded layout in terms of the authored one --------------------------------------------

  /** Strip j has this name and no later strip has it. */
  predicate LastOfName(strips: seq<Strip>, j: nat, id: string) {
    j < |strips| && strips[j].id == id && forall k :: j < k < |strips| ==> strips[k].id != id
  }

  lemma {:induction false} LengthIsLast(strips: seq<Strip>, j: nat, id: string)
    requires LastOfName(strips, j, id)
    ensures id in Lengths(strips) && Lengths(strips)[id] == strips[j].pixelCount
  {
    var init := strips[..|strips| - 1];
    if j < |init| {
      assert strips[|init|].id != id;
      LengthIsLast(init, j, id);
    }
  }

  /** A loaded output is as authored; in version 3 it is as long as the last strip of its name. */
  lemma LoadedOutputIs(c: Config, i: nat, j: nat)
    requires MappingLoads(c) && i < |c.outputs| && LastOfName(c.strips, j, c.outputs[i].stripId)
    ensures var raw, o := c.outputs[i], Loaded(c).outputs[i];
      && |Loaded(c).outputs| == |c.outputs| && o.nodeId == raw.nodeId && o.outputId == raw.outputId
      && o.gpio == raw.gpio && o.stripId == raw.stripId && o.direction == raw.direction
      && (if c.IsV3() then o.pixelCount == c.strips[j].pixelCount else raw.pixelCount == Some(o.pixelCount))
  {
    hide Lengths, LastOfName, SegmentsOf, NodesOf, AnalogOf;
    LengthIsLast(c.strips, j, c.outputs[i].stripId);
    assert OutputLoads(c, c.outputs[i]);
  }

  /** A loaded digital node is as authored, with what was left out filled in; in version 3 it is as long as its outputs
      together. */
  lemma LoadedNodeIs(c: Config, i: nat)
    requires MappingLoads(c) && i < |c.digitalNodes|
    ensures var raw, n := c.digitalNodes[i], Loaded(c).digitalNodes[i];
      && |Loaded(c).digitalNodes| == |c.digitalNodes|
      && n.nodeId == raw.nodeId && n.host == raw.host && n.port == raw.port && n.enabled == raw.enabled
      && raw.maxUdpPayload in {Some(n.maxUdpPayload), None} && raw.protocolVersion in {Some(n.protocolVersion), None}
      && (raw.maxUdpPayload.None? ==> n.maxUdpPayload == 4096)
      && (raw.protocolVersion.None? ==> n.protocolVersion == if c.IsV3() then 3 else 2)
      && (if c.IsV3() then n.pixelCount == TotalPixels(OutputsOf(c.outputs, n.nodeId), Lengths(c.strips))
          else raw.pixelCount == Some(n.pixelCount))
  {
    hide Lengths, Derived, SegmentsOf, AnalogOf, LoadOutputs;
    assert NodeLoads(c, c.digitalNodes[i]);
    DerivedIsTotal(c.outputs, Lengths(c.strips), c.digitalNodes[i].nodeId);
  }

  /** Authored analog nodes are loaded as they are. Without them version 2 has one for each zone, in their order and
      numbered from 1, without a fade, in the order red, green, blue, warm, cool; version 3 has none. */
  lemma LoadedAnalogIs(c: Config, i: nat)
    requires MappingLoads(c) && i < |Loaded(c).analogNodes|
    ensures c.analogNodes != [] ==> Loaded(c).analogNodes == c.analogNodes
    ensures c.analogNodes == [] ==>
      var n := Loaded(c).analogNodes[i];
      && !c.IsV3() && |Loaded(c).analogNodes| == |c.zones| && n.nodeId == i + 1 && n.zoneId == c.zones[i].id
      && n.videoZone == c.zones[i].videoZone && n.fadeMs == 0 && n.channelOrder == "RGBWC"
  {
    hide NodesOf, SegmentsOf, LoadOutputs;
  }

  lemma {:induction false} HighestIsMaximum(nodes: seq<AnalogNode>)
    ensures nodes == [] ==> HighestId(nodes) == 0
    ensures forall i :: 0 <= i < |nodes| ==> nodes[i].nodeId <= HighestId(nodes)
    ensures nodes != [] ==> exists i :: 0 <= i < |nodes| && nodes[i].nodeId == HighestId(nodes)
  {
    if |nodes| == 1 {
      assert nodes[0].nodeId == HighestId(nodes);
    } else if nodes != [] {
      var init := nodes[..|nodes| - 1];
      HighestIsMaximum(init);
      var i :| 0 <= i < |init| && init[i].nodeId == HighestId(init);
      assert nodes[i].nodeId <= HighestId(nodes) && nodes[|init|].nodeId <= HighestId(nodes);
      assert nodes[i].nodeId == HighestId(nodes) || nodes[|init|].nodeId == HighestId(nodes);
    }
  }

  /** Without authored digital nodes there is one for all strips, if there are strips: of version 2, enabled, at the
      address of the UDP output, and numbered one above the highest analog node. */
  lemma LoadedSoleNodeIs(c: Config)
    requires MappingLoads(c) && c.digitalNodes == []
    ensures var l := Loaded(c);
      if c.strips == [] then l.digitalNodes == []
      else
        && |l.digitalNodes| == 1
        && var n := l.digitalNodes[0];
        && n.host == c.udp.host && n.port == c.udp.port && n.maxUdpPayload == c.udp.maxPacketSize
        && n.protocolVersion == 2 && n.enabled
        && (forall i :: 0 <= i < |l.analogNodes| ==> l.analogNodes[i].nodeId < n.nodeId)
        && (if l.analogNodes == [] then n.nodeId == 1
            else exists i :: 0 <= i < |l.analogNodes| && l.analogNodes[i].nodeId == n.nodeId - 1)
  {
    hide SegmentsOf, LoadOutputs, HighestId, AnalogOf, TotalLength;
    HighestIsMaximum(AnalogOf(c));
  }

  /** Authored segments are loaded as they are. The segments that version 2 derives without them have the names,
      lengths and directions of the strips, follow each other from offset 0 on one node, and end where a node derived
      for all strips ends. */
  lemma LoadedSegmentIs(c: Config, i: nat)
    requires MappingLoads(c) && i < |c.strips|
    ensures c.segments != [] || c.IsV3() ==> Loaded(c).segments == c.segments
    ensures c.segments == [] && !c.IsV3() ==>
      var l := Loaded(c);
      && |l.segments| == |c.strips|
      && var s, seg := c.strips[i], l.segments[i];
      && l.digitalNodes != [] && seg.nodeId == l.digitalNodes[0].nodeId
      && seg.segmentId == s.id && seg.stripId == s.id && seg.pixelCount == s.pixelCount
      && seg.direction == s.direction && seg.videoZone == s.videoZone
      && seg.offset == (if i == 0 then 0 else l.segments[i - 1].offset + l.segments[i - 1].pixelCount)
      && (c.digitalNodes == [] && i == |c.strips| - 1 ==> seg.offset + seg.pixelCount == l.digitalNodes[0].pixelCount)
  {
    hide LoadOutputs, AnalogOf, TotalLength, SegmentsFromStrips, HighestId, MappingLoads;
    SegmentsUnfold(c);
    var nodeId := NodesOf(c)[0].nodeId;
    SegmentsTile(c.strips, nodeId, i);
    if i == 0 {
      assert c.strips[..0] == [];
      NoStripsNoLength();
    } else {
      SegmentsTile(c.strips, nodeId, i - 1);
      assert c.strips[..i - 1 + 1] == c.strips[..i];
    }
    assert c.strips[..|c.strips|] == c.strips;
  }

  // --- the segments that stand in for authored ones ----------------------------------------------

  lemma {:induction false} SegmentsTile(strips: seq<Strip>, nodeId: int, i: nat)
    requires i < |strips|
    ensures var s, seg := strips[i], SegmentsFromStrips(strips, nodeId)[i];
      && seg == Segment(s.id, s.id, nodeId, TotalLength(strips[..i]), s.pixelCount, s.direction, s.videoZone)
      && TotalLength(strips[..i + 1]) == seg.offset + seg.pixelCount
    decreases |strips|
  {
    var init := strips[..|strips| - 1];
    assert strips[..i + 1][..i] == strips[..i];
    if i < |init| {
      SegmentsTile(init, nodeId, i);
      assert init[..i] == strips[..i];
    } else {
      assert strips[..i] == init;
    }
  }

  lemma {:induction false} TotalGrows(strips: seq<Strip>, i: nat, j: nat)
    requires i <= j <= |strips| && forall k :: 0 <= k < |strips| ==> strips[k].pixelCount >= 1
    ensures 0 <= TotalLength(strips[..i]) <= TotalLength(strips[..j]) <= TotalLength(strips)
    decreases |strips| - i, |strips| - j
  {
    if i < j {
      assert strips[..i + 1][..i] == strips[..i];
      TotalGrows(strips, i + 1, j);
      TotalIsNatural(strips[..i]);
    } else if j < |strips| {
      TotalGrows(strips, j, j + 1);
    } else {
      assert strips[..j] == strips;
      TotalIsNatural(strips);
    }
  }

  lemma {:induction false} TotalIsNatural(strips: seq<Strip>)
    requires forall k :: 0 <= k < |strips| ==> strips[k].pixelCount >= 1
    ensures TotalLength(strips) >= 0
  {
    if strips != [] {
      TotalIsNatural(strips[..|strips| - 1]);
    }
  }

  /** The segments that stand in for authored ones pass every segment rule if and only if all strips together fit their
      node. */
  lemma DefaultSegmentsFitIff(strips: seq<Strip>, nodeId: int, nodes: map<int, int>)
    requires nodeId >= 1 && nodeId in nodes && nodes[nodeId] >= 0
    requires Distinct(StripIds(strips)) && forall i :: 0 <= i < |strips| ==> StripLoads(strips[i])
    ensures SegmentsOk(SegmentsFromStrips(strips, nodeId), Lengths(strips), nodes)
       <==> TotalLength(strips) <= nodes[nodeId]
  {
    hide Distinct, Lengths, TotalLength, SegmentsFromStrips, AllApart;
    var segments := SegmentsFromStrips(strips, nodeId);
    if TotalLength(strips) <= nodes[nodeId] {
      forall i | 0 <= i < |segments|
        ensures SegmentFits(segments[i], Lengths(strips), nodes)
      {
        DefaultSegmentFits(strips, nodeId, nodes, i);
      }
      DefaultSegmentsApart(strips, nodeId);
    } else if strips != [] {
      SegmentsTile(strips, nodeId, |strips| - 1);
      assert strips[..|strips|] == strips;
      assert !SegmentFits(segments[|strips| - 1], Lengths(strips), nodes);
    } else {
      assert TotalLength(strips) == 0 by { NoStripsNoLength(); }
    }
  }

  lemma NoStripsNoLength()
    ensures TotalLength([]) == 0
  {
  }

  lemma DefaultSegmentFits(strips: seq<Strip>, nodeId: int, nodes: map<int, int>, i: nat)
    requires nodeId >= 1 && nodeId in nodes && TotalLength(strips) <= nodes[nodeId] && i < |strips|
    requires Distinct(StripIds(strips)) && forall i :: 0 <= i < |strips| ==> StripLoads(strips[i])
    ensures SegmentFits(SegmentsFromStrips(strips, nodeId)[i], Lengths(strips), nodes)
  {
    hide Distinct, Lengths, TotalLength, SegmentsFromStrips;
    LengthsByIndex(strips);
    SegmentsTile(strips, nodeId, i);
    TotalGrows(strips, i + 1, |strips|);
    TotalGrows(strips, i, i + 1);
    assert Lengths(strips)[strips[i].id] == strips[i].pixelCount;
  }

  lemma DefaultSegmentsApart(strips: seq<Strip>, nodeId: int)
    requires Distinct(StripIds(strips)) && forall i :: 0 <= i < |strips| ==> StripLoads(strips[i])
    ensures var segments := SegmentsFromStrips(strips, nodeId);
      AllApart(Targets(segments)) && Distinct(SegmentIds(segments))
  {
    hide Distinct, TotalLength, SegmentsFromStrips;
    var segments := SegmentsFromStrips(strips, nodeId);
    forall i, j | 0 <= i < j < |segments|
      ensures Apart(Targets(segments)[i], Targets(segments)[j])
    {
      SegmentsTile(strips, nodeId, i);
      SegmentsTile(strips, nodeId, j);
      TotalGrows(strips, i + 1, j);
    }
    forall i | 0 <= i < |segments|
      ensures segments[i].segmentId == strips[i].id
    {
      SegmentsTile(strips, nodeId, i);
    }
    assert SegmentIds(segments) == StripIds(strips);
  }
}
