/** The authored topology of a room, and what makes one acceptable. */
module Topology {
  import opened Util
  import opened Lists
  import opened PixelSets
  import VP = VirtualPaths

  const GPIO4: string := "one_output_gpio4"
  const WLED: string := "one_output_wled"
  const DIAGNOSTIC: string := "multi_output_diagnostic"
  const VIDEO_ZONES: set<string> := {"left", "center", "right", "top", "bottom", "average", "dominant"}

  /** `videoZone` and `direction` have their defaults filled in, here and below. */
  datatype Zone = Zone(id: string, videoZone: string, direction: string)

  datatype Strip = Strip(id: string, pixelCount: int, videoZone: string, direction: string)

  /** One entry of a per-zone bias table. */
  datatype ZoneBias = ZoneBias(zoneId: string, bias: Float)

  /** Where a room without authored digital nodes is sent. */
  datatype UdpDefaults = UdpDefaults(host: string, port: int, maxPacketSize: int)

  datatype AnalogNode = AnalogNode(nodeId: int, zoneId: string, fadeMs: int, channelOrder: string, videoZone: string)

  datatype RawDigitalNode = RawDigitalNode(
    nodeId: int, host: string, port: int, enabled: bool, pixelCount: Option<int>, protocolVersion: Option<int>,
    maxUdpPayload: Option<int>)

  datatype Segment = Segment(
    segmentId: string, stripId: string, nodeId: int, offset: int, pixelCount: int, direction: string, videoZone: string)

  datatype RawOutput = RawOutput(
    nodeId: int, outputId: int, gpio: int, stripId: string, pixelCount: Option<int>, direction: string)

  /** The part of a configuration that the topology rules read. `backends` are the enabled output backends. */
  datatype Config = Config(
    topologyVersion: int, policy: Option<string>, production: bool, backends: set<string>, scheduled: bool,
    zones: seq<Zone>, strips: seq<Strip>, analogNodes: seq<AnalogNode>, digitalNodes: seq<RawDigitalNode>,
    segments: seq<Segment>, outputs: seq<RawOutput>, warmBias: seq<ZoneBias>, coolBias: seq<ZoneBias>, udp: UdpDefaults,
    virtualPaths: seq<VP.RawPath>)
  {
    predicate IsV3() { topologyVersion == 3 }

    function VersionOf(n: RawDigitalNode): int {
      if n.protocolVersion.Some? then n.protocolVersion.value else if IsV3() then 3 else 2
    }

    function PayloadOf(n: RawDigitalNode): int {
      if n.maxUdpPayload.Some? then n.maxUdpPayload.value else 4096
    }

    /** One output for each node is the rule. */
    predicate OneOutputEach() { policy == Some(GPIO4) || policy == Some(WLED) }
  }

  /** The host syntax check; it never accepts the empty string. */
  type HostRule = h: string -> bool | !h("") witness (s: string) => false

  // --- lookups -----------------------------------------------------------------------------------

  function ZoneIds(zones: seq<Zone>): (r: seq<string>)
    ensures |r| == |zones|
  {
    seq(|zones|, i requires 0 <= i < |zones| => zones[i].id)
  }

  function StripIds(strips: seq<Strip>): seq<string> { seq(|strips|, i requires 0 <= i < |strips| => strips[i].id) }

  /** `{strip.id: strip.pixel_count}`: a later strip of the same name wins. */
  function Lengths(strips: seq<Strip>): map<string, int> {
    if strips == [] then map[]
    else Lengths(strips[..|strips| - 1])[strips[|strips| - 1].id := strips[|strips| - 1].pixelCount]
  }

  lemma {:induction false} LengthsByIndex(strips: seq<Strip>)
    ensures forall id :: id in Lengths(strips) <==> exists i :: 0 <= i < |strips| && strips[i].id == id
    ensures Distinct(StripIds(strips)) ==>
      forall i :: 0 <= i < |strips| ==> Lengths(strips)[strips[i].id] == strips[i].pixelCount
  {
    if strips != [] {
      var init, last := strips[..|strips| - 1], strips[|strips| - 1];
      LengthsByIndex(init);
      forall id
        ensures id in Lengths(strips) <==> exists i :: 0 <= i < |strips| && strips[i].id == id
      {
        if id in Lengths(init) {
          var i :| 0 <= i < |init| && init[i].id == id;
          assert strips[i].id == id;
        }
        if i :| 0 <= i < |strips| && strips[i].id == id {
          assert i < |init| ==> init[i].id == id;
        }
      }
      if Distinct(StripIds(strips)) {
        assert StripIds(init) == StripIds(strips)[..|init|];
        forall i | 0 <= i < |strips|
          ensures Lengths(strips)[strips[i].id] == strips[i].pixelCount
        {
          if i < |init| {
            assert StripIds(strips)[i] != StripIds(strips)[|init|];
            assert Lengths(init)[init[i].id] == init[i].pixelCount;
          }
        }
      }
    }
  }

  /** The outputs of one node, in authored order. */
  function OutputsOf(outputs: seq<RawOutput>, nodeId: int): seq<RawOutput> {
    if outputs == [] then []
    else
      var before, last := OutputsOf(outputs[..|outputs| - 1], nodeId), outputs[|outputs| - 1];
      if last.nodeId == nodeId then before + [last] else before
  }

  /** Pixels that a list of outputs needs. */
  function TotalPixels(outputs: seq<RawOutput>, lengths: map<string, int>): int {
    if outputs == [] then 0
    else
      var last := outputs[|outputs| - 1];
      TotalPixels(outputs[..|outputs| - 1], lengths) + (if last.stripId in lengths then lengths[last.stripId] else 0)
  }

  function OutputIds(outputs: seq<RawOutput>): seq<int> {
    seq(|outputs|, i requires 0 <= i < |outputs| => outputs[i].outputId)
  }

  function Gpios(outputs: seq<RawOutput>): seq<int> { seq(|outputs|, i requires 0 <= i < |outputs| => outputs[i].gpio) }

  function OutputStrips(outputs: seq<RawOutput>): seq<string> {
    seq(|outputs|, i requires 0 <= i < |outputs| => outputs[i].stripId)
  }

  function NodeIds(nodes: seq<RawDigitalNode>): seq<int> {
    seq(|nodes|, i requires 0 <= i < |nodes| => nodes[i].nodeId)
  }

  // --- the rules, stated without order -----------------------------------------------------------

  predicate PolicyOk(c: Config) {
    && (c.topologyVersion == 2 || c.topologyVersion == 3)
    && (c.policy.Some? ==> c.policy.value in {DIAGNOSTIC, GPIO4, WLED} && c.IsV3())
    && (c.IsV3() && c.production ==>
          && c.policy.Some?
          && ("ddp" in c.backends || "udp_v3" in c.backends)
          && !("udp_v3" in c.backends && c.policy == Some(GPIO4) && !c.scheduled))
  }

  predicate NamesOk(c: Config) {
    && "" !in ZoneIds(c.zones) && Distinct(ZoneIds(c.zones))
    && (forall i :: 0 <= i < |c.strips| ==> c.strips[i].id != "" && c.strips[i].pixelCount >= 1)
    && Distinct(StripIds(c.strips))
  }

  /** A bias belongs to an authored zone, and is finite and not negative. */
  predicate BiasesOk(biases: seq<ZoneBias>, zoneIds: seq<string>) {
    forall b <- biases :: b.zoneId != "" && b.zoneId in zoneIds && b.bias.Legal()
  }

  predicate AnalogOk(c: Config) {
    && (|c.analogNodes| == (if c.IsV3() then 1 else 6)
        || ("rs485_v2" !in c.backends && c.analogNodes == [] && c.zones == []))
    && (forall i :: 0 <= i < |c.analogNodes| ==>
          var n := c.analogNodes[i];
          n.nodeId >= 1 && n.zoneId != "" && n.zoneId in ZoneIds(c.zones) && n.fadeMs >= 0 && n.channelOrder != "")
    && (forall i, j :: 0 <= i < j < |c.analogNodes| ==> c.analogNodes[i].nodeId != c.analogNodes[j].nodeId)
  }

  predicate DigitalNodeOk(c: Config, n: RawDigitalNode, hostOk: HostRule) {
    && n.nodeId >= 1 && hostOk(n.host) && 1 <= n.port <= 65535
    && (if c.IsV3() then n.pixelCount.Some? ==> n.pixelCount.value >= 1
        else n.pixelCount.Some? && n.pixelCount.value >= 1)
    && (c.VersionOf(n) == 2 || c.VersionOf(n) == 3)
    && ("udp_v3" in c.backends ==> n.maxUdpPayload.Some? && 46 <= n.maxUdpPayload.value <= 65507)
    && c.PayloadOf(n) >= 1
    && (c.VersionOf(n) == 2 && n.pixelCount.Some? ==> n.pixelCount.value * 3 <= c.PayloadOf(n))
  }

  predicate DigitalOk(c: Config, hostOk: HostRule) {
    && (forall i :: 0 <= i < |c.digitalNodes| ==>
          && DigitalNodeOk(c, c.digitalNodes[i], hostOk)
          && forall j :: 0 <= j < |c.analogNodes| ==> c.analogNodes[j].nodeId != c.digitalNodes[i].nodeId)
    && (forall i, j :: 0 <= i < j < |c.digitalNodes| ==>
          && c.digitalNodes[i].nodeId != c.digitalNodes[j].nodeId
          && (c.digitalNodes[i].host, c.digitalNodes[i].port) != (c.digitalNodes[j].host, c.digitalNodes[j].port))
  }

  /** `digital_node_lengths`: 0 stands for a length not authored. */
  function NodeLengths(nodes: seq<RawDigitalNode>): map<int, int> {
    if nodes == [] then map[]
    else
      var last := nodes[|nodes| - 1];
      NodeLengths(nodes[..|nodes| - 1])[last.nodeId := if last.pixelCount.Some? then last.pixelCount.value else 0]
  }

  /** The interval of a node's pixels that a segment writes. */
  function TargetOf(s: Segment): Range<int> { Range(s.nodeId, s.offset, s.offset + s.pixelCount) }

  function Targets(segments: seq<Segment>): (r: seq<Range<int>>)
    ensures |r| == |segments|
  {
    seq(|segments|, i requires 0 <= i < |segments| => TargetOf(segments[i]))
  }

  function SegmentIds(segments: seq<Segment>): seq<string> {
    seq(|segments|, i requires 0 <= i < |segments| => segments[i].segmentId)
  }

  predicate SegmentFits(s: Segment, strips: map<string, int>, nodes: map<int, int>) {
    && s.segmentId != "" && s.stripId != "" && s.stripId in strips
    && s.nodeId >= 1 && s.nodeId in nodes
    && s.offset >= 0 && s.pixelCount >= 1 && IsDirection(s.direction)
    && s.pixelCount <= strips[s.stripId]
    && s.offset + s.pixelCount <= nodes[s.nodeId]
  }

  /** Segments that fit their strips and nodes, with names of their own and no node pixel in common. */
  predicate SegmentsOk(segments: seq<Segment>, strips: map<string, int>, nodes: map<int, int>) {
    && (forall i :: 0 <= i < |segments| ==> SegmentFits(segments[i], strips, nodes))
    && Distinct(SegmentIds(segments))
    && AllApart(Targets(segments))
  }

  /** An output names an existing node and strip, and states nothing that contradicts them. */
  predicate OutputOk(c: Config, o: RawOutput) {
    && o.nodeId >= 1 && o.outputId >= 1 && o.gpio >= 0
    && (c.OneOutputEach() ==> o.outputId == 1)
    && (c.policy == Some(GPIO4) ==> o.gpio == 4)
    && o.stripId != "" && IsDirection(o.direction)
    && o.nodeId in NodeIds(c.digitalNodes)
    && o.stripId in Lengths(c.strips)
    && (o.pixelCount.Some? ==> o.pixelCount.value >= 1 && o.pixelCount.value == Lengths(c.strips)[o.stripId])
  }

  /** What the outputs of one node must satisfy together. */
  predicate NodeOutputsOk(c: Config, n: RawDigitalNode) {
    var mine := OutputsOf(c.outputs, n.nodeId);
    && 1 <= |mine| <= 3
    && (c.OneOutputEach() ==> |mine| == 1)
    && Distinct(OutputIds(mine)) && Distinct(Gpios(mine))
    && (n.pixelCount.Some? ==> n.pixelCount.value == TotalPixels(mine, Lengths(c.strips)))
  }

  predicate V3Ok(c: Config) {
    && (forall i :: 0 <= i < |c.digitalNodes| ==> c.VersionOf(c.digitalNodes[i]) == 3)
    && c.segments == [] && c.outputs != []
    && (forall i :: 0 <= i < |c.outputs| ==> OutputOk(c, c.outputs[i]))
    && Distinct(OutputStrips(c.outputs))
    && Elements(OutputStrips(c.outputs)) == Elements(StripIds(c.strips))
    && (forall i :: 0 <= i < |c.digitalNodes| ==> NodeOutputsOk(c, c.digitalNodes[i]))
  }

  /** The topologies that the first validator accepts. */
  predicate Accepted(c: Config, hostOk: HostRule) {
    && PolicyOk(c) && NamesOk(c)
    && BiasesOk(c.warmBias, ZoneIds(c.zones)) && BiasesOk(c.coolBias, ZoneIds(c.zones))
    && AnalogOk(c) && DigitalOk(c, hostOk)
    && SegmentsOk(c.segments, Lengths(c.strips), NodeLengths(c.digitalNodes))
    && (c.IsV3() ==> V3Ok(c))
    && VP.ValidPaths(c.virtualPaths, Lengths(c.strips))
  }
}
