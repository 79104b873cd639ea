/** From a logical frame to the pixels of every node: segments painted into a node's buffer, or independent outputs. */
module FrameMapping {
  import opened Util
  import opened Rgb
  import opened PixelSets
  import opened Lists
  import opened Topology
  import opened Layouts
  import opened PhysicalMapping
  import opened Sorting
  import opened Colour

  datatype LogicalStrip = LogicalStrip(id: string, pixels: Pixels)

  type Frame = seq<LogicalStrip>

  datatype ZoneOutput = ZoneOutput(zoneId: string, colour: Rgbcct)

  /** What an effect drew. The metadata is handed on unread. */
  datatype LogicalFrame<M> = LogicalFrame(
    sequence: int, timestamp: real, strips: Frame, zones: seq<ZoneOutput>, metadata: M)

  datatype AnalogCommand = AnalogCommand(nodeId: int, zoneId: string, colour: Rgbcct, fadeMs: int, channelOrder: string)

  datatype OutputFrame = OutputFrame(outputId: int, gpio: int, stripId: string, pixels: Pixels)

  datatype NodeFrame = NodeFrame(
    nodeId: int, host: string, port: int, enabled: bool, pixels: Pixels, outputs: seq<OutputFrame>, maxUdpPayload: int)

  datatype MappedFrame<M> = MappedFrame(
    sequence: int, timestamp: real, commands: seq<AnalogCommand>, nodes: seq<NodeFrame>, metadata: M)

  // --- sources -----------------------------------------------------------------------------------

  /** The pixels drawn for a strip, none if the frame lacks it; a later strip of the same name wins. */
  function Drawn(frame: Frame, id: string): Pixels {
    if frame == [] then []
    else if frame[|frame| - 1].id == id then frame[|frame| - 1].pixels
    else Drawn(frame[..|frame| - 1], id)
  }

  /** Trimmed or padded with black to `n` pixels. */
  function Fit(p: Pixels, n: nat): (r: Pixels)
    ensures |r| == n
  {
    var kept := p[..Min(n, |p|)];
    kept + Copies(BLACK, n - |kept|)
  }

  function Oriented(p: Pixels, direction: string): (r: Pixels)
    ensures |r| == |p|
  {
    if direction == REVERSE then Reversed(p) else p
  }

  function Source(frame: Frame, id: string, n: nat, direction: string): (r: Pixels)
    ensures |r| == n
  {
    Oriented(Fit(Drawn(frame, id), n), direction)
  }

  /** Pixel k of a source is pixel k of the strip, or its mirror, black beyond what was drawn. */
  lemma SourceByIndex(frame: Frame, id: string, n: nat, direction: string, k: nat)
    requires k < n
    ensures var from := if direction == REVERSE then n - 1 - k else k;
      Source(frame, id, n, direction)[k] == if from < |Drawn(frame, id)| then Drawn(frame, id)[from] else BLACK
  {
  }

  // --- legacy nodes: segments painted into one buffer --------------------------------------------

  predicate FitsNode(segments: seq<Segment>, nodeId: int, count: nat) {
    forall i :: 0 <= i < |segments| && segments[i].nodeId == nodeId ==>
      0 <= segments[i].offset && 1 <= segments[i].pixelCount && segments[i].offset + segments[i].pixelCount <= count
  }

  function Overwrite(dest: Pixels, offset: nat, source: Pixels): (r: Pixels)
    requires offset + |source| <= |dest|
    ensures |r| == |dest|
  {
    dest[..offset] + source + dest[offset + |source|..]
  }

  /** The buffer of one node after its segments were written in list order. */
  function Painted(segments: seq<Segment>, frame: Frame, nodeId: int, count: nat): (r: Pixels)
    requires FitsNode(segments, nodeId, count)
    ensures |r| == count
  {
    if segments == [] then Copies(BLACK, count)
    else
      var before, s := Painted(segments[..|segments| - 1], frame, nodeId, count), segments[|segments| - 1];
      if s.nodeId == nodeId then Overwrite(before, s.offset, Source(frame, s.stripId, s.pixelCount, s.direction))
      else before
  }

  predicate Covers(s: Segment, nodeId: int, x: int) { s.nodeId == nodeId && s.offset <= x < s.offset + s.pixelCount }

  /** Every covered pixel shows its own segment's source at its own place, and every uncovered pixel is black. */
  lemma {:induction false} PaintedByPixel(segments: seq<Segment>, frame: Frame, nodeId: int, count: nat, x: nat)
    requires FitsNode(segments, nodeId, count) && AllApart(Targets(segments)) && x < count
    ensures forall i :: 0 <= i < |segments| && Covers(segments[i], nodeId, x) ==>
      var s := segments[i];
      Painted(segments, frame, nodeId, count)[x] == Source(frame, s.stripId, s.pixelCount, s.direction)[x - s.offset]
    ensures (forall i :: 0 <= i < |segments| ==> !Covers(segments[i], nodeId, x)) ==>
      Painted(segments, frame, nodeId, count)[x] == BLACK
  {
    hide Source;
    if segments != [] {
      var init, last := segments[..|segments| - 1], segments[|segments| - 1];
      assert Targets(init) == Targets(segments)[..|init|];
      PaintedByPixel(init, frame, nodeId, count, x);
      forall i | 0 <= i < |init| && Covers(init[i], nodeId, x)
        ensures !Covers(last, nodeId, x)
      {
        assert Apart(Targets(segments)[i], Targets(segments)[|init|]);
      }
    }
  }

  /** The order of the segment list does not matter. */
  lemma OrderDoesNotMatter(a: seq<Segment>, b: seq<Segment>, frame: Frame, nodeId: int, count: nat)
    requires FitsNode(a, nodeId, count) && AllApart(Targets(a)) && AllApart(Targets(b))
    requires multiset(a) == multiset(b)
    ensures FitsNode(b, nodeId, count)
    ensures Painted(a, frame, nodeId, count) == Painted(b, frame, nodeId, count)
  {
    hide Source, Painted, AllApart;
    assert forall s :: s in a <==> s in multiset(a);
    assert forall s :: s in b <==> s in multiset(b);
    assert FitsNode(b, nodeId, count) by {
      forall i | 0 <= i < |b| && b[i].nodeId == nodeId
        ensures 0 <= b[i].offset && 1 <= b[i].pixelCount && b[i].offset + b[i].pixelCount <= count
      {
        assert b[i] in a;
      }
    }
    forall x | 0 <= x < count
      ensures Painted(a, frame, nodeId, count)[x] == Painted(b, frame, nodeId, count)[x]
    {
      PaintedByPixel(a, frame, nodeId, count, x);
      PaintedByPixel(b, frame, nodeId, count, x);
      if i :| 0 <= i < |a| && Covers(a[i], nodeId, x) {
        assert a[i] in b;
        var j :| 0 <= j < |b| && b[j] == a[i];
        assert Covers(b[j], nodeId, x);
      } else {
        forall j | 0 <= j < |b|
          ensures !Covers(b[j], nodeId, x)
        {
          assert b[j] in a;
        }
      }
    }
  }

  /** A validated layout gives every segment room on its node. */
  lemma ValidatedSegmentsFit(l: Layout, i: nat)
    requires PhysicalOk(l) && i < |l.digitalNodes|
    ensures l.digitalNodes[i].pixelCount >= 1
    ensures FitsNode(l.segments, l.digitalNodes[i].nodeId, l.digitalNodes[i].pixelCount)
    ensures AllApart(Targets(l.segments))
  {
    hide Lengths, AllApart, Distinct, OutputsOk, AnalogNodesOk;
    PixelCountByIndex(l.digitalNodes, i);
    forall k | 0 <= k < |l.segments|
      ensures SegmentFits(l.segments[k], Lengths(l.strips), NodePixelCounts(l.digitalNodes))
    {
    }
    assert NodeIsSound(l.digitalNodes[i]);
  }

  lemma {:induction false} PixelCountByIndex(nodes: seq<DigitalNode>, i: nat)
    requires i < |nodes| && Distinct(DigitalIds(nodes))
    ensures nodes[i].nodeId in NodePixelCounts(nodes) && NodePixelCounts(nodes)[nodes[i].nodeId] == nodes[i].pixelCount
  {
    var last := |nodes| - 1;
    if i < last {
      assert DigitalIds(nodes)[i] != DigitalIds(nodes)[last];
      assert DigitalIds(nodes[..last]) == DigitalIds(nodes)[..last];
      PixelCountByIndex(nodes[..last], i);
    }
  }

  /** The pixels drawn for a strip are those of the last entry of its name. */
  lemma {:induction false} DrawnIsLast(frame: Frame, id: string, j: nat)
    requires j < |frame| && frame[j].id == id && forall k :: j < k < |frame| ==> frame[k].id != id
    ensures Drawn(frame, id) == frame[j].pixels
  {
    if j < |frame| - 1 {
      assert frame[|frame| - 1].id != id;
      DrawnIsLast(frame[..|frame| - 1], id, j);
    }
  }

  /** A strip without an entry has none. */
  lemma {:induction false} NothingDrawn(frame: Frame, id: string)
    requires forall j :: 0 <= j < |frame| ==> frame[j].id != id
    ensures Drawn(frame, id) == []
  {
    if frame != [] {
      NothingDrawn(frame[..|frame| - 1], id);
    }
  }

  // --- independent outputs -----------------------------------------------------------------------

  function OutputOf(o: Output, frame: Frame): OutputFrame {
    OutputFrame(o.outputId, o.gpio, o.stripId, Source(frame, o.stripId, Max(0, o.pixelCount), o.direction))
  }

  function OutputsOfAll(outputs: seq<Output>, frame: Frame): (r: seq<OutputFrame>)
    ensures |r| == |outputs|
  {
    seq(|outputs|, i requires 0 <= i < |outputs| => OutputOf(outputs[i], frame))
  }

  /** An output's frame: its own number, pin and strip, as long as the output; pixel k is the strip's, or its mirror,
      black beyond what was drawn. */
  lemma OutputIs(o: Output, frame: Frame, k: nat)
    requires k < o.pixelCount
    ensures var f, from := OutputOf(o, frame), if o.direction == REVERSE then o.pixelCount - 1 - k else k;
      && f.outputId == o.outputId && f.gpio == o.gpio && f.stripId == o.stripId && |f.pixels| == o.pixelCount
      && f.pixels[k] == if from < |Drawn(frame, o.stripId)| then Drawn(frame, o.stripId)[from] else BLACK
  {
    SourceByIndex(frame, o.stripId, o.pixelCount, o.direction, k);
  }

  const BY_OUTPUT: OutputFrame -> int := (o: OutputFrame) => o.outputId
  const BY_NODE: DigitalNode -> int := (n: DigitalNode) => n.nodeId

  /** What one node is sent. */
  function FrameOf(l: Layout, frame: Frame, n: DigitalNode): NodeFrame
    requires n.pixelCount >= 0 && FitsNode(l.segments, n.nodeId, n.pixelCount)
  {
    NodeFrame(
      n.nodeId, n.host, n.port, n.enabled,
      if n.protocolVersion == 3 then [] else Painted(l.segments, frame, n.nodeId, n.pixelCount),
      SortBy(OutputsOfAll(At(l.outputs, n.nodeId), frame), BY_OUTPUT), n.maxUdpPayload)
  }

  type Buffers = map<int, Pixels>

  /** The dictionary holds every node's buffer after some of the segments. */
  predicate Holds(buffers: Buffers, l: Layout, frame: Frame, segments: seq<Segment>)
  {
    forall i :: 0 <= i < |l.digitalNodes| ==>
      var n := l.digitalNodes[i];
      && n.pixelCount >= 0 && FitsNode(segments, n.nodeId, n.pixelCount)
      && n.nodeId in buffers && buffers[n.nodeId] == Painted(segments, frame, n.nodeId, n.pixelCount)
  }

  method StartBuffers(l: Layout, frame: Frame) returns (buffers: Buffers)
    requires PhysicalOk(l)
    ensures Holds(buffers, l, frame, [])
  {
    hide PhysicalOk, Painted;
    buffers := map[];
    BlackBuffers(frame);
    assert Distinct(DigitalIds(l.digitalNodes)) by { NodesAreSound(l); }
    assert forall i :: 0 <= i < |l.digitalNodes| ==> l.digitalNodes[i].pixelCount >= 1 by { NodesAreSound(l); }
    for i := 0 to |l.digitalNodes|
      invariant forall j :: 0 <= j < i ==>
        var n := l.digitalNodes[j]; n.nodeId in buffers && buffers[n.nodeId] == Copies(BLACK, n.pixelCount)
    {
      var n := l.digitalNodes[i];
      forall j | 0 <= j < i
        ensures l.digitalNodes[j].nodeId != n.nodeId
      {
        assert DigitalIds(l.digitalNodes)[j] != DigitalIds(l.digitalNodes)[i];
      }
      buffers := buffers[n.nodeId := Copies(BLACK, n.pixelCount)];
    }
  }

  lemma NodesAreSound(l: Layout)
    requires PhysicalOk(l)
    ensures Distinct(DigitalIds(l.digitalNodes))
    ensures forall i :: 0 <= i < |l.digitalNodes| ==> l.digitalNodes[i].pixelCount >= 1
  {
    forall i | 0 <= i < |l.digitalNodes|
      ensures l.digitalNodes[i].pixelCount >= 1
    {
      assert NodeIsSound(l.digitalNodes[i]);
    }
  }

  lemma BlackBuffers(frame: Frame)
    ensures forall nodeId, count: nat :: Painted([], frame, nodeId, count) == Copies(BLACK, count)
  {
  }

  lemma PaintNext(segments: seq<Segment>, k: nat, frame: Frame, nodeId: int, count: nat)
    requires k < |segments| && FitsNode(segments, nodeId, count)
    ensures FitsNode(segments[..k], nodeId, count) && FitsNode(segments[..k + 1], nodeId, count)
    ensures var before, s := Painted(segments[..k], frame, nodeId, count), segments[k];
      Painted(segments[..k + 1], frame, nodeId, count)
      == if s.nodeId == nodeId then Overwrite(before, s.offset, Source(frame, s.stripId, s.pixelCount, s.direction))
         else before
  {
    hide Source, Overwrite;
    assert segments[..k + 1][..k] == segments[..k];
  }

  /** The segment loop: each segment overwrites its slice of its node's list. */
  method PaintSegments(l: Layout, frame: Frame) returns (buffers: Buffers)
    requires PhysicalOk(l)
    ensures Holds(buffers, l, frame, l.segments)
  {
    hide PhysicalOk, Painted, Source, Overwrite;
    buffers := StartBuffers(l, frame);
    assert forall i :: 0 <= i < |l.digitalNodes| ==>
      var n := l.digitalNodes[i]; n.pixelCount >= 1 && FitsNode(l.segments, n.nodeId, n.pixelCount) by {
      forall i | 0 <= i < |l.digitalNodes| {
        ValidatedSegmentsFit(l, i);
      }
    }
    for k := 0 to |l.segments|
      invariant Holds(buffers, l, frame, l.segments[..k])
    {
      var s := l.segments[k];
      var owner := SegmentOwner(l, k);
      assert buffers[s.nodeId] == Painted(l.segments[..k], frame, s.nodeId, l.digitalNodes[owner].pixelCount);
      PaintAll(l, frame, k);
      var source := Source(frame, s.stripId, s.pixelCount, s.direction);
      buffers := buffers[s.nodeId := Overwrite(buffers[s.nodeId], s.offset, source)];
    }
    assert l.segments[..|l.segments|] == l.segments;
  }

  lemma PaintAll(l: Layout, frame: Frame, k: nat)
    requires k < |l.segments|
    requires forall i :: 0 <= i < |l.digitalNodes| ==>
      l.digitalNodes[i].pixelCount >= 1 && FitsNode(l.segments, l.digitalNodes[i].nodeId, l.digitalNodes[i].pixelCount)
    ensures forall i :: 0 <= i < |l.digitalNodes| ==>
      var n, s := l.digitalNodes[i], l.segments[k];
      && FitsNode(l.segments[..k], n.nodeId, n.pixelCount) && FitsNode(l.segments[..k + 1], n.nodeId, n.pixelCount)
      && var before := Painted(l.segments[..k], frame, n.nodeId, n.pixelCount);
         Painted(l.segments[..k + 1], frame, n.nodeId, n.pixelCount)
         == if s.nodeId != n.nodeId then before
            else Overwrite(before, s.offset, Source(frame, s.stripId, s.pixelCount, s.direction))
  {
    hide Painted, Source, Overwrite;
    forall i | 0 <= i < |l.digitalNodes| {
      PaintNext(l.segments, k, frame, l.digitalNodes[i].nodeId, l.digitalNodes[i].pixelCount);
    }
  }

  lemma SegmentOwner(l: Layout, k: nat) returns (i: nat)
    requires PhysicalOk(l) && k < |l.segments|
    ensures i < |l.digitalNodes| && l.digitalNodes[i].nodeId == l.segments[k].nodeId
    ensures l.segments[k].offset >= 0 && l.segments[k].pixelCount >= 1
  {
    assert SegmentFits(l.segments[k], Lengths(l.strips), NodePixelCounts(l.digitalNodes));
    i := OwnerOf(l.digitalNodes, l.segments[k].nodeId);
  }

  lemma {:induction false} OwnerOf(nodes: seq<DigitalNode>, nodeId: int) returns (i: nat)
    requires nodeId in NodePixelCounts(nodes)
    ensures i < |nodes| && nodes[i].nodeId == nodeId
  {
    i := |nodes| - 1;
    if nodes[i].nodeId != nodeId {
      i := OwnerOf(nodes[..i], nodeId);
    }
  }

  type Grouped = map<int, seq<OutputFrame>>

  function GroupAt(grouped: Grouped, nodeId: int): seq<OutputFrame> {
    if nodeId in grouped then grouped[nodeId] else []
  }

  /** The output loop: one separate pixel list for each output, grouped by node. */
  method GroupOutputs(l: Layout, frame: Frame) returns (grouped: Grouped)
    ensures forall id :: GroupAt(grouped, id) == OutputsOfAll(At(l.outputs, id), frame)
  {
    hide OutputOf;
    grouped := map[];
    for k := 0 to |l.outputs|
      invariant forall id :: GroupAt(grouped, id) == OutputsOfAll(At(l.outputs[..k], id), frame)
    {
      var o := l.outputs[k];
      assert l.outputs[..k + 1][..k] == l.outputs[..k];
      grouped := grouped[o.nodeId := GroupAt(grouped, o.nodeId) + [OutputOf(o, frame)]];
    }
    assert l.outputs[..|l.outputs|] == l.outputs;
  }

  // --- the whole frame ---------------------------------------------------------------------------

  /** The colour drawn for a zone, dark if the frame lacks it; a later zone of the same name wins. */
  function ZoneColour(zones: seq<ZoneOutput>, id: string): Rgbcct {
    if zones == [] then DARK
    else if zones[|zones| - 1].zoneId == id then zones[|zones| - 1].colour
    else ZoneColour(zones[..|zones| - 1], id)
  }

  function CommandOf(n: AnalogNode, zones: seq<ZoneOutput>): AnalogCommand {
    AnalogCommand(n.nodeId, n.zoneId, ZoneColour(zones, n.zoneId), n.fadeMs, n.channelOrder)
  }

  const BY_ANALOG_NODE: AnalogNode -> int := (n: AnalogNode) => n.nodeId

  /** One command for each analog node, in ascending order of node number. */
  function Commands(l: Layout, zones: seq<ZoneOutput>): (r: seq<AnalogCommand>)
    ensures |r| == |SortBy(l.analogNodes, BY_ANALOG_NODE)|
  {
    var nodes := SortBy(l.analogNodes, BY_ANALOG_NODE);
    seq(|nodes|, i requires 0 <= i < |nodes| => CommandOf(nodes[i], zones))
  }

  /** The frames of all nodes, in ascending order of node number. */
  predicate IsMapped(l: Layout, frame: Frame, nodes: seq<NodeFrame>) {
    && |nodes| == |SortBy(l.digitalNodes, BY_NODE)| == |l.digitalNodes|
    && forall i :: 0 <= i < |nodes| ==>
         var n := SortBy(l.digitalNodes, BY_NODE)[i];
         && n in l.digitalNodes && n.pixelCount >= 0 && FitsNode(l.segments, n.nodeId, n.pixelCount)
         && nodes[i] == FrameOf(l, frame, n)
  }

  method Map<M>(l: Layout, logical: LogicalFrame<M>) returns (m: MappedFrame<M>)
    requires PhysicalOk(l)
    ensures m == MappedFrame(logical.sequence, logical.timestamp, Commands(l, logical.zones), m.nodes, logical.metadata)
    ensures IsMapped(l, logical.strips, m.nodes)
  {
    var commands := MapAnalog(l, logical.zones);
    var nodes := MapDigital(l, logical.strips);
    return MappedFrame(logical.sequence, logical.timestamp, commands, nodes, logical.metadata);
  }

  method MapAnalog(l: Layout, zones: seq<ZoneOutput>) returns (commands: seq<AnalogCommand>)
    ensures commands == Commands(l, zones)
  {
    var nodes := SortBy(l.analogNodes, BY_ANALOG_NODE);
    commands := [];
    for i := 0 to |nodes|
      invariant commands == Commands(l, zones)[..i]
    {
      commands := commands + [CommandOf(nodes[i], zones)];
    }
  }

  method MapDigital(l: Layout, frame: Frame) returns (frames: seq<NodeFrame>)
    requires PhysicalOk(l)
    ensures IsMapped(l, frame, frames)
  {
    hide PhysicalOk, Painted, OutputsOfAll, At;
    var buffers := PaintSegments(l, frame);
    var grouped := GroupOutputs(l, frame);
    var nodes := SortBy(l.digitalNodes, BY_NODE);
    SortByContract(l.digitalNodes, BY_NODE);
    frames := [];
    for i := 0 to |nodes|
      invariant |frames| == i
      invariant forall j :: 0 <= j < i ==>
        var n := nodes[j];
        && n in l.digitalNodes && n.pixelCount >= 0 && FitsNode(l.segments, n.nodeId, n.pixelCount)
        && frames[j] == FrameOf(l, frame, n)
    {
      var n := nodes[i];
      assert n in multiset(nodes);
      assert n in l.digitalNodes;
      frames := frames + [NodeFrame(
        n.nodeId, n.host, n.port, n.enabled, if n.protocolVersion == 3 then [] else buffers[n.nodeId],
        SortBy(GroupAt(grouped, n.nodeId), BY_OUTPUT), n.maxUdpPayload)];
    }
  }

  /** The zone that an analog command shows: the last output of that name, and nothing of any colour if there is
      none. */
  predicate ShowsZone(zones: seq<ZoneOutput>, id: string, c: Rgbcct) {
    if exists j :: 0 <= j < |zones| && zones[j].zoneId == id then
      exists j :: 0 <= j < |zones| && zones[j].zoneId == id && zones[j].colour == c && !NamedAfter(zones, j, id)
    else c.r == 0.0 && c.g == 0.0 && c.b == 0.0 && c.warm == 0.0 && c.cool == 0.0
  }

  /** A zone output behind j has the name. */
  predicate NamedAfter(zones: seq<ZoneOutput>, j: nat, id: string) {
    exists k :: j < k < |zones| && zones[k].zoneId == id
  }

  lemma ZoneColourIs(zones: seq<ZoneOutput>, id: string)
    ensures ShowsZone(zones, id, ZoneColour(zones, id))
  {
    if exists j :: 0 <= j < |zones| && zones[j].zoneId == id {
      var j := LastNamed(zones, id);
    } else {
      NothingNamed(zones, id);
    }
  }

  lemma {:induction false} LastNamed(zones: seq<ZoneOutput>, id: string) returns (j: nat)
    requires exists j :: 0 <= j < |zones| && zones[j].zoneId == id
    ensures j < |zones| && zones[j].zoneId == id && !NamedAfter(zones, j, id)
    ensures zones[j].colour == ZoneColour(zones, id)
  {
    var init := zones[..|zones| - 1];
    if zones[|init|].zoneId == id {
      j := |init|;
    } else {
      var i :| 0 <= i < |zones| && zones[i].zoneId == id;
      assert init[i].zoneId == id;
      j := LastNamed(init, id);
      assert forall k :: j < k < |init| ==> init[k] == zones[k];
    }
  }

  lemma {:induction false} NothingNamed(zones: seq<ZoneOutput>, id: string)
    requires forall j :: 0 <= j < |zones| ==> zones[j].zoneId != id
    ensures ZoneColour(zones, id) == Rgbcct(0.0, 0.0, 0.0, 0.0, 0.0)
  {
    if zones != [] {
      NothingNamed(zones[..|zones| - 1], id);
    }
  }

  /** Every analog node of a validated layout gets exactly one command, with its own number, zone, fade and channel
      order and the colour drawn for its zone; commands come in ascending order of node number. */
  lemma OneCommandEach(l: Layout, zones: seq<ZoneOutput>, i: nat) returns (k: nat)
    requires PhysicalOk(l) && i < |l.analogNodes|
    ensures k < |Commands(l, zones)| == |l.analogNodes|
    ensures var n, command := l.analogNodes[i], Commands(l, zones)[k];
      && command.nodeId == n.nodeId && command.zoneId == n.zoneId && command.fadeMs == n.fadeMs
      && command.channelOrder == n.channelOrder && ShowsZone(zones, n.zoneId, command.colour)
    ensures var all := Commands(l, zones);
      && (forall j :: 0 <= j < |all| && all[j].nodeId == l.analogNodes[i].nodeId ==> j == k)
      && forall a, b :: 0 <= a < b < |all| ==> all[a].nodeId < all[b].nodeId
  {
    hide DigitalNodesOk, OutputsOk, SegmentsOk, SortBy, ShowsZone;
    var nodes := SortBy(l.analogNodes, BY_ANALOG_NODE);
    SortByContract(l.analogNodes, BY_ANALOG_NODE);
    DistinctKeysSortStrictly(l.analogNodes, BY_ANALOG_NODE);
    assert l.analogNodes[i] in multiset(nodes);
    k :| 0 <= k < |nodes| && nodes[k] == l.analogNodes[i];
    ZoneColourIs(zones, l.analogNodes[i].zoneId);
  }

  /** What a digital node's frame carries besides pixels and outputs is the node's own. */
  lemma MappedFields(l: Layout, frame: Frame, nodes: seq<NodeFrame>, i: nat)
    requires IsMapped(l, frame, nodes) && i < |nodes|
    ensures var n := SortBy(l.digitalNodes, BY_NODE)[i];
      && nodes[i].nodeId == n.nodeId && nodes[i].host == n.host && nodes[i].port == n.port
      && nodes[i].enabled == n.enabled && nodes[i].maxUdpPayload == n.maxUdpPayload
      && (n.protocolVersion == 3 ==> nodes[i].pixels == [])
  {
    hide SortBy;
  }

  lemma MappedAddress(l: Layout, frame: Frame, nodes: seq<NodeFrame>, i: nat)
    requires IsMapped(l, frame, nodes) && i < |nodes|
    ensures var n := SortBy(l.digitalNodes, BY_NODE)[i];
      nodes[i].host == n.host && nodes[i].port == n.port && nodes[i].nodeId == n.nodeId
  {
    hide SortBy;
  }

  /** Node numbers are not repeated in what was mapped. */
  lemma MappedNumbers(l: Layout, frame: Frame, nodes: seq<NodeFrame>)
    requires PhysicalOk(l) && IsMapped(l, frame, nodes)
    ensures forall i, j :: 0 <= i < |nodes| && 0 <= j < |nodes| && i != j ==> nodes[i].nodeId != nodes[j].nodeId
  {
    hide SortBy, OutputsOk, AnalogNodesOk, SegmentsOk, NodeIsSound, Painted;
    forall i, j | 0 <= i < j < |l.digitalNodes|
      ensures BY_NODE(l.digitalNodes[i]) != BY_NODE(l.digitalNodes[j])
    {
      assert DigitalIds(l.digitalNodes)[i] != DigitalIds(l.digitalNodes)[j];
    }
    DistinctKeysSortStrictly(l.digitalNodes, BY_NODE);
    forall i | 0 <= i < |nodes|
      ensures nodes[i].nodeId == BY_NODE(SortBy(l.digitalNodes, BY_NODE)[i])
    {
      MappedAddress(l, frame, nodes, i);
    }
  }

  /** What `map` makes of a legacy node, pixel by pixel: as many pixels as the node has; a pixel that a segment
      covers is the pixel of its strip at that place, or the mirrored one, black beyond what was drawn; any other
      pixel is black. */
  lemma MappedLegacyNode(l: Layout, frame: Frame, nodes: seq<NodeFrame>, i: nat, x: nat)
    requires PhysicalOk(l) && IsMapped(l, frame, nodes) && i < |nodes|
    requires var n := SortBy(l.digitalNodes, BY_NODE)[i]; n.protocolVersion != 3 && x < n.pixelCount
    ensures var n := SortBy(l.digitalNodes, BY_NODE)[i];
      && nodes[i].nodeId == n.nodeId && |nodes[i].pixels| == n.pixelCount
      && (forall j :: 0 <= j < |l.segments| && Covers(l.segments[j], n.nodeId, x) ==>
            var s := l.segments[j];
            var k := x - s.offset;
            var from := if s.direction == REVERSE then s.pixelCount - 1 - k else k;
            nodes[i].pixels[x] == if from < |Drawn(frame, s.stripId)| then Drawn(frame, s.stripId)[from] else BLACK)
      && ((forall j :: 0 <= j < |l.segments| ==> !Covers(l.segments[j], n.nodeId, x)) ==> nodes[i].pixels[x] == BLACK)
  {
    hide PhysicalOk, Painted, AllApart, Source, SortBy;
    var n := SortBy(l.digitalNodes, BY_NODE)[i];
    var at :| 0 <= at < |l.digitalNodes| && l.digitalNodes[at] == n;
    ValidatedSegmentsFit(l, at);
    PaintedByPixel(l.segments, frame, n.nodeId, n.pixelCount, x);
    forall j | 0 <= j < |l.segments| && Covers(l.segments[j], n.nodeId, x)
      ensures var s := l.segments[j];
        var k := x - s.offset;
        var from := if s.direction == REVERSE then s.pixelCount - 1 - k else k;
        nodes[i].pixels[x] == if from < |Drawn(frame, s.stripId)| then Drawn(frame, s.stripId)[from] else BLACK
    {
      var s := l.segments[j];
      SourceByIndex(frame, s.stripId, s.pixelCount, s.direction, x - s.offset);
    }
  }
}
