/** The second validator, over a loaded layout, proved to accept exactly what its rules say. */
module PhysicalMapping {
  import opened Util
  import opened Lists
  import opened Topology
  import opened SegmentValidation
  import opened Layouts

  // --- lookups -----------------------------------------------------------------------------------

  function DigitalIds(nodes: seq<DigitalNode>): (r: seq<int>)
    ensures |r| == |nodes|
  {
    seq(|nodes|, i requires 0 <= i < |nodes| => nodes[i].nodeId)
  }

  function NodeById(nodes: seq<DigitalNode>): map<int, DigitalNode> {
    if nodes == [] then map[] else NodeById(nodes[..|nodes| - 1])[nodes[|nodes| - 1].nodeId := nodes[|nodes| - 1]]
  }

  function NodePixelCounts(nodes: seq<DigitalNode>): map<int, int> {
    if nodes == [] then map[]
    else NodePixelCounts(nodes[..|nodes| - 1])[nodes[|nodes| - 1].nodeId := nodes[|nodes| - 1].pixelCount]
  }

  /** The outputs of one node, in layout order. */
  function At(outputs: seq<Output>, nodeId: int): seq<Output> {
    if outputs == [] then []
    else
      var before, last := At(outputs[..|outputs| - 1], nodeId), outputs[|outputs| - 1];
      if last.nodeId == nodeId then before + [last] else before
  }

  function Total(outputs: seq<Output>): int {
    if outputs == [] then 0 else Total(outputs[..|outputs| - 1]) + outputs[|outputs| - 1].pixelCount
  }

  function IdsOf(outputs: seq<Output>): (r: seq<int>)
    ensures |r| == |outputs|
  {
    seq(|outputs|, i requires 0 <= i < |outputs| => outputs[i].outputId)
  }

  function GpiosOf(outputs: seq<Output>): (r: seq<int>)
    ensures |r| == |outputs|
  {
    seq(|outputs|, i requires 0 <= i < |outputs| => outputs[i].gpio)
  }

  function StripsOf(outputs: seq<Output>): (r: seq<string>)
    ensures |r| == |outputs|
  {
    seq(|outputs|, i requires 0 <= i < |outputs| => outputs[i].stripId)
  }

  // --- the rules, stated without order -----------------------------------------------------------

  predicate PermitsNoAnalog(l: Layout) {
    (l.policy == Some(WLED) || l.policy == Some(GPIO4)) && l.analogNodes == [] && l.zones == []
  }

  predicate AnalogCountOk(l: Layout) {
    |l.analogNodes| == (if l.topologyVersion == 3 then 1 else 6) || PermitsNoAnalog(l)
  }

  predicate AnalogNodesOk(l: Layout) {
    && (forall i :: 0 <= i < |l.analogNodes| ==>
          var n := l.analogNodes[i]; n.nodeId >= 1 && n.fadeMs >= 0 && n.zoneId != "" && n.zoneId in ZoneIds(l.zones))
    && (forall i, j :: 0 <= i < j < |l.analogNodes| ==> l.analogNodes[i].nodeId != l.analogNodes[j].nodeId)
  }

  predicate NodeIsSound(n: DigitalNode) {
    && n.nodeId >= 1 && n.port >= 1 && n.pixelCount >= 1 && n.maxUdpPayload >= 1
    && (n.protocolVersion == 2 || n.protocolVersion == 3)
    && (n.protocolVersion == 2 ==> n.pixelCount * 3 <= n.maxUdpPayload)
  }

  predicate DigitalNodesOk(l: Layout) {
    && (forall i :: 0 <= i < |l.digitalNodes| ==>
          && NodeIsSound(l.digitalNodes[i])
          && forall j :: 0 <= j < |l.analogNodes| ==> l.analogNodes[j].nodeId != l.digitalNodes[i].nodeId)
    && Distinct(DigitalIds(l.digitalNodes))
  }

  predicate OutputIsSound(l: Layout, o: Output) {
    && o.nodeId >= 1 && o.outputId >= 1 && o.gpio >= 0 && o.pixelCount >= 1 && o.stripId != ""
    && o.nodeId in NodeById(l.digitalNodes) && NodeById(l.digitalNodes)[o.nodeId].protocolVersion == 3
    && o.stripId in Lengths(l.strips) && o.pixelCount == Lengths(l.strips)[o.stripId]
    && IsDirection(o.direction)
  }

  predicate NodeComplete(n: DigitalNode, outputs: seq<Output>) {
    var mine := At(outputs, n.nodeId);
    && 1 <= |mine| <= 3 && Distinct(IdsOf(mine)) && Distinct(GpiosOf(mine)) && Total(mine) == n.pixelCount
  }

  predicate OutputsOk(l: Layout) {
    && (forall i :: 0 <= i < |l.outputs| ==> OutputIsSound(l, l.outputs[i]))
    && Distinct(StripsOf(l.outputs))
    && Elements(StripsOf(l.outputs)) == Lengths(l.strips).Keys
    && (forall i :: 0 <= i < |l.digitalNodes| && l.digitalNodes[i].protocolVersion == 3 ==>
          NodeComplete(l.digitalNodes[i], l.outputs))
  }

  /** The layouts that the second validator accepts. */
  predicate PhysicalOk(l: Layout) {
    && AnalogCountOk(l)
    && (l.topologyVersion == 3 ==> forall i :: 0 <= i < |l.digitalNodes| ==> l.digitalNodes[i].protocolVersion == 3)
    && AnalogNodesOk(l) && DigitalNodesOk(l)
    && (if l.outputs != [] then OutputsOk(l)
        else forall i :: 0 <= i < |l.digitalNodes| ==> l.digitalNodes[i].protocolVersion != 3)
    && SegmentsOk(l.segments, Lengths(l.strips), NodePixelCounts(l.digitalNodes))
  }

  // --- the validator -----------------------------------------------------------------------------

  /** `node_ids` after the analog loop: the numbers taken so far. */
  method ValidateAnalogNodes(l: Layout) returns (ok: bool, taken: set<int>)
    ensures ok <==> AnalogNodesOk(l)
    ensures ok ==> forall id :: id in taken <==> exists j :: 0 <= j < |l.analogNodes| && l.analogNodes[j].nodeId == id
  {
    taken := {};
    for i := 0 to |l.analogNodes|
      invariant forall id :: id in taken <==> exists j :: 0 <= j < i && l.analogNodes[j].nodeId == id
      invariant forall j :: 0 <= j < i ==>
        var n := l.analogNodes[j]; n.nodeId >= 1 && n.fadeMs >= 0 && n.zoneId != "" && n.zoneId in ZoneIds(l.zones)
      invariant forall j, k :: 0 <= j < k < i ==> l.analogNodes[j].nodeId != l.analogNodes[k].nodeId
    {
      var n := l.analogNodes[i];
      if n.nodeId < 1 || n.fadeMs < 0 || n.zoneId == "" || n.zoneId !in ZoneIds(l.zones) || n.nodeId in taken {
        return false, taken;
      }
      taken := taken + {n.nodeId};
    }
    ok := true;
  }

  method ValidateDigitalNodes(l: Layout, analogIds: set<int>) returns (ok: bool)
    requires forall id :: id in analogIds <==> exists j :: 0 <= j < |l.analogNodes| && l.analogNodes[j].nodeId == id
    ensures ok <==> DigitalNodesOk(l)
  {
    var nodes := l.digitalNodes;
    var taken := analogIds;
    for i := 0 to |nodes|
      invariant taken == analogIds + Elements(DigitalIds(nodes)[..i])
      invariant forall j :: 0 <= j < i ==> NodeIsSound(nodes[j]) && nodes[j].nodeId !in analogIds
      invariant Distinct(DigitalIds(nodes)[..i])
    {
      var n := nodes[i];
      assert DigitalIds(nodes)[..i + 1] == DigitalIds(nodes)[..i] + [n.nodeId];
      DistinctGrows(DigitalIds(nodes)[..i], n.nodeId);
      DistinctPrefix(DigitalIds(nodes), i + 1);
      if !NodeIsSound(n) || n.nodeId in taken {
        return false;
      }
      taken := taken + {n.nodeId};
    }
    assert DigitalIds(nodes)[..|nodes|] == DigitalIds(nodes);
    ok := true;
  }

  type ByNode = map<int, seq<Output>>

  function Group(byNode: ByNode, nodeId: int): seq<Output> { if nodeId in byNode then byNode[nodeId] else [] }

  method CollectOutputs(l: Layout) returns (ok: bool, mapped: set<string>, byNode: ByNode)
    ensures ok <==>
      (forall i :: 0 <= i < |l.outputs| ==> OutputIsSound(l, l.outputs[i])) && Distinct(StripsOf(l.outputs))
    ensures ok ==> mapped == Elements(StripsOf(l.outputs)) && forall id :: Group(byNode, id) == At(l.outputs, id)
  {
    hide OutputIsSound, Distinct;
    mapped, byNode := {}, map[];
    assert Distinct<string>([]) by { DistinctEmpty<string>(); }
    for i := 0 to |l.outputs|
      invariant mapped == Elements(StripsOf(l.outputs)[..i]) && Distinct(StripsOf(l.outputs)[..i])
      invariant forall j :: 0 <= j < i ==> OutputIsSound(l, l.outputs[j])
      invariant forall id :: Group(byNode, id) == At(l.outputs[..i], id)
    {
      var o := l.outputs[i];
      assert l.outputs[..i + 1][..i] == l.outputs[..i];
      assert StripsOf(l.outputs)[..i + 1] == StripsOf(l.outputs)[..i] + [o.stripId];
      DistinctGrows(StripsOf(l.outputs)[..i], o.stripId);
      DistinctPrefix(StripsOf(l.outputs), i + 1);
      if !OutputIsSound(l, o) {
        return false, mapped, byNode;
      }
      byNode := byNode[o.nodeId := Group(byNode, o.nodeId) + [o]];
      if o.stripId in mapped {
        return false, mapped, byNode;
      }
      mapped := mapped + {o.stripId};
    }
    assert l.outputs[..|l.outputs|] == l.outputs && StripsOf(l.outputs)[..|l.outputs|] == StripsOf(l.outputs);
    ok := true;
  }

  method ValidateOutputs(l: Layout) returns (ok: bool)
    ensures ok <==> OutputsOk(l)
  {
    hide OutputIsSound, Distinct, Lengths, DigitalIds;
    var collected, mapped, byNode := CollectOutputs(l);
    if !collected || mapped != Lengths(l.strips).Keys {
      return false;
    }
    for i := 0 to |l.digitalNodes|
      invariant forall j :: 0 <= j < i && l.digitalNodes[j].protocolVersion == 3 ==>
        NodeComplete(l.digitalNodes[j], l.outputs)
    {
      var node := l.digitalNodes[i];
      if node.protocolVersion == 3 {
        var mine := Group(byNode, node.nodeId);
        DistinctBySize(IdsOf(mine));
        DistinctBySize(GpiosOf(mine));
        if mine == [] || |mine| > 3
           || |Elements(IdsOf(mine))| != |IdsOf(mine)| || |Elements(GpiosOf(mine))| != |GpiosOf(mine)|
           || Total(mine) != node.pixelCount {
          return false;
        }
      }
    }
    ok := true;
  }

  /** Accepts exactly the layouts that the rules describe. */
  method Validate(l: Layout) returns (ok: bool)
    ensures ok <==> PhysicalOk(l)
  {
    hide AnalogNodesOk, DigitalNodesOk, OutputsOk, SegmentsOk;
    if !AnalogCountOk(l) {
      return false;
    }
    if l.topologyVersion == 3 && exists i :: 0 <= i < |l.digitalNodes| && l.digitalNodes[i].protocolVersion != 3 {
      return false;
    }
    var analogOk, taken := ValidateAnalogNodes(l);
    if !analogOk {
      return false;
    }
    var digitalOk := ValidateDigitalNodes(l, taken);
    if !digitalOk {
      return false;
    }
    if l.outputs != [] {
      var outputsOk := ValidateOutputs(l);
      if !outputsOk {
        return false;
      }
    } else if exists i :: 0 <= i < |l.digitalNodes| && l.digitalNodes[i].protocolVersion == 3 {
      return false;
    }
    ok := ValidateSegments(l.segments, Lengths(l.strips), NodePixelCounts(l.digitalNodes));
  }
}
