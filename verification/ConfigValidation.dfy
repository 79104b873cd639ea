/** The first validator: item by item over the authored topology, proved to accept exactly what the rules say. */
module ConfigValidation {
  import opened Util
  import opened Lists
  import opened Topology
  import opened SegmentValidation
  import P = PixelSets
  import VP = VirtualPaths

  method ValidateZones(zones: seq<Zone>) returns (ok: bool)
    ensures ok <==> Distinct(ZoneIds(zones)) && "" !in ZoneIds(zones)
  {
    hide Distinct;
    var ids := ZoneIds(zones);
    var zoneIds: set<string> := {};
    DistinctEmpty<string>();
    for i := 0 to |zones|
      invariant zoneIds == Elements(ids[..i]) && Distinct(ids[..i]) && "" !in ids[..i]
    {
      assert ids[..i + 1] == ids[..i] + [ids[i]];
      DistinctGrows(ids[..i], ids[i]);
      DistinctPrefix(ids, i + 1);
      if zones[i].id == "" || zones[i].id in zoneIds {
        return false;
      }
      zoneIds := zoneIds + {zones[i].id};
    }
    assert ids[..|zones|] == ids;
    ok := true;
  }

  method ValidateBiases(biases: seq<ZoneBias>, zoneIds: seq<string>) returns (ok: bool)
    ensures ok <==> BiasesOk(biases, zoneIds)
  {
    for i := 0 to |biases|
      invariant BiasesOk(biases[..i], zoneIds)
    {
      var b := biases[i];
      assert b in biases;
      if b.zoneId == "" || b.zoneId !in zoneIds || !b.bias.Legal() {
        return false;
      }
    }
    assert biases[..|biases|] == biases;
    ok := true;
  }

  method ValidateStrips(strips: seq<Strip>) returns (ok: bool, lengths: map<string, int>)
    ensures ok <==>
      && Distinct(StripIds(strips))
      && forall j :: 0 <= j < |strips| ==> strips[j].id != "" && strips[j].pixelCount >= 1
    ensures ok ==> lengths == Lengths(strips)
  {
    hide Distinct;
    lengths := map[];
    DistinctEmpty<string>();
    for i := 0 to |strips|
      invariant lengths == Lengths(strips[..i]) && lengths.Keys == Elements(StripIds(strips)[..i])
      invariant Distinct(StripIds(strips)[..i])
      invariant forall j :: 0 <= j < i ==> strips[j].id != "" && strips[j].pixelCount >= 1
    {
      var s := strips[i];
      assert strips[..i + 1][..i] == strips[..i];
      assert StripIds(strips)[..i + 1] == StripIds(strips)[..i] + [s.id];
      DistinctGrows(StripIds(strips)[..i], s.id);
      DistinctPrefix(StripIds(strips), i + 1);
      if s.id == "" || s.id in lengths || s.pixelCount < 1 {
        return false, lengths;
      }
      lengths := lengths[s.id := s.pixelCount];
    }
    assert strips[..|strips|] == strips && StripIds(strips)[..|strips|] == StripIds(strips);
    ok := true;
  }

  method ValidatePolicy(c: Config) returns (ok: bool)
    ensures ok <==> PolicyOk(c)
  {
    if c.topologyVersion != 2 && c.topologyVersion != 3 {
      return false;
    }
    if c.policy.Some? {
      if c.policy.value != DIAGNOSTIC && c.policy.value != GPIO4 && c.policy.value != WLED {
        return false;
      }
      if c.topologyVersion != 3 {
        return false;
      }
    }
    if c.topologyVersion == 3 && c.production {
      if c.policy.None? {
        return false;
      }
      if !("ddp" in c.backends || "udp_v3" in c.backends) {
        return false;
      }
      if "udp_v3" in c.backends && c.policy.value == GPIO4 && !c.scheduled {
        return false;
      }
    }
    return true;
  }

  function AnalogIds(nodes: seq<AnalogNode>): (r: seq<int>)
    ensures |r| == |nodes|
  {
    seq(|nodes|, i requires 0 <= i < |nodes| => nodes[i].nodeId)
  }

  method ValidateAnalog(c: Config) returns (ok: bool, usedIds: set<int>)
    ensures ok <==> AnalogOk(c)
    ensures ok ==> usedIds == Elements(AnalogIds(c.analogNodes))
  {
    usedIds := {};
    var expected := if c.topologyVersion == 3 then 1 else 6;
    if |c.analogNodes| != expected && !("rs485_v2" !in c.backends && c.analogNodes == [] && c.zones == []) {
      return false, usedIds;
    }
    for i := 0 to |c.analogNodes|
      invariant usedIds == Elements(AnalogIds(c.analogNodes)[..i])
      invariant Distinct(AnalogIds(c.analogNodes)[..i])
      invariant forall j :: 0 <= j < i ==>
        var n := c.analogNodes[j];
        n.nodeId >= 1 && n.zoneId != "" && n.zoneId in ZoneIds(c.zones) && n.fadeMs >= 0 && n.channelOrder != ""
    {
      var n := c.analogNodes[i];
      var ids := AnalogIds(c.analogNodes);
      assert ids[..i + 1] == ids[..i] + [n.nodeId];
      if n.nodeId < 1 || n.nodeId in usedIds || n.zoneId == "" || n.zoneId !in ZoneIds(c.zones)
         || n.fadeMs < 0 || n.channelOrder == "" {
        if n.nodeId in usedIds {
          var j :| 0 <= j < i && ids[j] == n.nodeId;
          assert c.analogNodes[j].nodeId == c.analogNodes[i].nodeId;
        }
        return false, usedIds;
      }
      usedIds := usedIds + {n.nodeId};
    }
    ghost var ids := AnalogIds(c.analogNodes);
    assert ids[..|ids|] == ids;
    forall i, j | 0 <= i < j < |c.analogNodes|
      ensures c.analogNodes[i].nodeId != c.analogNodes[j].nodeId
    {
      assert ids[i] != ids[j];
    }
    ok := true;
  }

  function Endpoints(nodes: seq<RawDigitalNode>): (r: seq<(string, int)>)
    ensures |r| == |nodes|
  {
    seq(|nodes|, i requires 0 <= i < |nodes| => (nodes[i].host, nodes[i].port))
  }

  /** The field checks of one digital node, in the source's order but for the two uniqueness checks. */
  method ValidateDigitalNode(c: Config, n: RawDigitalNode, hostOk: HostRule) returns (ok: bool)
    ensures ok <==> DigitalNodeOk(c, n, hostOk)
  {
    if n.nodeId < 1 || !hostOk(n.host) || n.port < 1 || n.port > 65535 {
      return false;
    }
    if c.topologyVersion == 3 {
      if n.pixelCount.Some? && n.pixelCount.value < 1 {
        return false;
      }
    } else if n.pixelCount.None? || n.pixelCount.value < 1 {
      return false;
    }
    var version := c.VersionOf(n);
    if version != 2 && version != 3 {
      return false;
    }
    if "udp_v3" in c.backends && n.maxUdpPayload.None? {
      return false;
    }
    var payload := c.PayloadOf(n);
    if payload < 1 {
      return false;
    }
    if "udp_v3" in c.backends && !(46 <= payload <= 65507) {
      return false;
    }
    if version == 2 && n.pixelCount.Some? && n.pixelCount.value * 3 > payload {
      return false;
    }
    return true;
  }

  /** The digital nodes keep apart from each other, by number and by endpoint, and from the analog ones. */
  predicate NodesApart(nodes: seq<RawDigitalNode>, analogIds: set<int>) {
    && Distinct(NodeIds(nodes)) && Distinct(Endpoints(nodes))
    && forall i :: 0 <= i < |nodes| ==> nodes[i].nodeId !in analogIds
  }

  lemma NodesApartIsDigitalOk(c: Config, hostOk: HostRule)
    ensures DigitalOk(c, hostOk)
       <==> && (forall i :: 0 <= i < |c.digitalNodes| ==> DigitalNodeOk(c, c.digitalNodes[i], hostOk))
            && NodesApart(c.digitalNodes, Elements(AnalogIds(c.analogNodes)))
  {
    hide DigitalNodeOk;
    var nodes, ids := c.digitalNodes, AnalogIds(c.analogNodes);
    assert forall i :: 0 <= i < |nodes| ==> NodeIds(nodes)[i] == nodes[i].nodeId;
    assert forall i :: 0 <= i < |nodes| ==> Endpoints(nodes)[i] == (nodes[i].host, nodes[i].port);
    forall i | 0 <= i < |nodes|
      ensures nodes[i].nodeId !in Elements(ids)
         <==> forall j :: 0 <= j < |ids| ==> c.analogNodes[j].nodeId != nodes[i].nodeId
    {
      assert forall j :: 0 <= j < |ids| ==> ids[j] == c.analogNodes[j].nodeId;
    }
  }

  lemma NodesApartGrows(nodes: seq<RawDigitalNode>, k: nat, analogIds: set<int>)
    requires k < |nodes|
    ensures NodesApart(nodes[..k + 1], analogIds)
       <==> && NodesApart(nodes[..k], analogIds) && nodes[k].nodeId !in analogIds
            && nodes[k].nodeId !in NodeIds(nodes[..k])
            && (nodes[k].host, nodes[k].port) !in Endpoints(nodes[..k])
    ensures NodesApart(nodes, analogIds) ==> NodesApart(nodes[..k + 1], analogIds)
    ensures NodeIds(nodes[..k + 1]) == NodeIds(nodes[..k]) + [nodes[k].nodeId]
    ensures Endpoints(nodes[..k + 1]) == Endpoints(nodes[..k]) + [(nodes[k].host, nodes[k].port)]
  {
    hide Distinct;
    var s := nodes[..k + 1];
    assert NodeIds(s) == NodeIds(nodes[..k]) + [nodes[k].nodeId];
    assert Endpoints(s) == Endpoints(nodes[..k]) + [(nodes[k].host, nodes[k].port)];
    DistinctGrows(NodeIds(nodes[..k]), nodes[k].nodeId);
    DistinctGrows(Endpoints(nodes[..k]), (nodes[k].host, nodes[k].port));
    DistinctPrefix(NodeIds(nodes), k + 1);
    DistinctPrefix(Endpoints(nodes), k + 1);
    assert NodeIds(nodes)[..k + 1] == NodeIds(s);
    assert Endpoints(nodes)[..k + 1] == Endpoints(s);
    assert forall i :: 0 <= i < |s| ==> s[i] == if i < k then nodes[..k][i] else nodes[k];
  }

  method ValidateDigital(c: Config, hostOk: HostRule, analogIds: set<int>) returns (ok: bool, lengths: map<int, int>)
    requires analogIds == Elements(AnalogIds(c.analogNodes))
    ensures ok <==> DigitalOk(c, hostOk)
    ensures ok ==> lengths == NodeLengths(c.digitalNodes)
  {
    hide NodesApart, DigitalNodeOk, DigitalOk, Elements, NodeIds, Endpoints;
    NodesApartIsDigitalOk(c, hostOk);
    lengths := map[];
    var usedIds := analogIds;
    var endpoints: set<(string, int)> := {};
    NoNodesApart(analogIds);
    for i := 0 to |c.digitalNodes|
      invariant usedIds == analogIds + Elements(NodeIds(c.digitalNodes[..i]))
      invariant endpoints == Elements(Endpoints(c.digitalNodes[..i]))
      invariant lengths == NodeLengths(c.digitalNodes[..i])
      invariant NodesApart(c.digitalNodes[..i], analogIds)
      invariant forall j :: 0 <= j < i ==> DigitalNodeOk(c, c.digitalNodes[j], hostOk)
    {
      var n := c.digitalNodes[i];
      assert c.digitalNodes[..i + 1][..i] == c.digitalNodes[..i] && c.digitalNodes[..i + 1][i] == n;
      NodesApartGrows(c.digitalNodes, i, analogIds);
      SeenGrows(NodeIds(c.digitalNodes[..i]), n.nodeId);
      SeenGrows(Endpoints(c.digitalNodes[..i]), (n.host, n.port));
      SeenMeansIn(NodeIds(c.digitalNodes[..i]), n.nodeId);
      SeenMeansIn(Endpoints(c.digitalNodes[..i]), (n.host, n.port));
      if n.nodeId in usedIds {
        return false, lengths;
      }
      if (n.host, n.port) in endpoints {
        return false, lengths;
      }
      var fieldsOk := ValidateDigitalNode(c, n, hostOk);
      if !fieldsOk {
        return false, lengths;
      }
      usedIds := usedIds + {n.nodeId};
      endpoints := endpoints + {(n.host, n.port)};
      lengths := lengths[n.nodeId := if n.pixelCount.None? then 0 else n.pixelCount.value];
    }
    assert c.digitalNodes[..|c.digitalNodes|] == c.digitalNodes;
    ok := true;
  }

  lemma NoNodesApart(analogIds: set<int>)
    ensures NodesApart([], analogIds)
    ensures Elements(NodeIds([])) == {} && Elements(Endpoints([])) == {}
  {
  }

  // --- independent outputs -----------------------------------------------------------------------

  type ByNode = map<int, seq<RawOutput>>

  function Group(byNode: ByNode, nodeId: int): seq<RawOutput> { if nodeId in byNode then byNode[nodeId] else [] }

  /** The dictionary groups the outputs by node, in order. */
  ghost predicate Groups(byNode: ByNode, outputs: seq<RawOutput>) {
    forall nodeId :: Group(byNode, nodeId) == OutputsOf(outputs, nodeId) && (nodeId in byNode ==> byNode[nodeId] != [])
  }

  method ValidateOutput(c: Config, o: RawOutput, stripLengths: map<string, int>, nodeLengths: map<int, int>)
    returns (ok: bool)
    requires stripLengths == Lengths(c.strips) && nodeLengths.Keys == Elements(NodeIds(c.digitalNodes))
    ensures ok <==> OutputOk(c, o)
  {
    if o.nodeId < 1 || o.outputId < 1 || o.gpio < 0 {
      return false;
    }
    if (c.policy == Some(GPIO4) || c.policy == Some(WLED)) && o.outputId != 1 {
      return false;
    }
    if c.policy == Some(GPIO4) && o.gpio != 4 {
      return false;
    }
    if o.stripId == "" || !IsDirection(o.direction) || o.nodeId !in nodeLengths || o.stripId !in stripLengths {
      return false;
    }
    var pixelCount := stripLengths[o.stripId];
    if o.pixelCount.Some? && (o.pixelCount.value < 1 || o.pixelCount.value != pixelCount) {
      return false;
    }
    return true;
  }

  /** Every output is in order and no strip is mapped twice. */
  predicate OutputsOk(c: Config, outputs: seq<RawOutput>) {
    (forall i :: 0 <= i < |outputs| ==> OutputOk(c, outputs[i])) && Distinct(OutputStrips(outputs))
  }

  lemma OutputsGrow(c: Config, outputs: seq<RawOutput>, k: nat)
    requires k < |outputs|
    ensures OutputStrips(outputs[..k + 1]) == OutputStrips(outputs[..k]) + [outputs[k].stripId]
    ensures OutputsOk(c, outputs[..k + 1])
       <==> && OutputsOk(c, outputs[..k]) && OutputOk(c, outputs[k])
            && outputs[k].stripId !in OutputStrips(outputs[..k])
    ensures OutputsOk(c, outputs) ==> OutputsOk(c, outputs[..k + 1])
  {
    hide OutputOk, Distinct;
    var s, before, last := outputs[..k + 1], outputs[..k], outputs[k];
    assert OutputStrips(s) == OutputStrips(before) + [last.stripId];
    DistinctGrows(OutputStrips(before), last.stripId);
    DistinctPrefix(OutputStrips(outputs), k + 1);
    assert OutputStrips(outputs)[..k + 1] == OutputStrips(s);
    assert forall i :: 0 <= i < |s| ==> s[i] == if i < k then before[i] else last;
  }

  method CollectOutputs(c: Config, stripLengths: map<string, int>, nodeLengths: map<int, int>)
    returns (ok: bool, seenStrips: set<string>, byNode: ByNode, order: seq<int>)
    requires stripLengths == Lengths(c.strips) && nodeLengths.Keys == Elements(NodeIds(c.digitalNodes))
    ensures ok <==> OutputsOk(c, c.outputs)
    ensures ok ==> seenStrips == Elements(OutputStrips(c.outputs)) && Groups(byNode, c.outputs)
    ensures ok ==> Elements(order) == byNode.Keys
  {
    hide OutputsOk, OutputOk, Groups, OutputsOf, OutputStrips, Elements;
    seenStrips, byNode, order := {}, map[], [];
    NoOutputsOk(c);
    for k := 0 to |c.outputs|
      invariant OutputsOk(c, c.outputs[..k])
      invariant seenStrips == Elements(OutputStrips(c.outputs[..k]))
      invariant Groups(byNode, c.outputs[..k])
      invariant Elements(order) == byNode.Keys
    {
      var o := c.outputs[k];
      OutputsGrow(c, c.outputs, k);
      var fieldsOk := ValidateOutput(c, o, stripLengths, nodeLengths);
      SeenMeansIn(OutputStrips(c.outputs[..k]), o.stripId);
      if !fieldsOk || o.stripId in seenStrips {
        return false, seenStrips, byNode, order;
      }
      seenStrips := seenStrips + {o.stripId};
      SeenGrows(OutputStrips(c.outputs[..k]), o.stripId);
      GroupsGrow(byNode, c.outputs, k, order);
      if o.nodeId !in byNode {
        order := order + [o.nodeId];
      }
      byNode := byNode[o.nodeId := Group(byNode, o.nodeId) + [o]];
    }
    assert c.outputs[..|c.outputs|] == c.outputs;
    ok := true;
  }

  lemma SeenGrows<T>(s: seq<T>, x: T)
    ensures Elements(s + [x]) == Elements(s) + {x}
  {
  }

  lemma SeenMeansIn<T>(s: seq<T>, x: T)
    ensures x in Elements(s) <==> x in s
  {
  }

  /** One more output, appended to its node's group. */
  lemma GroupsGrow(byNode: ByNode, outputs: seq<RawOutput>, k: nat, order: seq<int>)
    requires k < |outputs| && Groups(byNode, outputs[..k]) && Elements(order) == byNode.Keys
    ensures var o := outputs[k]; var after := byNode[o.nodeId := Group(byNode, o.nodeId) + [o]];
      && Groups(after, outputs[..k + 1])
      && Elements(if o.nodeId in byNode then order else order + [o.nodeId]) == after.Keys
  {
    var o := outputs[k];
    assert outputs[..k + 1][..k] == outputs[..k];
    SeenGrows(order, o.nodeId);
  }

  lemma NoOutputsOk(c: Config)
    ensures OutputsOk(c, []) && Groups(map[], [])
    ensures Elements(OutputStrips([])) == {} && Elements<int>([]) == {}
  {
  }

  /** The checks on one node's outputs, but for the count that the policy asks. */
  predicate GroupOk(mine: seq<RawOutput>, authored: Option<int>, lengths: map<string, int>) {
    && |mine| <= 3 && Distinct(OutputIds(mine)) && Distinct(Gpios(mine))
    && (authored.Some? ==> TotalPixels(mine, lengths) == authored.value)
  }

  function AuthoredLength(nodes: seq<RawDigitalNode>, nodeId: int): Option<int> {
    if nodes == [] then None
    else if nodes[|nodes| - 1].nodeId == nodeId then nodes[|nodes| - 1].pixelCount
    else AuthoredLength(nodes[..|nodes| - 1], nodeId)
  }

  method CheckGroup(mine: seq<RawOutput>, authored: Option<int>, lengths: map<string, int>) returns (ok: bool)
    ensures ok <==> GroupOk(mine, authored, lengths)
  {
    if |mine| > 3 {
      return false;
    }
    var outputIds, gpios := OutputIds(mine), Gpios(mine);
    DistinctBySize(outputIds);
    DistinctBySize(gpios);
    if |outputIds| != |Elements(outputIds)| || |gpios| != |Elements(gpios)| {
      return false;
    }
    var mappedPixelCount := TotalPixels(mine, lengths);
    return !(authored.Some? && mappedPixelCount != authored.value);
  }

  lemma {:induction false} AuthoredByIndex(nodes: seq<RawDigitalNode>, i: nat)
    requires i < |nodes| && Distinct(NodeIds(nodes))
    ensures AuthoredLength(nodes, nodes[i].nodeId) == nodes[i].pixelCount
  {
    if i < |nodes| - 1 {
      assert NodeIds(nodes)[i] != NodeIds(nodes)[|nodes| - 1];
      assert NodeIds(nodes)[..|nodes| - 1] == NodeIds(nodes[..|nodes| - 1]);
      AuthoredByIndex(nodes[..|nodes| - 1], i);
    }
  }

  lemma {:induction false} OutputsOfSome(outputs: seq<RawOutput>, i: nat)
    requires i < |outputs|
    ensures outputs[i] in OutputsOf(outputs, outputs[i].nodeId)
  {
    if i < |outputs| - 1 {
      OutputsOfSome(outputs[..|outputs| - 1], i);
    }
  }

  lemma {:induction false} OutputsOfAre(outputs: seq<RawOutput>, nodeId: int, k: nat)
    requires k < |OutputsOf(outputs, nodeId)|
    ensures var o := OutputsOf(outputs, nodeId)[k]; o in outputs && o.nodeId == nodeId
  {
    var init := outputs[..|outputs| - 1];
    if k < |OutputsOf(init, nodeId)| {
      OutputsOfAre(init, nodeId, k);
    }
  }

  /** Check every group in the dictionary's own order. */
  method CheckAllGroups(byNode: ByNode, order: seq<int>, nodes: seq<RawDigitalNode>, lengths: map<string, int>)
    returns (bad: Option<int>)
    requires Elements(order) == byNode.Keys
    ensures bad.None? ==> forall id :: id in byNode ==> GroupOk(byNode[id], AuthoredLength(nodes, id), lengths)
    ensures bad.Some? ==> bad.value in byNode && !GroupOk(byNode[bad.value], AuthoredLength(nodes, bad.value), lengths)
  {
    hide GroupOk;
    for k := 0 to |order|
      invariant forall j :: 0 <= j < k ==>
        order[j] in byNode && GroupOk(byNode[order[j]], AuthoredLength(nodes, order[j]), lengths)
    {
      var id := order[k];
      assert id in byNode.Keys;
      var groupOk := CheckGroup(byNode[id], AuthoredLength(nodes, id), lengths);
      if !groupOk {
        return Some(id);
      }
    }
    assert forall id :: id in byNode ==> id in order;
    return None;
  }

  /** The checks that look at all outputs of a node together. */
  method ValidateNodeOutputs(c: Config, lengths: map<string, int>, byNode: ByNode, order: seq<int>) returns (ok: bool)
    requires Elements(order) == byNode.Keys
    requires lengths == Lengths(c.strips) && Distinct(NodeIds(c.digitalNodes))
    requires OutputsOk(c, c.outputs) && Groups(byNode, c.outputs)
    ensures ok <==> forall i :: 0 <= i < |c.digitalNodes| ==> NodeOutputsOk(c, c.digitalNodes[i])
  {
    hide OutputsOk, GroupOk, Distinct, NodeOutputsOk, OutputsOf, AuthoredLength, NodeIds, Lengths;
    var nodes := c.digitalNodes;
    if c.policy == Some(GPIO4) || c.policy == Some(WLED) {
      for i := 0 to |nodes|
        invariant forall j :: 0 <= j < i ==> |OutputsOf(c.outputs, nodes[j].nodeId)| == 1
      {
        if |Group(byNode, nodes[i].nodeId)| != 1 {
          NodeOutputsUnfold(c, nodes[i]);
          return false;
        }
      }
    }
    var bad := CheckAllGroups(byNode, order, nodes, lengths);
    if bad.Some? {
      var i := KeyIsANode(c, byNode, bad.value);
      NodeOutputsUnfold(c, nodes[i]);
      return false;
    }
    for i := 0 to |nodes|
      invariant forall j :: 0 <= j < i ==> nodes[j].nodeId in byNode
    {
      if nodes[i].nodeId !in byNode {
        assert Group(byNode, nodes[i].nodeId) == [];
        NodeOutputsUnfold(c, nodes[i]);
        return false;
      }
    }
    forall i | 0 <= i < |nodes|
      ensures NodeOutputsOk(c, nodes[i])
    {
      AuthoredByIndex(nodes, i);
      assert OutputsOf(c.outputs, nodes[i].nodeId) == byNode[nodes[i].nodeId];
      NodeOutputsUnfold(c, nodes[i]);
    }
    ok := true;
  }

  method ValidateV3(c: Config, stripLengths: map<string, int>, nodeLengths: map<int, int>) returns (ok: bool)
    requires Distinct(NodeIds(c.digitalNodes))
    requires stripLengths == Lengths(c.strips) && nodeLengths == NodeLengths(c.digitalNodes)
    ensures ok <==> V3Ok(c)
  {
    hide OutputsOk, OutputOk, NodeOutputsOk, Distinct, Lengths, NodeLengths;
    NodeLengthKeys(c.digitalNodes);
    OutputsOkUnfolds(c);
    for i := 0 to |c.digitalNodes|
      invariant forall j :: 0 <= j < i ==> c.VersionOf(c.digitalNodes[j]) == 3
    {
      if c.VersionOf(c.digitalNodes[i]) != 3 {
        return false;
      }
    }
    if c.segments != [] || c.outputs == [] {
      return false;
    }
    var outputsOk, seenStrips, byNode, order := CollectOutputs(c, stripLengths, nodeLengths);
    if !outputsOk {
      return false;
    }
    LengthKeys(c.strips);
    if seenStrips != stripLengths.Keys {
      return false;
    }
    ok := ValidateNodeOutputs(c, stripLengths, byNode, order);
  }

  lemma {:induction false} NodeLengthKeys(nodes: seq<RawDigitalNode>)
    ensures NodeLengths(nodes).Keys == Elements(NodeIds(nodes))
  {
    if nodes != [] {
      NodeLengthKeys(nodes[..|nodes| - 1]);
      assert NodeIds(nodes) == NodeIds(nodes[..|nodes| - 1]) + [nodes[|nodes| - 1].nodeId];
    }
  }

  lemma {:induction false} LengthKeys(strips: seq<Strip>)
    ensures Lengths(strips).Keys == Elements(StripIds(strips))
  {
    if strips != [] {
      LengthKeys(strips[..|strips| - 1]);
      assert StripIds(strips) == StripIds(strips[..|strips| - 1]) + [strips[|strips| - 1].id];
    }
  }

  lemma OutputsOkUnfolds(c: Config)
    ensures OutputsOk(c, c.outputs)
       <==> && (forall i :: 0 <= i < |c.outputs| ==> OutputOk(c, c.outputs[i]))
            && Distinct(OutputStrips(c.outputs))
  {
  }

  lemma NodeOutputsUnfold(c: Config, n: RawDigitalNode)
    ensures var mine := OutputsOf(c.outputs, n.nodeId);
      NodeOutputsOk(c, n)
      <==> 1 <= |mine| && (c.OneOutputEach() ==> |mine| == 1) && GroupOk(mine, n.pixelCount, Lengths(c.strips))
  {
  }

  /** Every group belongs to an existing node. */
  lemma KeyIsANode(c: Config, byNode: ByNode, id: int) returns (i: nat)
    requires OutputsOk(c, c.outputs) && Groups(byNode, c.outputs) && id in byNode && Distinct(NodeIds(c.digitalNodes))
    ensures i < |c.digitalNodes| && c.digitalNodes[i].nodeId == id && OutputsOf(c.outputs, id) == byNode[id]
    ensures AuthoredLength(c.digitalNodes, id) == c.digitalNodes[i].pixelCount
  {
    hide Distinct;
    assert Group(byNode, id) == byNode[id];
    OutputsOfAre(c.outputs, id, 0);
    var o := OutputsOf(c.outputs, id)[0];
    var j :| 0 <= j < |c.outputs| && c.outputs[j] == o;
    assert OutputOk(c, c.outputs[j]);
    i :| 0 <= i < |c.digitalNodes| && NodeIds(c.digitalNodes)[i] == id;
    AuthoredByIndex(c.digitalNodes, i);
  }

  // --- virtual paths -----------------------------------------------------------------------------

  method ValidatePathSegments(raw: seq<VP.RawSegment>, lengths: map<string, int>) returns (ok: bool)
    ensures ok <==> VP.ValidSegments(raw, lengths)
  {
    hide VP.ValidSegments, P.Records, VP.Ranges, VP.SegmentFits;
    var occupied: map<string, set<int>> := map[];
    VP.NothingUsed(lengths);
    for k := 0 to |raw|
      invariant VP.ValidSegments(raw[..k], lengths) && VP.Layable(raw[..k])
      invariant P.Records(occupied, VP.Ranges(raw[..k])) && P.NonEmpty(VP.Ranges(raw[..k]))
    {
      var s := raw[k];
      assert raw[..k + 1][..k] == raw[..k] && raw[..k + 1][k] == s;
      VP.ValidPrefix(raw, k, lengths);
      var fits := ValidatePathSegment(s, lengths);
      if !fits {
        return false;
      }
      FitIsLayable(s, lengths);
      var now := P.Occupy(occupied, VP.RangeOf(s), VP.Ranges(raw[..k]));
      if now.None? {
        return false;
      }
      occupied := now.value;
      assert VP.Layable(raw[..k + 1]);
      VP.StillNonEmpty(raw[..k + 1]);
    }
    assert raw[..|raw|] == raw;
    ok := true;
  }

  method ValidatePathSegment(s: VP.RawSegment, lengths: map<string, int>) returns (ok: bool)
    ensures ok <==> VP.SegmentFits(s, lengths)
  {
    if s.stripId == "" || s.stripId !in lengths || s.sourceStart < 0 || s.pixelCount < 1 {
      return false;
    }
    if !IsDirection(s.direction) || s.gapAfter < 0 {
      return false;
    }
    var sourceEnd := s.sourceStart + s.pixelCount;
    return sourceEnd <= lengths[s.stripId];
  }

  lemma FitIsLayable(s: VP.RawSegment, lengths: map<string, int>)
    requires VP.SegmentFits(s, lengths)
    ensures s.sourceStart >= 0 && s.pixelCount >= 1 && s.gapAfter >= 0
  {
  }

  method ValidateVirtualPaths(paths: seq<VP.RawPath>, lengths: map<string, int>) returns (ok: bool)
    ensures ok <==> VP.ValidPaths(paths, lengths)
  {
    hide VP.ValidSegments;
    var pathIds: set<string> := {};
    for i := 0 to |paths|
      invariant pathIds == set j | 0 <= j < i :: paths[j].id
      invariant VP.ValidPaths(paths[..i], lengths)
    {
      if paths[i].id == "" || paths[i].id in pathIds || paths[i].segments == [] {
        return false;
      }
      pathIds := pathIds + {paths[i].id};
      var segmentsOk := ValidatePathSegments(paths[i].segments, lengths);
      if !segmentsOk {
        return false;
      }
      assert forall j :: 0 <= j <= i ==> paths[..i + 1][j] == paths[j];
    }
    ok := true;
  }

  // --- the whole configuration -------------------------------------------------------------------

  /** The topology part of the whole check. */
  method ValidateConfig(c: Config, hostOk: HostRule) returns (ok: bool)
    ensures ok <==> Accepted(c, hostOk)
  {
    hide PolicyOk, AnalogOk, DigitalOk, V3Ok, SegmentsOk, Distinct, BiasesOk, VP.ValidPaths;
    var zonesOk := ValidateZones(c.zones);
    if !zonesOk {
      return false;
    }
    var warmOk := ValidateBiases(c.warmBias, ZoneIds(c.zones));
    if !warmOk {
      return false;
    }
    var coolOk := ValidateBiases(c.coolBias, ZoneIds(c.zones));
    if !coolOk {
      return false;
    }
    var stripsOk, stripLengths := ValidateStrips(c.strips);
    if !stripsOk {
      return false;
    }
    assert NamesOk(c);
    var policyOk := ValidatePolicy(c);
    if !policyOk {
      return false;
    }
    var analogOk, usedIds := ValidateAnalog(c);
    if !analogOk {
      return false;
    }
    var digitalOk, nodeLengths := ValidateDigital(c, hostOk, usedIds);
    if !digitalOk {
      return false;
    }
    NodesApartIsDigitalOk(c, hostOk);
    var segmentsOk := ValidateSegments(c.segments, stripLengths, nodeLengths);
    if !segmentsOk {
      return false;
    }
    if c.topologyVersion == 3 {
      var v3Ok := ValidateV3(c, stripLengths, nodeLengths);
      if !v3Ok {
        return false;
      }
    }
    ok := ValidateVirtualPaths(c.virtualPaths, stripLengths);
  }
}
