/** Two independent validators over one topology: when the second can still refuse what the first accepted. */
module ValidatorAgreement {
  import opened Util
  import opened Lists
  import opened Topology
  import opened Layouts
  import P = PhysicalMapping

  /** What the first validator does not look at: the video zones and directions of strips and zones, and the video
      zones of analog nodes. */
  predicate UncheckedFieldsOk(c: Config) {
    && (forall i :: 0 <= i < |c.strips| ==> c.strips[i].videoZone in VIDEO_ZONES && IsDirection(c.strips[i].direction))
    && (forall i :: 0 <= i < |c.zones| ==> c.zones[i].videoZone in VIDEO_ZONES && IsDirection(c.zones[i].direction))
    && (forall i :: 0 <= i < |c.analogNodes| ==> c.analogNodes[i].videoZone != "")
  }

  /** Once the first validator has accepted a topology-v3 configuration, its layout loads if and only if the fields
      that this validator does not look at are in order. */
  lemma AcceptedLoads(c: Config, hostOk: HostRule)
    requires Accepted(c, hostOk) && c.IsV3()
    ensures Loads(c) <==> UncheckedFieldsOk(c)
  {
    hide Lengths, Derived, Distinct;
    AcceptedNodesLoad(c, hostOk);
    forall i | 0 <= i < |c.zones|
      ensures c.zones[i].id != ""
    {
      assert ZoneIds(c.zones)[i] == c.zones[i].id;
    }
  }

  lemma AcceptedNodesLoad(c: Config, hostOk: HostRule)
    requires Accepted(c, hostOk) && c.IsV3()
    ensures forall i :: 0 <= i < |c.outputs| ==> OutputLoads(c, c.outputs[i])
    ensures forall i :: 0 <= i < |c.digitalNodes| ==> NodeLoads(c, c.digitalNodes[i])
    ensures c.digitalNodes != [] && c.segments == []
  {
    hide Lengths, Derived, Distinct;
    assert OutputOk(c, c.outputs[0]);
    forall i | 0 <= i < |c.outputs|
      ensures OutputLoads(c, c.outputs[i])
    {
      assert OutputOk(c, c.outputs[i]);
    }
    forall i | 0 <= i < |c.digitalNodes|
      ensures NodeLoads(c, c.digitalNodes[i])
    {
      assert NodeOutputsOk(c, c.digitalNodes[i]);
      DerivedIsTotal(c.outputs, Lengths(c.strips), c.digitalNodes[i].nodeId);
      assert DigitalNodeOk(c, c.digitalNodes[i], hostOk);
    }
  }

  /** Loading keeps each node's outputs together and in order. */
  lemma {:induction false} OutputsStayTogether(c: Config, outputs: seq<RawOutput>, nodeId: int)
    requires forall i :: 0 <= i < |outputs| ==> OutputLoads(c, outputs[i])
    ensures var mine := OutputsOf(outputs, nodeId);
      && (forall i :: 0 <= i < |mine| ==> OutputLoads(c, mine[i]))
      && P.At(LoadOutputs(c, outputs), nodeId) == LoadOutputs(c, mine)
  {
    hide OutputLoads;
    if outputs != [] {
      var init, last := outputs[..|outputs| - 1], outputs[|outputs| - 1];
      OutputsStayTogether(c, init, nodeId);
      var loaded := LoadOutputs(c, outputs);
      assert loaded[..|loaded| - 1] == LoadOutputs(c, init);
    }
  }

  lemma {:induction false} TotalsAgree(c: Config, outputs: seq<RawOutput>)
    requires c.IsV3() && forall i :: 0 <= i < |outputs| ==> OutputLoads(c, outputs[i])
    ensures P.Total(LoadOutputs(c, outputs)) == TotalPixels(outputs, Lengths(c.strips))
  {
    hide Lengths;
    if outputs != [] {
      var init := outputs[..|outputs| - 1];
      TotalsAgree(c, init);
      var loaded := LoadOutputs(c, outputs);
      assert loaded[..|loaded| - 1] == LoadOutputs(c, init);
      assert OutputLoads(c, outputs[|outputs| - 1]);
    }
  }

  lemma {:induction false} NodesByIndex(nodes: seq<DigitalNode>)
    requires Distinct(P.DigitalIds(nodes))
    ensures forall i :: 0 <= i < |nodes| ==>
      nodes[i].nodeId in P.NodeById(nodes) && P.NodeById(nodes)[nodes[i].nodeId] == nodes[i]
  {
    if nodes != [] {
      var init, last := nodes[..|nodes| - 1], nodes[|nodes| - 1];
      assert P.DigitalIds(init) == P.DigitalIds(nodes)[..|init|];
      NodesByIndex(init);
      forall i | 0 <= i < |nodes|
        ensures nodes[i].nodeId in P.NodeById(nodes) && P.NodeById(nodes)[nodes[i].nodeId] == nodes[i]
      {
        if i < |init| {
          assert P.DigitalIds(nodes)[i] != P.DigitalIds(nodes)[|init|];
          assert init[i] == nodes[i];
        }
      }
    }
  }

  lemma LoadedNodeIds(c: Config)
    requires Loads(c) && c.digitalNodes != [] && Distinct(NodeIds(c.digitalNodes))
    ensures P.DigitalIds(Loaded(c).digitalNodes) == NodeIds(c.digitalNodes)
    ensures forall i :: 0 <= i < |c.digitalNodes| ==>
      && c.digitalNodes[i].nodeId in P.NodeById(Loaded(c).digitalNodes)
      && P.NodeById(Loaded(c).digitalNodes)[c.digitalNodes[i].nodeId] == LoadNode(c, c.digitalNodes[i])
  {
    hide NodeLoads, LoadNode, Distinct;
    var nodes := Loaded(c).digitalNodes;
    forall i | 0 <= i < |nodes|
      ensures nodes[i].nodeId == c.digitalNodes[i].nodeId && nodes[i] == LoadNode(c, c.digitalNodes[i])
    {
      LoadNodeKeepsId(c, c.digitalNodes[i]);
    }
    assert P.DigitalIds(nodes) == NodeIds(c.digitalNodes);
    NodesByIndex(nodes);
  }

  lemma LoadNodeKeepsId(c: Config, n: RawDigitalNode)
    requires NodeLoads(c, n)
    ensures LoadNode(c, n).nodeId == n.nodeId
  {
  }

  lemma LoadedNodeOk(c: Config, hostOk: HostRule, n: RawDigitalNode)
    requires c.IsV3() && DigitalNodeOk(c, n, hostOk) && c.VersionOf(n) == 3 && NodeLoads(c, n)
    requires Derived(c.outputs, Lengths(c.strips))[n.nodeId] >= 1
    ensures P.NodeIsSound(LoadNode(c, n)) && LoadNode(c, n).protocolVersion == 3
  {
  }

  lemma {:induction false} TotalIsPositive(outputs: seq<RawOutput>, lengths: map<string, int>)
    requires forall i :: 0 <= i < |outputs| ==> outputs[i].stripId in lengths && lengths[outputs[i].stripId] >= 1
    ensures TotalPixels(outputs, lengths) >= |outputs|
  {
    if outputs != [] {
      TotalIsPositive(outputs[..|outputs| - 1], lengths);
    }
  }

  lemma StripsAreNotEmpty(c: Config)
    requires NamesOk(c)
    ensures forall id :: id in Lengths(c.strips) ==> Lengths(c.strips)[id] >= 1
    ensures Lengths(c.strips).Keys == Elements(StripIds(c.strips))
  {
    LengthsByIndex(c.strips);
    forall id | id in Lengths(c.strips)
      ensures Lengths(c.strips)[id] >= 1
    {
      var i :| 0 <= i < |c.strips| && c.strips[i].id == id;
      assert Lengths(c.strips)[c.strips[i].id] == c.strips[i].pixelCount;
    }
    assert forall i :: 0 <= i < |c.strips| ==> StripIds(c.strips)[i] == c.strips[i].id;
  }

  /** The derived length of every accepted node is the total of its outputs, and positive. */
  lemma DerivedIsPositive(c: Config, hostOk: HostRule, i: nat)
    requires Accepted(c, hostOk) && c.IsV3() && Loads(c) && i < |c.digitalNodes|
    ensures var id := c.digitalNodes[i].nodeId; var mine := OutputsOf(c.outputs, id);
      && id in Derived(c.outputs, Lengths(c.strips))
      && Derived(c.outputs, Lengths(c.strips))[id] == TotalPixels(mine, Lengths(c.strips)) >= 1
  {
    hide Lengths, Derived, DigitalNodeOk, NodeLoads;
    var id := c.digitalNodes[i].nodeId;
    var mine := OutputsOf(c.outputs, id);
    assert NodeOutputsOk(c, c.digitalNodes[i]);
    DerivedIsTotal(c.outputs, Lengths(c.strips), id);
    OutputsStayTogether(c, c.outputs, id);
    StripsAreNotEmpty(c);
    TotalIsPositive(mine, Lengths(c.strips));
  }

  lemma LoadedNodeComplete(c: Config, hostOk: HostRule, i: nat)
    requires Accepted(c, hostOk) && c.IsV3() && Loads(c) && i < |c.digitalNodes|
    ensures P.NodeComplete(Loaded(c).digitalNodes[i], Loaded(c).outputs)
    ensures P.NodeIsSound(Loaded(c).digitalNodes[i]) && Loaded(c).digitalNodes[i].protocolVersion == 3
  {
    hide Lengths, Derived, Accepted, DigitalNodeOk, Distinct;
    assert NodeOutputsOk(c, c.digitalNodes[i]) && DigitalNodeOk(c, c.digitalNodes[i], hostOk)
        && c.VersionOf(c.digitalNodes[i]) == 3 by { AcceptedParts(c, hostOk); }
    var n := c.digitalNodes[i];
    DerivedIsPositive(c, hostOk, i);
    LoadedNodeOk(c, hostOk, n);
    OutputsStayTogether(c, c.outputs, n.nodeId);
    var mine := OutputsOf(c.outputs, n.nodeId);
    TotalsAgree(c, mine);
    var loaded := LoadOutputs(c, mine);
    assert P.IdsOf(loaded) == OutputIds(mine);
    assert P.GpiosOf(loaded) == Gpios(mine);
  }

  lemma AcceptedParts(c: Config, hostOk: HostRule)
    requires Accepted(c, hostOk) && c.IsV3()
    ensures forall i :: 0 <= i < |c.digitalNodes| ==>
      && NodeOutputsOk(c, c.digitalNodes[i]) && DigitalNodeOk(c, c.digitalNodes[i], hostOk)
      && c.VersionOf(c.digitalNodes[i]) == 3
    ensures forall i :: 0 <= i < |c.outputs| ==> OutputOk(c, c.outputs[i])
    ensures Distinct(OutputStrips(c.outputs)) && Elements(OutputStrips(c.outputs)) == Elements(StripIds(c.strips))
    ensures c.segments == [] && c.outputs != [] && c.digitalNodes != []
  {
    assert OutputOk(c, c.outputs[0]);
  }

  lemma LoadedOutputSound(c: Config, hostOk: HostRule, i: nat)
    requires Accepted(c, hostOk) && c.IsV3() && Loads(c) && i < |c.outputs|
    ensures P.OutputIsSound(Loaded(c), Loaded(c).outputs[i])
  {
    hide Lengths, Derived, Accepted, DigitalNodeOk, Distinct, NodeLoads, P.NodeById;
    AcceptedParts(c, hostOk);
    assert NamesOk(c) && Distinct(NodeIds(c.digitalNodes)) by { AcceptedNames(c, hostOk); }
    StripsAreNotEmpty(c);
    LoadedNodeIds(c);
    var o := c.outputs[i];
    assert OutputOk(c, o) && OutputLoads(c, o) && Loaded(c).outputs[i] == LoadOutput(c, o);
    var j :| 0 <= j < |c.digitalNodes| && NodeIds(c.digitalNodes)[j] == o.nodeId;
    LoadedNodeComplete(c, hostOk, j);
  }

  lemma LoadedOutputsOk(c: Config, hostOk: HostRule)
    requires Accepted(c, hostOk) && c.IsV3() && Loads(c)
    ensures P.OutputsOk(Loaded(c))
  {
    hide Lengths, Derived, Accepted, DigitalNodeOk, Distinct, NodeLoads, P.NodeById, P.OutputIsSound, P.NodeComplete;
    AcceptedParts(c, hostOk);
    assert NamesOk(c) && Distinct(NodeIds(c.digitalNodes)) by { AcceptedNames(c, hostOk); }
    var l := Loaded(c);
    StripsAreNotEmpty(c);
    LoadedNodeIds(c);
    forall i | 0 <= i < |l.outputs|
      ensures P.OutputIsSound(l, l.outputs[i])
    {
      LoadedOutputSound(c, hostOk, i);
    }
    assert P.StripsOf(l.outputs) == OutputStrips(c.outputs);
    forall i | 0 <= i < |l.digitalNodes|
      ensures P.NodeComplete(l.digitalNodes[i], l.outputs)
    {
      LoadedNodeComplete(c, hostOk, i);
    }
  }

  lemma AcceptedNames(c: Config, hostOk: HostRule)
    requires Accepted(c, hostOk)
    ensures NamesOk(c) && Distinct(NodeIds(c.digitalNodes))
  {
  }

  lemma LoadedNodesOk(c: Config, hostOk: HostRule)
    requires Accepted(c, hostOk) && c.IsV3() && Loads(c)
    ensures P.DigitalNodesOk(Loaded(c)) && P.AnalogNodesOk(Loaded(c))
    ensures |Loaded(c).digitalNodes| == |c.digitalNodes|
    ensures forall i :: 0 <= i < |c.digitalNodes| ==> Loaded(c).digitalNodes[i].protocolVersion == 3
  {
    hide Lengths, Derived, Distinct, P.NodeIsSound, DigitalNodeOk;
    AcceptedNames(c, hostOk);
    AcceptedNodesLoad(c, hostOk);
    LoadedNodeIds(c);
    var l := Loaded(c);
    forall i | 0 <= i < |l.digitalNodes|
      ensures P.NodeIsSound(l.digitalNodes[i]) && l.digitalNodes[i].protocolVersion == 3
      ensures l.digitalNodes[i].nodeId == c.digitalNodes[i].nodeId
    {
      LoadedNodeComplete(c, hostOk, i);
      LoadNodeKeepsId(c, c.digitalNodes[i]);
    }
  }

  /** After the first validator has accepted a topology-v3 configuration and its layout has loaded, the second accepts
      the layout if and only if there is an analog node or the policy is a one-output policy. */
  lemma SecondValidatorAcceptsIff(c: Config, hostOk: HostRule)
    requires Accepted(c, hostOk) && c.IsV3() && Loads(c)
    ensures P.PhysicalOk(Loaded(c)) <==> |c.analogNodes| == 1 || c.OneOutputEach()
  {
    hide Lengths, Derived, P.DigitalNodesOk, P.AnalogNodesOk, P.OutputsOk, NodeLoads, DigitalOk, V3Ok,
         P.NodePixelCounts;
    LoadedNodesOk(c, hostOk);
    LoadedOutputsOk(c, hostOk);
    AcceptedParts(c, hostOk);
    var l := Loaded(c);
    assert l.outputs != [];
    assert SegmentsOk(l.segments, Lengths(l.strips), P.NodePixelCounts(l.digitalNodes));
  }

  /** In particular, under both deployment policies the second validator never fires. */
  lemma OneOutputPoliciesNeverRefused(c: Config, hostOk: HostRule)
    requires Accepted(c, hostOk) && c.IsV3() && Loads(c) && c.OneOutputEach()
    ensures P.PhysicalOk(Loaded(c))
  {
    SecondValidatorAcceptsIff(c, hostOk);
  }

  // --- rooms that show the difference ------------------------------------------------------------

  /** One strip on one node, under the given policy. */
  function OneStripRoom(
      policy: string, zones: seq<Zone>, strip: Strip, analogNodes: seq<AnalogNode>): Config
  {
    Config(3, Some(policy), false, {"ddp"}, false, zones, [strip], analogNodes,
           [RawDigitalNode(1, "h", 1, true, None, None, None)], [], [RawOutput(1, 1, 4, strip.id, None, FORWARD)],
           [], [], UdpDefaults("h", 9001, 4096), [])
  }

  lemma OneStripOutputs(policy: string, zones: seq<Zone>, strip: Strip, analogNodes: seq<AnalogNode>)
    ensures var c := OneStripRoom(policy, zones, strip, analogNodes);
      && Lengths(c.strips) == map[strip.id := strip.pixelCount]
      && StripIds(c.strips) == [strip.id] && NodeIds(c.digitalNodes) == [1] && OutputStrips(c.outputs) == [strip.id]
      && OutputsOf(c.outputs, 1) == c.outputs && TotalPixels(c.outputs, Lengths(c.strips)) == strip.pixelCount
  {
    var c := OneStripRoom(policy, zones, strip, analogNodes);
    assert c.strips[..0] == [] && c.outputs[..0] == [] && c.digitalNodes[..0] == [];
  }

  lemma OneStripRoomIsAccepted(
      policy: string, zones: seq<Zone>, strip: Strip, analogNodes: seq<AnalogNode>, hostOk: HostRule)
    requires policy in {DIAGNOSTIC, GPIO4, WLED} && strip.id != "" && strip.pixelCount >= 1 && hostOk("h")
    requires var c := OneStripRoom(policy, zones, strip, analogNodes); NamesOk(c) && AnalogOk(c)
    requires forall i :: 0 <= i < |analogNodes| ==> analogNodes[i].nodeId != 1
    ensures Accepted(OneStripRoom(policy, zones, strip, analogNodes), hostOk)
  {
    hide Lengths, OutputsOf, TotalPixels, NodeIds, StripIds, OutputStrips, NamesOk, AnalogOk;
    var c := OneStripRoom(policy, zones, strip, analogNodes);
    OneStripOutputs(policy, zones, strip, analogNodes);
    assert OutputOk(c, c.outputs[0]);
    assert NodeOutputsOk(c, c.digitalNodes[0]);
    assert V3Ok(c);
  }

  /** A room without analog lights under the diagnostic policy: the first validator accepts it, the second does not. */
  lemma DiagnosticRoomIsRefused(hostOk: HostRule)
    requires hostOk("h")
    ensures var c := OneStripRoom(DIAGNOSTIC, [], Strip("a", 1, "center", FORWARD), []);
      Accepted(c, hostOk) && Loads(c) && !P.PhysicalOk(Loaded(c))
  {
    var c := OneStripRoom(DIAGNOSTIC, [], Strip("a", 1, "center", FORWARD), []);
    OneStripRoomIsAccepted(DIAGNOSTIC, [], c.strips[0], [], hostOk);
    AcceptedLoads(c, hostOk);
    SecondValidatorAcceptsIff(c, hostOk);
  }

  /** An accepted room that does not load: its analog node authors an empty video zone. */
  lemma EmptyVideoZoneStopsTheLoader(hostOk: HostRule)
    requires hostOk("h")
    ensures var z, n := Zone("z", "center", FORWARD), AnalogNode(2, "z", 0, "RGBWC", "");
      var c := OneStripRoom(WLED, [z], Strip("a", 1, "center", FORWARD), [n]); Accepted(c, hostOk) && !Loads(c)
  {
    hide Loads, Accepted;
    var z, n := Zone("z", "center", FORWARD), AnalogNode(2, "z", 0, "RGBWC", "");
    assert ZoneIds([z]) == ["z"];
    var c := OneStripRoom(WLED, [z], Strip("a", 1, "center", FORWARD), [n]);
    OneStripRoomIsAccepted(WLED, [z], c.strips[0], [n], hostOk);
    assert c.analogNodes[0].videoZone == "";
    AcceptedLoads(c, hostOk);
  }

  /** Another: its strip authors an unknown video zone. */
  lemma UnknownVideoZoneStopsTheLoader(hostOk: HostRule)
    requires hostOk("h")
    ensures var c := OneStripRoom(WLED, [], Strip("a", 1, "bogus", FORWARD), []); Accepted(c, hostOk) && !Loads(c)
  {
    hide Loads, Accepted;
    var c := OneStripRoom(WLED, [], Strip("a", 1, "bogus", FORWARD), []);
    OneStripRoomIsAccepted(WLED, [], c.strips[0], [], hostOk);
    assert c.strips[0].videoZone == "bogus";
    AcceptedLoads(c, hostOk);
  }
}
