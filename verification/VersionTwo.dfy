/** Rooms of topology version 2, with authored nodes, segments and outputs or derived ones: when the second validator
    still accepts what the first accepted and the loader loaded. */
module VersionTwo {
  import opened Util
  import opened Lists
  import opened Topology
  import opened Layouts
  import V = ValidatorAgreement
  import P = PhysicalMapping

  /** An authored node of this number speaks version 3. */
  predicate SpeaksV3(c: Config, nodeId: int) {
    exists i :: 0 <= i < |c.digitalNodes| && c.digitalNodes[i].nodeId == nodeId && c.VersionOf(c.digitalNodes[i]) == 3
  }

  /** What the first validator asks of outputs in version 3 only. */
  predicate AuthoredOutputsOk(c: Config) {
    && (forall i :: 0 <= i < |c.outputs| ==> OutputOk(c, c.outputs[i]) && SpeaksV3(c, c.outputs[i].nodeId))
    && Distinct(OutputStrips(c.outputs)) && Elements(OutputStrips(c.outputs)) == Elements(StripIds(c.strips))
    && (forall i :: 0 <= i < |c.digitalNodes| && c.VersionOf(c.digitalNodes[i]) == 3 ==>
          NodeOutputsOk(c, c.digitalNodes[i]))
  }

  predicate NoVersionThree(c: Config) {
    forall i :: 0 <= i < |c.digitalNodes| ==> c.VersionOf(c.digitalNodes[i]) != 3
  }

  /** What the second validator asks of a version-2 room beyond the first one's rules. */
  predicate PassesInVersionTwo(c: Config) {
    && |c.analogNodes| == 6
    && (if c.outputs != [] then AuthoredOutputsOk(c) else NoVersionThree(c))
    && (c.digitalNodes == [] && c.strips != [] ==> 3 * TotalLength(c.strips) <= c.udp.maxPacketSize)
    && (c.digitalNodes != [] && c.segments == [] ==>
          c.digitalNodes[0].pixelCount.Some? ==> TotalLength(c.strips) <= c.digitalNodes[0].pixelCount.value)
  }

  // --- nodes and outputs -------------------------------------------------------------------------

  lemma {:induction false} NodeByIdKeys(nodes: seq<DigitalNode>, id: int)
    ensures id in P.NodeById(nodes) <==> exists i :: 0 <= i < |nodes| && nodes[i].nodeId == id
  {
    if nodes != [] {
      var init := nodes[..|nodes| - 1];
      NodeByIdKeys(init, id);
      if id in P.NodeById(init) {
        var i :| 0 <= i < |init| && init[i].nodeId == id;
        assert nodes[i].nodeId == id;
      }
      if i :| 0 <= i < |nodes| && nodes[i].nodeId == id {
        assert i < |init| ==> init[i].nodeId == id;
      }
    }
  }

  /** The authored nodes of an accepted version-2 configuration load as sound nodes of the same numbers. */
  lemma AuthoredNodesAreSound(c: Config, hostOk: HostRule)
    requires Accepted(c, hostOk) && !c.IsV3() && Loads(c) && c.digitalNodes != []
    ensures forall i :: 0 <= i < |c.digitalNodes| ==>
      && P.NodeIsSound(Loaded(c).digitalNodes[i])
      && Loaded(c).digitalNodes[i].nodeId == c.digitalNodes[i].nodeId
      && Loaded(c).digitalNodes[i].protocolVersion == c.VersionOf(c.digitalNodes[i])
      && Some(Loaded(c).digitalNodes[i].pixelCount) == c.digitalNodes[i].pixelCount
    ensures |Loaded(c).digitalNodes| == |c.digitalNodes|
  {
    hide Lengths, Distinct, SegmentsOk, NamesOk, AnalogOk, PolicyOk, Derived;
    forall i | 0 <= i < |c.digitalNodes|
      ensures P.NodeIsSound(Loaded(c).digitalNodes[i])
    {
      assert DigitalNodeOk(c, c.digitalNodes[i], hostOk) && NodeLoads(c, c.digitalNodes[i]);
    }
  }

  lemma NodeOfId(c: Config, hostOk: HostRule, id: int)
    requires Accepted(c, hostOk) && !c.IsV3() && Loads(c) && c.digitalNodes != []
    ensures var nodes := P.NodeById(Loaded(c).digitalNodes);
      && (id in nodes <==> id in NodeIds(c.digitalNodes))
      && (id in nodes ==> (nodes[id].protocolVersion == 3 <==> SpeaksV3(c, id)))
  {
    hide Lengths, Accepted, Loads, Loaded, P.NodeIsSound, Distinct, P.NodeById, NodeLoads, MappingLoads;
    LoadsMapping(c);
    AuthoredNodesAreSound(c, hostOk);
    AcceptedIds(c, hostOk);
    V.LoadedNodeIds(c);
    var nodes := Loaded(c).digitalNodes;
    NodeByIdKeys(nodes, id);
    if i :| 0 <= i < |nodes| && nodes[i].nodeId == id {
      assert NodeIds(c.digitalNodes)[i] == id;
      SameNode(c, i);
      assert P.NodeById(nodes)[c.digitalNodes[i].nodeId] == nodes[i];
    }
    if id in NodeIds(c.digitalNodes) {
      var j :| 0 <= j < |c.digitalNodes| && NodeIds(c.digitalNodes)[j] == id;
      assert nodes[j].nodeId == id;
    }
  }

  lemma LoadsMapping(c: Config)
    requires Loads(c)
    ensures MappingLoads(c)
    ensures forall i :: 0 <= i < |c.outputs| ==> OutputLoads(c, c.outputs[i])
    ensures forall i :: 0 <= i < |c.digitalNodes| ==> NodeLoads(c, c.digitalNodes[i])
    ensures Loaded(c).outputs == LoadOutputs(c, c.outputs) && Loaded(c).strips == c.strips
    ensures c.digitalNodes != [] ==> Loaded(c).digitalNodes == LoadNodes(c, c.digitalNodes)
  {
  }

  lemma AcceptedIds(c: Config, hostOk: HostRule)
    requires Accepted(c, hostOk)
    ensures Distinct(NodeIds(c.digitalNodes)) && NamesOk(c)
  {
  }

  /** Node numbers are not repeated. */
  lemma SameNode(c: Config, i: nat)
    requires Distinct(NodeIds(c.digitalNodes)) && i < |c.digitalNodes|
    ensures SpeaksV3(c, c.digitalNodes[i].nodeId) <==> c.VersionOf(c.digitalNodes[i]) == 3
  {
    if SpeaksV3(c, c.digitalNodes[i].nodeId) {
      var j :| 0 <= j < |c.digitalNodes| && c.digitalNodes[j].nodeId == c.digitalNodes[i].nodeId
            && c.VersionOf(c.digitalNodes[j]) == 3;
      assert NodeIds(c.digitalNodes)[i] == NodeIds(c.digitalNodes)[j];
    }
  }

  /** The second validator's rule for one output is the first one's version-3 rule. */
  lemma OutputsAreSoundAlike(c: Config, hostOk: HostRule, i: nat)
    requires Accepted(c, hostOk) && !c.IsV3() && Loads(c) && c.digitalNodes != [] && i < |c.outputs|
    ensures P.OutputIsSound(Loaded(c), Loaded(c).outputs[i])
       <==> OutputOk(c, c.outputs[i]) && SpeaksV3(c, c.outputs[i].nodeId)
  {
    hide Lengths, Accepted, Loads, Loaded, P.NodeById, Distinct, NodeLoads, MappingLoads, SpeaksV3, NodeIds;
    LoadsMapping(c);
    NodeOfId(c, hostOk, c.outputs[i].nodeId);
    NoPolicy(c, hostOk);
  }

  lemma NoPolicy(c: Config, hostOk: HostRule)
    requires Accepted(c, hostOk) && !c.IsV3()
    ensures c.policy == None && (|c.analogNodes| == 6 || (c.analogNodes == [] && c.zones == []))
    ensures SegmentsOk(c.segments, Lengths(c.strips), NodeLengths(c.digitalNodes))
  {
  }

  lemma {:induction false} TotalsAgree(c: Config, outputs: seq<RawOutput>)
    requires forall i :: 0 <= i < |outputs| ==> OutputLoads(c, outputs[i]) && OutputOk(c, outputs[i])
    ensures P.Total(LoadOutputs(c, outputs)) == TotalPixels(outputs, Lengths(c.strips))
  {
    hide Lengths;
    if outputs != [] {
      var init := outputs[..|outputs| - 1];
      TotalsAgree(c, init);
      var loaded := LoadOutputs(c, outputs);
      assert loaded[..|loaded| - 1] == LoadOutputs(c, init);
      assert OutputOk(c, outputs[|outputs| - 1]);
    }
  }

  lemma {:induction false} OutputsOfAreOk(c: Config, outputs: seq<RawOutput>, nodeId: int)
    requires forall i :: 0 <= i < |outputs| ==> OutputOk(c, outputs[i])
    ensures forall i :: 0 <= i < |OutputsOf(outputs, nodeId)| ==> OutputOk(c, OutputsOf(outputs, nodeId)[i])
  {
    hide OutputOk;
    if outputs != [] {
      OutputsOfAreOk(c, outputs[..|outputs| - 1], nodeId);
    }
  }

  lemma NodesAreCompleteAlike(c: Config, hostOk: HostRule, i: nat)
    requires Accepted(c, hostOk) && !c.IsV3() && Loads(c) && i < |c.digitalNodes|
    requires forall k :: 0 <= k < |c.outputs| ==> OutputOk(c, c.outputs[k])
    ensures P.NodeComplete(Loaded(c).digitalNodes[i], Loaded(c).outputs) <==> NodeOutputsOk(c, c.digitalNodes[i])
  {
    hide Lengths, Accepted, Loads, Loaded, Distinct, NodeLoads, MappingLoads, OutputLoads, OutputOk, P.NodeIsSound;
    LoadsMapping(c);
    NoPolicy(c, hostOk);
    AuthoredNodesAreSound(c, hostOk);
    var id := c.digitalNodes[i].nodeId;
    V.OutputsStayTogether(c, c.outputs, id);
    var mine := OutputsOf(c.outputs, id);
    OutputsOfAreOk(c, c.outputs, id);
    TotalsAgree(c, mine);
    var loaded := LoadOutputs(c, mine);
    LoadedFields(c, mine);
    assert P.IdsOf(loaded) == OutputIds(mine);
    assert P.GpiosOf(loaded) == Gpios(mine);
  }

  lemma LoadedFields(c: Config, outputs: seq<RawOutput>)
    requires forall i :: 0 <= i < |outputs| ==> OutputLoads(c, outputs[i])
    ensures var loaded := LoadOutputs(c, outputs);
      forall i :: 0 <= i < |outputs| ==>
        && loaded[i].outputId == outputs[i].outputId && loaded[i].gpio == outputs[i].gpio
        && loaded[i].stripId == outputs[i].stripId && loaded[i].nodeId == outputs[i].nodeId
  {
    hide OutputLoads;
  }

  lemma OutputsAgree(c: Config, hostOk: HostRule)
    requires Accepted(c, hostOk) && !c.IsV3() && Loads(c) && c.digitalNodes != []
    ensures P.OutputsOk(Loaded(c)) <==> AuthoredOutputsOk(c)
  {
    hide Lengths, Accepted, Loads, Loaded, Distinct, NodeLoads, MappingLoads, OutputLoads, OutputOk, P.NodeIsSound,
         P.OutputIsSound, SpeaksV3, P.NodeComplete, NodeOutputsOk, NamesOk;
    LoadsMapping(c);
    AuthoredNodesAreSound(c, hostOk);
    AcceptedIds(c, hostOk);
    V.StripsAreNotEmpty(c);
    var l := Loaded(c);
    forall i | 0 <= i < |c.outputs|
      ensures P.OutputIsSound(l, l.outputs[i]) <==> OutputOk(c, c.outputs[i]) && SpeaksV3(c, c.outputs[i].nodeId)
    {
      OutputsAreSoundAlike(c, hostOk, i);
    }
    LoadedFields(c, c.outputs);
    assert P.StripsOf(l.outputs) == OutputStrips(c.outputs);
    if forall i :: 0 <= i < |c.outputs| ==> OutputOk(c, c.outputs[i]) {
      forall i | 0 <= i < |c.digitalNodes|
        ensures P.NodeComplete(l.digitalNodes[i], l.outputs) <==> NodeOutputsOk(c, c.digitalNodes[i])
      {
        NodesAreCompleteAlike(c, hostOk, i);
      }
    }
  }

  // --- derived nodes and segments ----------------------------------------------------------------

  lemma {:induction false} HighestIsHighest(nodes: seq<AnalogNode>, i: nat)
    requires i < |nodes|
    ensures nodes[i].nodeId <= HighestId(nodes)
  {
    if |nodes| > 1 && i < |nodes| - 1 {
      HighestIsHighest(nodes[..|nodes| - 1], i);
    }
  }

  lemma {:induction false} CountsAgree(c: Config, nodes: seq<RawDigitalNode>)
    requires !c.IsV3() && forall i :: 0 <= i < |nodes| ==> NodeLoads(c, nodes[i])
    ensures P.NodePixelCounts(LoadNodes(c, nodes)) == NodeLengths(nodes)
  {
    hide Derived, Lengths;
    if nodes != [] {
      var init := nodes[..|nodes| - 1];
      CountsAgree(c, init);
      var loaded := LoadNodes(c, nodes);
      assert loaded[..|loaded| - 1] == LoadNodes(c, init);
      assert NodeLoads(c, nodes[|nodes| - 1]);
    }
  }

  /** The first node's length, as loaded. */
  lemma FirstCount(c: Config)
    requires !c.IsV3() && Loads(c) && c.digitalNodes != [] && Distinct(NodeIds(c.digitalNodes))
    ensures var counts, n := NodeLengths(c.digitalNodes), c.digitalNodes[0];
      n.pixelCount.Some? && n.nodeId in counts && counts[n.nodeId] == n.pixelCount.value >= 1
  {
    hide Derived, Lengths, NodeLengths;
    assert NodeLoads(c, c.digitalNodes[0]);
    CountOfFirst(c.digitalNodes);
  }

  lemma {:induction false} CountOfFirst(nodes: seq<RawDigitalNode>)
    requires nodes != [] && Distinct(NodeIds(nodes)) && nodes[0].pixelCount.Some?
    ensures nodes[0].nodeId in NodeLengths(nodes) && NodeLengths(nodes)[nodes[0].nodeId] == nodes[0].pixelCount.value
  {
    if |nodes| > 1 {
      var init := nodes[..|nodes| - 1];
      assert NodeIds(init) == NodeIds(nodes)[..|init|];
      assert NodeIds(nodes)[0] != NodeIds(nodes)[|init|];
      CountOfFirst(init);
    } else {
      assert nodes[..0] == [];
    }
  }

  /** Loaded segments, authored or derived, pass the second validator unless derived ones do not fit the first node. */
  lemma AuthoredNodeSegments(c: Config, hostOk: HostRule)
    requires Accepted(c, hostOk) && !c.IsV3() && Loads(c) && c.digitalNodes != []
    ensures var l := Loaded(c);
      SegmentsOk(l.segments, Lengths(l.strips), P.NodePixelCounts(l.digitalNodes))
      <==> (c.segments == [] ==> TotalLength(c.strips) <= c.digitalNodes[0].pixelCount.value)
  {
    hide Lengths, SegmentsOk, Accepted, Distinct, NodeLengths, P.NodePixelCounts, NodeLoads;
    LoadsMapping(c);
    NoPolicy(c, hostOk);
    AcceptedIds(c, hostOk);
    CountsAgree(c, c.digitalNodes);
    FirstCount(c);
    var n := c.digitalNodes[0];
    assert NodeLoads(c, n);
    if c.segments == [] {
      assert n.nodeId >= 1 by { NodeIsNumbered(c, n); }
      assert Loaded(c).digitalNodes[0].nodeId == n.nodeId by { V.LoadNodeKeepsId(c, n); }
      assert Distinct(StripIds(c.strips));
      DefaultSegmentsFitIff(c.strips, n.nodeId, NodeLengths(c.digitalNodes));
    }
  }

  lemma NodeIsNumbered(c: Config, n: RawDigitalNode)
    requires NodeLoads(c, n)
    ensures n.nodeId >= 1
  {
  }

  lemma DerivedNodeSegments(c: Config, hostOk: HostRule)
    requires Accepted(c, hostOk) && !c.IsV3() && Loads(c) && c.digitalNodes == [] && HighestId(c.analogNodes) >= 0
    ensures var l := Loaded(c); SegmentsOk(l.segments, Lengths(l.strips), P.NodePixelCounts(l.digitalNodes))
    ensures c.segments == []
  {
    hide Lengths, Distinct;
    assert c.segments != [] ==> !SegmentFits(c.segments[0], Lengths(c.strips), NodeLengths(c.digitalNodes));
    var l := Loaded(c);
    if c.strips != [] {
      assert l.digitalNodes[..0] == [];
      assert P.NodePixelCounts(l.digitalNodes) == map[SoleNode(c).nodeId := TotalLength(c.strips)];
      TotalIsNatural(c.strips);
      DefaultSegmentsFitIff(c.strips, SoleNode(c).nodeId, P.NodePixelCounts(l.digitalNodes));
    } else {
      assert l.segments == [];
    }
  }

  lemma SoleNodeIsSound(c: Config)
    requires Loads(c) && c.strips != [] && c.digitalNodes == [] && HighestId(AnalogOf(c)) >= 0
    ensures P.NodeIsSound(SoleNode(c)) <==> 3 * TotalLength(c.strips) <= c.udp.maxPacketSize
  {
    TotalGrows(c.strips, 0, 1);
    assert c.strips[..1][..0] == c.strips[..0] == [];
    assert TotalLength(c.strips[..1]) == c.strips[0].pixelCount;
  }

  // --- the rooms that pass -----------------------------------------------------------------------

  lemma AuthoredRoom(c: Config, hostOk: HostRule)
    requires Accepted(c, hostOk) && !c.IsV3() && Loads(c) && c.digitalNodes != []
    ensures P.PhysicalOk(Loaded(c)) <==> PassesInVersionTwo(c)
  {
    hide Lengths, SegmentsOk, Distinct, P.OutputsOk, AuthoredOutputsOk, P.NodeIsSound, NodeLoads, P.NodePixelCounts;
    AuthoredNodeSegments(c, hostOk);
    AuthoredNodesAreSound(c, hostOk);
    OutputsAgree(c, hostOk);
    NoPolicy(c, hostOk);
    AcceptedIds(c, hostOk);
    FirstCount(c);
    var l := Loaded(c);
    assert P.DigitalIds(l.digitalNodes) == NodeIds(c.digitalNodes);
  }

  lemma LoadedAnalogNodes(c: Config, hostOk: HostRule)
    requires Accepted(c, hostOk) && !c.IsV3() && Loads(c) && |c.analogNodes| == 6
    ensures P.AnalogNodesOk(Loaded(c)) && Loaded(c).analogNodes == c.analogNodes && HighestId(c.analogNodes) >= 0
    ensures forall j :: 0 <= j < |c.analogNodes| ==> c.analogNodes[j].nodeId < HighestId(c.analogNodes) + 1
  {
    hide Lengths, SegmentsOk, Distinct, NodeLoads, SegmentsOf, LoadOutputs, NodesOf;
    forall j | 0 <= j < |c.analogNodes|
      ensures c.analogNodes[j].nodeId < HighestId(c.analogNodes) + 1
    {
      HighestIsHighest(c.analogNodes, j);
    }
  }

  lemma DerivedNodesAreSound(c: Config, hostOk: HostRule)
    requires Accepted(c, hostOk) && !c.IsV3() && Loads(c) && c.digitalNodes == [] && |c.analogNodes| == 6
    ensures P.DigitalNodesOk(Loaded(c)) <==> (c.strips != [] ==> 3 * TotalLength(c.strips) <= c.udp.maxPacketSize)
    ensures forall i :: 0 <= i < |Loaded(c).digitalNodes| ==> Loaded(c).digitalNodes[i].protocolVersion == 2
  {
    hide Accepted, SegmentsOf, LoadOutputs, P.NodeIsSound, HighestId, P.AnalogNodesOk, Distinct, AnalogFromZones;
    LoadedAnalogNodes(c, hostOk);
    var nodes := Loaded(c).digitalNodes;
    OneIsDistinct(P.DigitalIds(nodes));
    if c.strips != [] {
      SoleNodeIsSound(c);
      assert nodes == [SoleNode(c)];
      assert P.NodeIsSound(nodes[0]) <==> 3 * TotalLength(c.strips) <= c.udp.maxPacketSize;
    }
  }

  lemma DerivedRoom(c: Config, hostOk: HostRule)
    requires Accepted(c, hostOk) && !c.IsV3() && Loads(c) && c.digitalNodes == []
    ensures P.PhysicalOk(Loaded(c)) <==> PassesInVersionTwo(c)
  {
    hide Lengths, SegmentsOk, Accepted, MappingLoads, P.NodePixelCounts, P.AnalogNodesOk, P.DigitalNodesOk, SegmentsOf,
         AuthoredOutputsOk, P.OutputsOk;
    NoPolicy(c, hostOk);
    if c.outputs != [] {
      OutputsNeedNodes(c);
    } else if |c.analogNodes| == 6 {
      LoadedAnalogNodes(c, hostOk);
      DerivedNodesAreSound(c, hostOk);
      DerivedNodeSegments(c, hostOk);
    }
  }

  /** A node that is not authored speaks version 2, and has no room for outputs of its own. */
  lemma OutputsNeedNodes(c: Config)
    requires !c.IsV3() && Loads(c) && c.digitalNodes == [] && c.outputs != []
    ensures !P.PhysicalOk(Loaded(c)) && !PassesInVersionTwo(c)
  {
    hide Lengths, SegmentsOk, Distinct, P.NodePixelCounts, OutputOk;
    var l, o := Loaded(c), c.outputs[0];
    NodeByIdKeys(l.digitalNodes, o.nodeId);
    assert !SpeaksV3(c, o.nodeId);
    if c.strips != [] {
      assert l.digitalNodes[..0] == [];
    }
    assert !P.OutputIsSound(l, l.outputs[0]);
  }

  lemma OneIsDistinct<T>(s: seq<T>)
    requires |s| <= 1
    ensures Distinct(s)
  {
  }

  /** After the first validator has accepted a version-2 configuration and its layout has loaded, the second accepts
      the layout if and only if there are six analog nodes; the outputs, if any, meet the rules that the first
      validator has for version 3, and without outputs no node speaks version 3; a derived node fits one datagram; and
      derived segments fit the first node. */
  lemma SecondValidatorAcceptsIff(c: Config, hostOk: HostRule)
    requires Accepted(c, hostOk) && !c.IsV3() && Loads(c)
    ensures P.PhysicalOk(Loaded(c)) <==> PassesInVersionTwo(c)
  {
    if c.digitalNodes != [] {
      AuthoredRoom(c, hostOk);
    } else {
      DerivedRoom(c, hostOk);
    }
  }

  /** In particular, a room that authors neither digital nodes nor segments: six analog nodes, no outputs, and strips
      that fit one datagram. */
  lemma DerivedRoomAcceptedIff(c: Config, hostOk: HostRule)
    requires Accepted(c, hostOk) && !c.IsV3() && Loads(c) && c.digitalNodes == [] && c.segments == []
    ensures P.PhysicalOk(Loaded(c)) <==>
      && |c.analogNodes| == 6 && c.outputs == []
      && (c.strips != [] ==> 3 * TotalLength(c.strips) <= c.udp.maxPacketSize)
  {
    hide P.PhysicalOk, Loaded, Accepted, Loads;
    SecondValidatorAcceptsIff(c, hostOk);
    if c.outputs != [] && AuthoredOutputsOk(c) {
      assert SpeaksV3(c, c.outputs[0].nodeId);
    }
  }
}
