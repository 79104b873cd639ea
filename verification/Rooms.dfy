/** The whole loader: topology, virtual paths, second validator; and which of the configurations that the first
    validator accepts make a room. */
module Rooms {
  import opened Util
  import opened Lists
  import opened Topology
  import opened Layouts
  import opened VersionTwo
  import V = ValidatorAgreement
  import P = PhysicalMapping
  import VP = VirtualPaths

  datatype Room = Room(layout: Layout, virtualPaths: seq<VP.NamedPath>)

  predicate MakesRoom(c: Config) {
    Loads(c) && VP.ValidPaths(c.virtualPaths, Lengths(c.strips)) && P.PhysicalOk(Loaded(c))
  }

  method FromConfig(c: Config) returns (r: Option<Room>)
    ensures r.Some? <==> MakesRoom(c)
    ensures r.Some? ==>
      && r.value.layout == Loaded(c) && |r.value.virtualPaths| == |c.virtualPaths|
      && forall i :: 0 <= i < |c.virtualPaths| ==>
           var raw := c.virtualPaths[i];
           VP.Layable(raw.segments) && r.value.virtualPaths[i] == VP.NamedPath(raw.id, VP.Laid(raw.segments))
  {
    hide Loads, P.PhysicalOk, VP.ValidPaths, VP.Laid, VP.Layable, Lengths, MappingLoads, Loaded;
    var layout := LoadTopology(c);
    if layout.None? {
      return None;
    }
    assert layout.value.strips == c.strips by { LoadedStrips(c); }
    var paths := VP.BuildVirtualPaths(c.virtualPaths, Lengths(layout.value.strips));
    if paths.Err? {
      return None;
    }
    var ok := P.Validate(layout.value);
    if !ok {
      return None;
    }
    return Some(Room(layout.value, paths.value));
  }

  lemma LoadedStrips(c: Config)
    requires Loads(c)
    ensures Loaded(c).strips == c.strips
  {
  }

  // --- version 2: what the first validator leaves to the loader ----------------------------------

  /** The fields that the first validator looks at in version 3 only, or not at all. */
  predicate UncheckedInVersionTwoOk(c: Config) {
    && (forall i :: 0 <= i < |c.segments| ==> c.segments[i].videoZone != "")
    && (forall i :: 0 <= i < |c.outputs| ==>
          var o := c.outputs[i];
          && o.nodeId >= 1 && o.stripId != "" && o.pixelCount.Some? && o.pixelCount.value >= 1
          && o.outputId >= 1 && o.gpio >= 0 && o.direction != "")
    && (c.digitalNodes == [] && c.strips != [] ==> c.udp.port >= 1 && c.udp.maxPacketSize >= 1)
  }

  /** Once the first validator has accepted a version-2 configuration, its layout loads if and only if the fields that
      this validator does not look at are in order. */
  lemma AcceptedLoadsInVersionTwo(c: Config, hostOk: HostRule)
    requires Accepted(c, hostOk) && !c.IsV3()
    ensures Loads(c) <==> V.UncheckedFieldsOk(c) && UncheckedInVersionTwoOk(c)
  {
    hide Lengths, Derived, Distinct, VP.ValidPaths;
    forall i | 0 <= i < |c.zones|
      ensures c.zones[i].id != ""
    {
      assert ZoneIds(c.zones)[i] == c.zones[i].id;
    }
    forall i | 0 <= i < |c.digitalNodes|
      ensures NodeLoads(c, c.digitalNodes[i])
    {
      assert DigitalNodeOk(c, c.digitalNodes[i], hostOk);
    }
    forall i | 0 <= i < |c.segments|
      ensures SegmentLoads(c.segments[i]) <==> c.segments[i].videoZone != ""
    {
      assert SegmentFits(c.segments[i], Lengths(c.strips), NodeLengths(c.digitalNodes));
    }
  }

  // --- which accepted configurations make a room -------------------------------------------------

  /** The configurations that pass everything after the first validator. */
  predicate PassesTheRest(c: Config) {
    && V.UncheckedFieldsOk(c)
    && if c.IsV3() then |c.analogNodes| == 1 || c.OneOutputEach()
       else UncheckedInVersionTwoOk(c) && PassesInVersionTwo(c)
  }

  /** Of the configurations that the first validator accepts, the loader returns a room for exactly those whose
      unchecked fields are in order and that have, in version 3, one analog node or a one-output policy, and in
      version 2 what `PassesInVersionTwo` says. The virtual paths, which both look at, never stop it. */
  lemma FromConfigReturnsIff(c: Config, hostOk: HostRule)
    requires Accepted(c, hostOk)
    ensures MakesRoom(c) <==> PassesTheRest(c)
  {
    hide Loads, P.PhysicalOk, Loaded, PassesInVersionTwo, UncheckedInVersionTwoOk, V.UncheckedFieldsOk;
    assert VP.ValidPaths(c.virtualPaths, Lengths(c.strips));
    if c.IsV3() {
      V.AcceptedLoads(c, hostOk);
      if Loads(c) {
        V.SecondValidatorAcceptsIff(c, hostOk);
      }
    } else {
      AcceptedLoadsInVersionTwo(c, hostOk);
      if Loads(c) {
        VersionTwo.SecondValidatorAcceptsIff(c, hostOk);
      }
    }
  }

  // --- an output that nobody asked for -----------------------------------------------------------

  const LAMP: Zone := Zone("z", "center", FORWARD)

  /** A version-2 room of six lamps and one pixel, which authors no digital node, with the given outputs. */
  function SixLamps(outputs: seq<RawOutput>): Config {
    Config(2, None, false, {"udp"}, false, [LAMP], [Strip("a", 1, "center", FORWARD)],
           seq(6, i requires 0 <= i < 6 => AnalogNode(i + 1, "z", 0, "RGBWC", "center")), [], [], outputs, [], [],
           UdpDefaults("h", 9001, 4096), [])
  }

  lemma SixLampsAreAccepted(outputs: seq<RawOutput>, hostOk: HostRule)
    ensures Accepted(SixLamps(outputs), hostOk) && V.UncheckedFieldsOk(SixLamps(outputs))
  {
    var c := SixLamps(outputs);
    assert ZoneIds(c.zones) == ["z"];
    assert ZoneIds(c.zones)[0] == "z";
  }

  /** One output makes the difference: the first validator does not look at it in version 2, the loader loads it, and
      the second validator refuses the room, which it accepts without. */
  lemma OutputStopsTheRoom(hostOk: HostRule)
    ensures var o := RawOutput(7, 1, 4, "a", Some(1), FORWARD);
      && Accepted(SixLamps([]), hostOk) && MakesRoom(SixLamps([]))
      && Accepted(SixLamps([o]), hostOk) && Loads(SixLamps([o])) && !MakesRoom(SixLamps([o]))
  {
    hide Accepted, Loads, MakesRoom, V.UncheckedFieldsOk, PassesInVersionTwo;
    var o := RawOutput(7, 1, 4, "a", Some(1), FORWARD);
    SixLampsAreAccepted([], hostOk);
    SixLampsAreAccepted([o], hostOk);
    FromConfigReturnsIff(SixLamps([]), hostOk);
    FromConfigReturnsIff(SixLamps([o]), hostOk);
    AcceptedLoadsInVersionTwo(SixLamps([o]), hostOk);
    OnePixelPasses();
    OutputNeedsNode(o);
  }

  lemma OnePixelPasses()
    ensures PassesInVersionTwo(SixLamps([]))
  {
    var c := SixLamps([]);
    assert c.strips[..0] == [];
    assert TotalLength(c.strips) == 1;
  }

  lemma OutputNeedsNode(o: RawOutput)
    ensures !PassesInVersionTwo(SixLamps([o]))
  {
    hide OutputOk, NodeOutputsOk;
    assert !SpeaksV3(SixLamps([o]), o.nodeId);
    assert SixLamps([o]).outputs[0] == o;
  }
}
