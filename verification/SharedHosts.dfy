/** Nodes that share a host: which of them a DDP room always shows, whatever is drawn. */
module SharedHosts {
  import opened Util
  import opened Rgb
  import opened Topology
  import opened Layouts
  import opened PhysicalMapping
  import opened Sorting
  import opened FrameMapping
  import opened DdpLayout
  import opened DdpOverlay
  import opened ConfigToWire
  import D = Ddp

  function NodeAt(l: Layout, i: nat): DigitalNode
    requires i < |SortBy(l.digitalNodes, BY_NODE)|
  {
    SortBy(l.digitalNodes, BY_NODE)[i]
  }

  /** Node `a` is sent to the host of `b`, and its first packet fits a receiver as long as `b`. */
  predicate Overwrites(a: DigitalNode, b: DigitalNode) {
    a.enabled && a.host == b.host && Min(LIMIT, 3 * a.pixelCount) <= 3 * b.pixelCount
  }

  /** After this frame, node k's receiver, which showed `buffer` before, shows node k. */
  ghost predicate ShownIn(
      l: Layout, k: nat, toU8: ToU8, drawn: Frame, nodes: seq<NodeFrame>, buffer: D.Bytes)
  {
    IsMapped(l, drawn, nodes) && k < |nodes| && |buffer| == |PayloadOf(nodes[k], toU8)| ==>
      Shown(nodes, toU8, nodes[k].host, buffer) == PayloadOf(nodes[k], toU8)
  }

  /** So it does, whatever is drawn. */
  ghost predicate AlwaysShown(l: Layout, k: nat, toU8: ToU8) {
    forall drawn: Frame, nodes: seq<NodeFrame>, buffer: D.Bytes :: ShownIn(l, k, toU8, drawn, nodes, buffer)
  }

  // --- how far a payload reaches -----------------------------------------------------------------

  lemma {:induction false} ReachesIfFirstFits(total: nat, size: nat, limit: nat, k: nat)
    requires limit > 0 && total > 0 && k >= 1
    ensures FitUpTo(total, size, limit, k) > 0 <==> Min(limit, total) <= size
  {
    FirstEnd(total, limit, k - 1);
    if k > 1 {
      ReachesIfFirstFits(total, size, limit, k - 1);
    }
  }

  /** No packet ends before the first one. */
  lemma FirstEnd(total: nat, limit: nat, k: nat)
    requires limit > 0 && total > 0
    ensures D.EndOf(k, limit, total) >= Min(limit, total) > 0 && D.EndOf(0, limit, total) == Min(limit, total)
  {
    D.StartStep(0, limit);
    D.StartStep(k, limit);
  }

  lemma ReachIsPositiveIff(total: nat, size: nat)
    requires total > 0
    ensures Reach(total, size, LIMIT) > 0 <==> Min(LIMIT, total) <= size
  {
    D.CountIsLast(total, LIMIT, 0);
    D.StartStep(0, LIMIT);
    ReachesIfFirstFits(total, size, LIMIT, D.Count(total, LIMIT));
  }

  // --- a frame that tells one node from the others -----------------------------------------------

  const WHITE: RGB := RGB(1.0, 1.0, 1.0)

  /** The strips of these outputs in white, and nothing else. */
  function WhiteStrips(outputs: seq<Output>): Frame {
    seq(|outputs|, i requires 0 <= i < |outputs| =>
      LogicalStrip(outputs[i].stripId, seq(Max(0, outputs[i].pixelCount), x => WHITE)))
  }

  lemma {:induction false} DrawnWhite(outputs: seq<Output>, id: string)
    ensures (forall o <- outputs :: o.stripId != id) ==> Drawn(WhiteStrips(outputs), id) == []
    ensures forall x <- Drawn(WhiteStrips(outputs), id) :: x == WHITE
    ensures (exists o <- outputs :: o.stripId == id) ==>
      exists o <- outputs :: o.stripId == id && |Drawn(WhiteStrips(outputs), id)| == Max(0, o.pixelCount)
  {
    if outputs != [] {
      var init, last := outputs[..|outputs| - 1], outputs[|outputs| - 1];
      DrawnWhite(init, id);
      var frame := WhiteStrips(outputs);
      assert frame[..|frame| - 1] == WhiteStrips(init);
      assert forall o :: o in outputs <==> o in init || o == last;
    }
  }

  /** The first pixel of an output: white on its own strip, black if the strip is not drawn. */
  lemma FirstPixel(outputs: seq<Output>, o: Output)
    requires o.pixelCount >= 1 && forall a <- outputs :: a.stripId == o.stripId ==> a.pixelCount == o.pixelCount
    ensures var pixels := OutputOf(o, WhiteStrips(outputs)).pixels;
      && |pixels| >= 1
      && pixels[0] == if exists a <- outputs :: a.stripId == o.stripId then WHITE else BLACK
  {
    var frame := WhiteStrips(outputs);
    DrawnWhite(outputs, o.stripId);
    SourceByIndex(frame, o.stripId, o.pixelCount, o.direction, 0);
    var drawn, from := Drawn(frame, o.stripId), if o.direction == REVERSE then o.pixelCount - 1 else 0;
    if exists a <- outputs :: a.stripId == o.stripId {
      assert drawn[from] in drawn;
    }
  }

  lemma {:induction false} FirstChannel(pixels: seq<D.Pixel>)
    requires pixels != []
    ensures D.Channels(pixels)[0] == D.Low(pixels[0].red)
  {
    if |pixels| > 1 {
      FirstChannel(pixels[..|pixels| - 1]);
    } else {
      assert pixels[..0] == [];
    }
  }

  /** The byte that a v3 node puts first is that of the first pixel of one of its outputs. */
  lemma FirstByte(l: Layout, drawn: Frame, nodes: seq<NodeFrame>, toU8: ToU8, i: nat) returns (o: Output)
    requires PhysicalOk(l) && IsMapped(l, drawn, nodes) && i < |nodes|
    requires forall n <- l.digitalNodes :: n.protocolVersion == 3
    ensures o in l.outputs && o.nodeId == NodeAt(l, i).nodeId && o.pixelCount >= 1
    ensures |OutputOf(o, drawn).pixels| >= 1 && |PayloadOf(nodes[i], toU8)| == 3 * NodeAt(l, i).pixelCount >= 3
    ensures PayloadOf(nodes[i], toU8)[0] == toU8(OutputOf(o, drawn).pixels[0].r)
  {
    hide PhysicalOk, FrameOf, SortBy, D.Channels, PayloadOf, At, OutputOf, Quantised, StrictlySorted, Joined;
    MappedPayload(l, drawn, nodes, toU8, i);
    o := FirstOutput(l, drawn, nodes, toU8, i);
    FirstOfJoined(nodes[i].outputs, toU8);
  }

  lemma FirstOfJoined(outputs: seq<OutputFrame>, toU8: ToU8)
    requires outputs != [] && outputs[0].pixels != []
    ensures Joined(outputs) != [] && D.Channels(Quantised(Joined(outputs), toU8))[0] == toU8(outputs[0].pixels[0].r)
  {
    hide D.Channels, Joined;
    assert outputs[..0] == [];
    JoinedByIndex(outputs, 0, 0);
    FirstChannel(Quantised(Joined(outputs), toU8));
  }

  /** The first output frame of a v3 node comes from one of the node's outputs. */
  lemma FirstOutput(l: Layout, drawn: Frame, nodes: seq<NodeFrame>, toU8: ToU8, i: nat) returns (o: Output)
    requires PhysicalOk(l) && IsMapped(l, drawn, nodes) && i < |nodes|
    requires forall n <- l.digitalNodes :: n.protocolVersion == 3
    ensures o in l.outputs && o.nodeId == NodeAt(l, i).nodeId && o.pixelCount >= 1 && NodeAt(l, i).pixelCount >= 1
    ensures nodes[i].outputs != [] && nodes[i].outputs[0] == OutputOf(o, drawn) && |OutputOf(o, drawn).pixels| >= 1
  {
    hide PhysicalOk, SortBy, At, Source, Painted, NodePixels, Joined, NodeComplete, StrictlySorted;
    var n := NodeAt(l, i);
    var k :| 0 <= k < |l.digitalNodes| && l.digitalNodes[k] == n;
    NodeFrameIsItsOutputs(l, drawn, k, toU8);
    ValidatedNode(l, k);
    var f, mine := nodes[i], At(l.outputs, n.nodeId);
    assert f == FrameOf(l, drawn, n);
    assert f.outputs[0] in multiset(f.outputs);
    assert f.outputs[0] in OutputsOfAll(mine, drawn);
    var j :| 0 <= j < |mine| && OutputsOfAll(mine, drawn)[j] == f.outputs[0];
    o := mine[j];
    AtAreOutputs(l.outputs, n.nodeId, j);
  }

  // --- the main result ---------------------------------------------------------------------------

  /** Two outputs of a validated v3 layout drive one strip only if they are one output. */
  lemma OneOutputPerStrip(l: Layout, a: Output, b: Output)
    requires PhysicalOk(l) && a in l.outputs && b in l.outputs && a.stripId == b.stripId
    ensures a == b
  {
    hide AnalogNodesOk, DigitalNodesOk, SegmentsOk, OutputIsSound, NodeComplete;
    var i :| 0 <= i < |l.outputs| && l.outputs[i] == a;
    var j :| 0 <= j < |l.outputs| && l.outputs[j] == b;
    assert StripsOf(l.outputs)[i] == StripsOf(l.outputs)[j];
  }

  /** What the frame that paints one node white makes every node send first. */
  lemma FirstByteIsWhiteIff(l: Layout, k: nat, nodes: seq<NodeFrame>, toU8: ToU8, i: nat)
    requires PhysicalOk(l) && forall n <- l.digitalNodes :: n.protocolVersion == 3
    requires k < |SortBy(l.digitalNodes, BY_NODE)| && i < |nodes|
    requires IsMapped(l, WhiteStrips(At(l.outputs, NodeAt(l, k).nodeId)), nodes)
    ensures |PayloadOf(nodes[i], toU8)| == 3 * NodeAt(l, i).pixelCount >= 3
    ensures PayloadOf(nodes[i], toU8)[0] == toU8(if NodeAt(l, i).nodeId == NodeAt(l, k).nodeId then 1.0 else 0.0)
  {
    hide PhysicalOk, SortBy, PayloadOf, OutputOf, WhiteStrips, At, IsMapped;
    var id := NodeAt(l, k).nodeId;
    var mine := At(l.outputs, id);
    assert |nodes| == |SortBy(l.digitalNodes, BY_NODE)| by { MappedCount(l, WhiteStrips(mine), nodes); }
    var o := FirstByte(l, WhiteStrips(mine), nodes, toU8, i);
    forall a <- mine
      ensures a in l.outputs && a.nodeId == id && (a.stripId == o.stripId ==> a == o)
    {
      var j :| 0 <= j < |mine| && mine[j] == a;
      AtAreOutputs(l.outputs, id, j);
      if a.stripId == o.stripId {
        OneOutputPerStrip(l, a, o);
      }
    }
    if o.nodeId == id {
      var j :| 0 <= j < |l.outputs| && l.outputs[j] == o;
      InAt(l.outputs, j);
    }
    FirstPixel(mine, o);
  }

  lemma MappedCount(l: Layout, drawn: Frame, nodes: seq<NodeFrame>)
    requires IsMapped(l, drawn, nodes)
    ensures |nodes| == |SortBy(l.digitalNodes, BY_NODE)| == |l.digitalNodes|
    ensures forall i :: 0 <= i < |nodes| ==>
      && nodes[i].nodeId == NodeAt(l, i).nodeId && nodes[i].host == NodeAt(l, i).host
      && nodes[i].enabled == NodeAt(l, i).enabled
  {
    hide SortBy, Painted;
  }

  lemma MappedExists(l: Layout, drawn: Frame) returns (nodes: seq<NodeFrame>)
    requires PhysicalOk(l)
    ensures IsMapped(l, drawn, nodes)
  {
    hide PhysicalOk, SortBy, FrameOf;
    var sorted := SortBy(l.digitalNodes, BY_NODE);
    SortByContract(l.digitalNodes, BY_NODE);
    forall i | 0 <= i < |sorted|
      ensures sorted[i] in l.digitalNodes && sorted[i].pixelCount >= 0
      ensures FitsNode(l.segments, sorted[i].nodeId, sorted[i].pixelCount)
    {
      assert sorted[i] in multiset(sorted);
      var k :| 0 <= k < |l.digitalNodes| && l.digitalNodes[k] == sorted[i];
      ValidatedSegmentsFit(l, k);
    }
    nodes := seq(|sorted|, i requires 0 <= i < |sorted| => FrameOf(l, drawn, sorted[i]));
    assert |multiset(sorted)| == |sorted| && |multiset(l.digitalNodes)| == |l.digitalNodes|;
  }

  /** When every node that reaches byte 0 puts the same byte there, and some node does, it is the last one there. */
  lemma {:induction false} LastFirstByte(nodes: seq<NodeFrame>, toU8: ToU8, host: string, size: nat, b: D.Byte)
    requires forall f <- nodes :: SendsTo(f, host) ==> PayloadOf(f, toU8) != [] && PayloadOf(f, toU8)[0] == b
    ensures LastByte(nodes, toU8, host, size, 0)
         == if exists f <- nodes :: SendsTo(f, host) && Reach(|PayloadOf(f, toU8)|, size, LIMIT) > 0 then Some(b)
            else None
  {
    hide PayloadOf, Reach;
    if nodes != [] {
      var init, f := nodes[..|nodes| - 1], nodes[|nodes| - 1];
      assert forall g :: g in nodes <==> g in init || g == f;
      LastFirstByte(init, toU8, host, size, b);
    }
  }

  lemma {:induction false} NobodyReaches(nodes: seq<NodeFrame>, toU8: ToU8, host: string, size: nat, x: nat)
    requires forall f <- nodes :: SendsTo(f, host) ==> Reach(|PayloadOf(f, toU8)|, size, LIMIT) == 0
    ensures LastByte(nodes, toU8, host, size, x) == None
  {
    hide PayloadOf, Reach;
    if nodes != [] {
      var init, f := nodes[..|nodes| - 1], nodes[|nodes| - 1];
      assert f in nodes;
      NobodyReaches(init, toU8, host, size, x);
    }
  }

  lemma ApartIsShown(
      l: Layout, k: nat, toU8: ToU8, drawn: Frame, nodes: seq<NodeFrame>, buffer: D.Bytes)
    requires PhysicalOk(l) && forall n <- l.digitalNodes :: n.protocolVersion == 3
    requires k < |SortBy(l.digitalNodes, BY_NODE)| && NodeAt(l, k).enabled
    requires forall j: nat :: k < j < |SortBy(l.digitalNodes, BY_NODE)| ==> !Overwrites(NodeAt(l, j), NodeAt(l, k))
    ensures ShownIn(l, k, toU8, drawn, nodes, buffer)
  {
    hide PhysicalOk, SortBy, PayloadOf, Reach, IsMapped, Shown, LastByte, SendsTo, Overwrites, Joined;
    if IsMapped(l, drawn, nodes) && k < |nodes| && |buffer| == |PayloadOf(nodes[k], toU8)| {
      MappedCount(l, drawn, nodes);
      var later, host := nodes[k + 1..], nodes[k].host;
      forall f <- later | SendsTo(f, host)
        ensures Reach(|PayloadOf(f, toU8)|, |buffer|, LIMIT) == 0
      {
        var j :| 0 <= j < |later| && later[j] == f;
        LaterDoesNotReach(l, k, k + 1 + j, toU8, drawn, nodes);
      }
      forall x: nat | x < |buffer|
        ensures LastByte(later, toU8, host, |buffer|, x) == None
      {
        NobodyReaches(later, toU8, host, |buffer|, x);
      }
      ShowsNodeIff(nodes, toU8, k, buffer);
    }
  }

  lemma LaterDoesNotReach(l: Layout, k: nat, j: nat, toU8: ToU8, drawn: Frame, nodes: seq<NodeFrame>)
    requires PhysicalOk(l) && forall n <- l.digitalNodes :: n.protocolVersion == 3
    requires IsMapped(l, drawn, nodes) && k < j < |nodes| == |SortBy(l.digitalNodes, BY_NODE)|
    requires !Overwrites(NodeAt(l, j), NodeAt(l, k)) && SendsTo(nodes[j], nodes[k].host)
    ensures Reach(|PayloadOf(nodes[j], toU8)|, |PayloadOf(nodes[k], toU8)|, LIMIT) == 0
  {
    hide PhysicalOk, SortBy, PayloadOf, Reach, IsMapped, Joined, StrictlySorted;
    MappedCount(l, drawn, nodes);
    MappedPayload(l, drawn, nodes, toU8, k);
    MappedPayload(l, drawn, nodes, toU8, j);
    SortedHasPixels(l, j);
    ReachIsPositiveIff(|PayloadOf(nodes[j], toU8)|, |PayloadOf(nodes[k], toU8)|);
  }

  lemma SortedHasPixels(l: Layout, i: nat)
    requires PhysicalOk(l) && i < |SortBy(l.digitalNodes, BY_NODE)|
    ensures NodeAt(l, i).pixelCount >= 1 && NodeAt(l, i) in l.digitalNodes
  {
    hide PhysicalOk, SortBy;
    SortByContract(l.digitalNodes, BY_NODE);
    assert NodeAt(l, i) in multiset(SortBy(l.digitalNodes, BY_NODE));
    var k :| 0 <= k < |l.digitalNodes| && l.digitalNodes[k] == NodeAt(l, i);
    ValidatedSegmentsFit(l, k);
  }

  /** A frame that paints node k white is not shown there once another node's first packet fits k's receiver. */
  lemma WhiteIsLost(
      l: Layout, k: nat, j: nat, toU8: ToU8, nodes: seq<NodeFrame>, buffer: D.Bytes)
    requires PhysicalOk(l) && forall n <- l.digitalNodes :: n.protocolVersion == 3
    requires k < j < |SortBy(l.digitalNodes, BY_NODE)| && NodeAt(l, k).enabled && toU8(0.0) != toU8(1.0)
    requires Overwrites(NodeAt(l, j), NodeAt(l, k))
    requires IsMapped(l, WhiteStrips(At(l.outputs, NodeAt(l, k).nodeId)), nodes)
    requires |buffer| == 3 * NodeAt(l, k).pixelCount
    ensures !ShownIn(l, k, toU8, WhiteStrips(At(l.outputs, NodeAt(l, k).nodeId)), nodes, buffer)
  {
    hide PhysicalOk, SortBy, PayloadOf, Reach, IsMapped, Shown, LastByte, At, WhiteStrips;
    var drawn := WhiteStrips(At(l.outputs, NodeAt(l, k).nodeId));
    MappedCount(l, drawn, nodes);
    MappedNumbers(l, drawn, nodes);
    var later, host, size := nodes[k + 1..], nodes[k].host, |buffer|;
    FirstByteIsWhiteIff(l, k, nodes, toU8, k);
    forall f <- later
      ensures PayloadOf(f, toU8) != [] && PayloadOf(f, toU8)[0] == toU8(0.0)
    {
      var i :| 0 <= i < |later| && later[i] == f;
      FirstByteIsWhiteIff(l, k, nodes, toU8, k + 1 + i);
      assert nodes[k + 1 + i].nodeId != nodes[k].nodeId;
    }
    LastFirstByte(later, toU8, host, size, toU8(0.0));
    assert later[j - k - 1] == nodes[j];
    FirstByteIsWhiteIff(l, k, nodes, toU8, j);
    ReachIsPositiveIff(|PayloadOf(nodes[j], toU8)|, size);
    assert nodes[j] in later && SendsTo(nodes[j], host);
    ShowsNodeIff(nodes, toU8, k, buffer);
  }

  /** In a validated v3 room, an enabled node is shown whatever is drawn, if and only if no enabled node after it, in
      the order of node numbers, has its host and a first packet that fits its receiver: at most 480 pixels, or as
      many as the node has. */
  lemma AlwaysShownIff(l: Layout, k: nat, toU8: ToU8)
    requires PhysicalOk(l) && (forall n <- l.digitalNodes :: n.protocolVersion == 3) && toU8(0.0) != toU8(1.0)
    requires k < |SortBy(l.digitalNodes, BY_NODE)| && NodeAt(l, k).enabled
    ensures AlwaysShown(l, k, toU8) <==>
      forall j: nat :: k < j < |SortBy(l.digitalNodes, BY_NODE)| ==> !Overwrites(NodeAt(l, j), NodeAt(l, k))
  {
    hide PhysicalOk, SortBy, ShownIn, Overwrites, IsMapped, At, WhiteStrips;
    if j: nat :| k < j < |SortBy(l.digitalNodes, BY_NODE)| && Overwrites(NodeAt(l, j), NodeAt(l, k)) {
      var drawn := WhiteStrips(At(l.outputs, NodeAt(l, k).nodeId));
      var nodes := MappedExists(l, drawn);
      SortedHasPixels(l, k);
      var buffer: D.Bytes := seq(3 * NodeAt(l, k).pixelCount, i => 0);
      WhiteIsLost(l, k, j, toU8, nodes, buffer);
    } else {
      forall drawn: Frame, nodes: seq<NodeFrame>, buffer: D.Bytes
        ensures ShownIn(l, k, toU8, drawn, nodes, buffer)
      {
        ApartIsShown(l, k, toU8, drawn, nodes, buffer);
      }
    }
  }
}
