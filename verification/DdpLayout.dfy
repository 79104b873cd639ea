/** From a validated layout and a logical frame to DDP packets, and back to the pixels of the room. */
module DdpLayout {
  import opened Rgb
  import opened Lists
  import opened Topology
  import opened Layouts
  import opened PhysicalMapping
  import opened FrameMapping
  import opened Sorting
  import D = Ddp

  /** Rounding to eight bits, clamped; which rounding it is does not matter here. */
  type ToU8 = real -> D.Byte

  function Quantised(p: Pixels, toU8: ToU8): (r: seq<D.Pixel>)
    ensures |r| == |p|
  {
    seq(|p|, i requires 0 <= i < |p| => D.Pixel(toU8(p[i].r), toU8(p[i].g), toU8(p[i].b)))
  }

  /** The pixel lists of some outputs, one after the other. */
  function Joined(outputs: seq<OutputFrame>): Pixels {
    if outputs == [] then [] else Joined(outputs[..|outputs| - 1]) + outputs[|outputs| - 1].pixels
  }

  /** `_node_pixels`: outputs by number if there are any, else the legacy buffer. */
  function NodePixels(f: NodeFrame, toU8: ToU8): seq<D.Pixel> {
    Quantised(if f.outputs != [] then Joined(SortBy(f.outputs, BY_OUTPUT)) else f.pixels, toU8)
  }

  // --- one node ----------------------------------------------------------------------------------

  lemma {:induction false} JoinedLength(outputs: seq<OutputFrame>)
    ensures |Joined(outputs)| == PixelsIn(outputs)
  {
    if outputs != [] {
      JoinedLength(outputs[..|outputs| - 1]);
    }
  }

  /** Pixel j of output k stands after all pixels of the outputs before it. */
  lemma {:induction false} JoinedByIndex(outputs: seq<OutputFrame>, k: nat, j: nat)
    requires k < |outputs| && j < |outputs[k].pixels|
    ensures PixelsIn(outputs[..k]) + j < |Joined(outputs)|
    ensures Joined(outputs)[PixelsIn(outputs[..k]) + j] == outputs[k].pixels[j]
  {
    var init := outputs[..|outputs| - 1];
    JoinedLength(init);
    if k < |init| {
      JoinedByIndex(init, k, j);
      assert init[..k] == outputs[..k];
    }
  }

  function PixelsIn(outputs: seq<OutputFrame>): nat {
    if outputs == [] then 0 else PixelsIn(outputs[..|outputs| - 1]) + |outputs[|outputs| - 1].pixels|
  }

  lemma {:induction false} InsertKeepsLengths(s: seq<OutputFrame>, x: OutputFrame)
    ensures PixelsIn(InsertBy(s, x, BY_OUTPUT)) == PixelsIn(s) + |x.pixels|
  {
    if s == [] || BY_OUTPUT(s[|s| - 1]) <= BY_OUTPUT(x) {
      assert (s + [x])[..|s|] == s;
    } else {
      var init, last := s[..|s| - 1], s[|s| - 1];
      InsertKeepsLengths(init, x);
      var r := InsertBy(init, x, BY_OUTPUT);
      assert (r + [last])[..|r|] == r;
    }
  }

  lemma {:induction false} SortKeepsLengths(s: seq<OutputFrame>)
    ensures PixelsIn(SortBy(s, BY_OUTPUT)) == PixelsIn(s)
  {
    if s != [] {
      SortKeepsLengths(s[..|s| - 1]);
      InsertKeepsLengths(SortBy(s[..|s| - 1], BY_OUTPUT), s[|s| - 1]);
    }
  }

  lemma {:induction false} LengthsAreTotal(outputs: seq<Output>, frame: Frame)
    requires forall i :: 0 <= i < |outputs| ==> outputs[i].pixelCount >= 0
    ensures PixelsIn(OutputsOfAll(outputs, frame)) == Total(outputs)
  {
    hide Source;
    if outputs != [] {
      var init := outputs[..|outputs| - 1];
      LengthsAreTotal(init, frame);
      var all := OutputsOfAll(outputs, frame);
      assert all[..|all| - 1] == OutputsOfAll(init, frame);
    }
  }

  lemma {:induction false} AtAreOutputs(outputs: seq<Output>, nodeId: int, k: nat)
    requires k < |At(outputs, nodeId)|
    ensures At(outputs, nodeId)[k] in outputs && At(outputs, nodeId)[k].nodeId == nodeId
  {
    var init := outputs[..|outputs| - 1];
    if k < |At(init, nodeId)| {
      AtAreOutputs(init, nodeId, k);
    }
  }

  /** What the validator promises about one v3 node. */
  lemma ValidatedNode(l: Layout, i: nat)
    requires PhysicalOk(l) && i < |l.digitalNodes| && l.digitalNodes[i].protocolVersion == 3
    ensures l.outputs != [] && NodeComplete(l.digitalNodes[i], l.outputs) && NodeIsSound(l.digitalNodes[i])
    ensures var mine := At(l.outputs, l.digitalNodes[i].nodeId);
      forall k :: 0 <= k < |mine| ==> mine[k].pixelCount >= 1
  {
    hide NodeById, Lengths;
    var mine := At(l.outputs, l.digitalNodes[i].nodeId);
    forall k | 0 <= k < |mine|
      ensures mine[k].pixelCount >= 1
    {
      AtAreOutputs(l.outputs, l.digitalNodes[i].nodeId, k);
      var j :| 0 <= j < |l.outputs| && l.outputs[j] == mine[k];
      assert OutputIsSound(l, l.outputs[j]);
    }
  }

  /** A validated v3 node is sent its outputs in strictly ascending order of number, each exactly once, each the
      pixels of its own strip, trimmed or padded and reversed as authored; together they are as long as the node. */
  lemma NodeFrameIsItsOutputs(l: Layout, frame: Frame, i: nat, toU8: ToU8)
    requires PhysicalOk(l) && i < |l.digitalNodes| && l.digitalNodes[i].protocolVersion == 3
    ensures l.digitalNodes[i].pixelCount >= 1
    ensures FitsNode(l.segments, l.digitalNodes[i].nodeId, l.digitalNodes[i].pixelCount)
    ensures var n := l.digitalNodes[i]; var f := FrameOf(l, frame, n);
      && f.pixels == [] && f.outputs != []
      && StrictlySorted(f.outputs, BY_OUTPUT)
      && multiset(f.outputs) == multiset(OutputsOfAll(At(l.outputs, n.nodeId), frame))
      && NodePixels(f, toU8) == Quantised(Joined(f.outputs), toU8)
      && |NodePixels(f, toU8)| == n.pixelCount
  {
    hide PhysicalOk, Painted, Source, NodeComplete, At;
    ValidatedSegmentsFit(l, i);
    ValidatedNode(l, i);
    var n := l.digitalNodes[i];
    var mine := At(l.outputs, n.nodeId);
    var all := OutputsOfAll(mine, frame);
    assert |mine| >= 1 && Distinct(IdsOf(mine)) && Total(mine) == n.pixelCount by { UnfoldComplete(n, l.outputs); }
    forall a, b | 0 <= a < b < |all|
      ensures BY_OUTPUT(all[a]) != BY_OUTPUT(all[b])
    {
      assert IdsOf(mine)[a] != IdsOf(mine)[b];
    }
    DistinctKeysSortStrictly(all, BY_OUTPUT);
    SortByContract(all, BY_OUTPUT);
    SortOfSorted(SortBy(all, BY_OUTPUT), BY_OUTPUT);
    SortKeepsLengths(all);
    LengthsAreTotal(mine, frame);
    JoinedLength(SortBy(all, BY_OUTPUT));
  }

  lemma UnfoldComplete(n: DigitalNode, outputs: seq<Output>)
    requires NodeComplete(n, outputs)
    ensures var mine := At(outputs, n.nodeId); |mine| >= 1 && Distinct(IdsOf(mine)) && Total(mine) == n.pixelCount
  {
  }

  /** The whole chain. For every validated v3 node and every logical frame, the packets of the node, applied in any
      order and some of them even twice, rebuild exactly three bytes for each pixel of the node: the bytes of its
      strips in ascending order of output number. */
  lemma ReceiverShowsTheRoom(
      l: Layout, frame: Frame, i: nat, toU8: ToU8, sequence: int, order: seq<nat>, buffer: D.Bytes)
    requires PhysicalOk(l) && i < |l.digitalNodes| && l.digitalNodes[i].protocolVersion == 3
    requires 3 * l.digitalNodes[i].pixelCount <= 0x1_0000_0000
    requires |buffer| == 3 * l.digitalNodes[i].pixelCount
    requires var count := D.Count(|buffer|, D.CHANNELS_PER_PACKET);
      && (forall j :: 0 <= j < |order| ==> order[j] < count) && (forall k: nat :: k < count ==> k in order)
    ensures l.digitalNodes[i].pixelCount >= 1
    ensures FitsNode(l.segments, l.digitalNodes[i].nodeId, l.digitalNodes[i].pixelCount)
    ensures var f := FrameOf(l, frame, l.digitalNodes[i]);
      var payload := D.Payload(NodePixels(f, toU8));
      && |payload| == |buffer|
      && D.ApplyAll(buffer, D.Arrivals(payload, D.CHANNELS_PER_PACKET, sequence, order))
         == D.Channels(Quantised(Joined(f.outputs), toU8))
  {
    hide PhysicalOk, FrameOf, NodePixels, D.Count, D.ApplyAll, D.Arrivals;
    NodeFrameIsItsOutputs(l, frame, i, toU8);
    var f := FrameOf(l, frame, l.digitalNodes[i]);
    D.AnyOrderRebuilds(D.Payload(NodePixels(f, toU8)), D.CHANNELS_PER_PACKET, sequence, order, buffer);
  }

  // --- the whole room ----------------------------------------------------------------------------

  /** Every strip of a validated v3 layout is driven by exactly one output, and that output's node exists. */
  lemma EveryStripIsPlacedOnce(l: Layout, s: nat) returns (k: nat, node: nat)
    requires PhysicalOk(l) && l.outputs != [] && s < |l.strips|
    ensures k < |l.outputs| && l.outputs[k].stripId == l.strips[s].id
    ensures forall j :: 0 <= j < |l.outputs| && l.outputs[j].stripId == l.strips[s].id ==> j == k
    ensures node < |l.digitalNodes| && l.digitalNodes[node].nodeId == l.outputs[k].nodeId
    ensures l.outputs[k] in At(l.outputs, l.digitalNodes[node].nodeId)
    ensures forall j :: 0 <= j < |l.digitalNodes| && j != node ==>
      forall o :: o in At(l.outputs, l.digitalNodes[j].nodeId) ==> o.stripId != l.strips[s].id
  {
    hide NodeById, At;
    LengthsByIndex(l.strips);
    var id := l.strips[s].id;
    assert id in Lengths(l.strips).Keys;
    assert id in Elements(StripsOf(l.outputs));
    k :| 0 <= k < |l.outputs| && StripsOf(l.outputs)[k] == id;
    forall j | 0 <= j < |l.outputs| && l.outputs[j].stripId == id
      ensures j == k
    {
      assert StripsOf(l.outputs)[j] == id;
    }
    assert OutputIsSound(l, l.outputs[k]);
    node := NodeOf(l.digitalNodes, l.outputs[k].nodeId);
    InAt(l.outputs, k);
    forall j | 0 <= j < |l.digitalNodes| && j != node
      ensures forall o :: o in At(l.outputs, l.digitalNodes[j].nodeId) ==> o.stripId != id
    {
      assert DigitalIds(l.digitalNodes)[j] != DigitalIds(l.digitalNodes)[node];
      forall o | o in At(l.outputs, l.digitalNodes[j].nodeId)
        ensures o.stripId != id
      {
        var m :| 0 <= m < |At(l.outputs, l.digitalNodes[j].nodeId)| && At(l.outputs, l.digitalNodes[j].nodeId)[m] == o;
        AtAreOutputs(l.outputs, l.digitalNodes[j].nodeId, m);
        var q :| 0 <= q < |l.outputs| && l.outputs[q] == o;
      }
    }
  }

  lemma {:induction false} NodeOf(nodes: seq<DigitalNode>, nodeId: int) returns (i: nat)
    requires nodeId in NodeById(nodes)
    ensures i < |nodes| && nodes[i].nodeId == nodeId
  {
    i := |nodes| - 1;
    if nodes[i].nodeId != nodeId {
      i := NodeOf(nodes[..i], nodeId);
    }
  }

  lemma {:induction false} InAt(outputs: seq<Output>, k: nat)
    requires k < |outputs|
    ensures outputs[k] in At(outputs, outputs[k].nodeId)
  {
    if k < |outputs| - 1 {
      InAt(outputs[..|outputs| - 1], k);
    }
  }
}
