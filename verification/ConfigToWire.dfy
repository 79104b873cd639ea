/** The whole chain: from a configuration that the first validator accepted to the pixels that a DDP receiver shows. */
module ConfigToWire {
  import opened Util
  import opened Topology
  import opened Layouts
  import opened PhysicalMapping
  import opened Sorting
  import opened FrameMapping
  import opened DdpLayout
  import opened DdpOverlay
  import V = ValidatorAgreement
  import O = DatagramOutput
  import D = Ddp

  const LIMIT: nat := 1440

  /** The setup of a DDP output. */
  ghost predicate IsDdp(u: O.Setup, toU8: ToU8) {
    u.encode == O.DdpEncoder(toU8) && u.skipsDisabled && u.port.Some?
  }

  function PayloadOf(f: NodeFrame, toU8: ToU8): D.Bytes { D.Payload(NodePixels(f, toU8)) }

  /** The output sends this node's pixels to that host: the node's own port plays no part. */
  predicate SendsTo(f: NodeFrame, host: string) { f.enabled && f.host == host }

  // --- what arrives at one address ---------------------------------------------------------------

  function Received(datagrams: seq<O.Datagram>, address: O.Address): seq<D.Bytes> {
    if datagrams == [] then []
    else
      var before, d := Received(datagrams[..|datagrams| - 1], address), datagrams[|datagrams| - 1];
      if d.1 == address then before + [d.0] else before
  }

  lemma {:induction false} ReceivedInTwo(a: seq<O.Datagram>, b: seq<O.Datagram>, address: O.Address)
    ensures Received(a + b, address) == Received(a, address) + Received(b, address)
  {
    if b == [] {
      assert a + b == a;
    } else {
      assert (a + b)[..|a + b| - 1] == a + b[..|b| - 1];
      ReceivedInTwo(a, b[..|b| - 1], address);
    }
  }

  lemma {:induction false} ReceivedOfOne(packets: seq<D.Bytes>, to: O.Address, address: O.Address)
    ensures Received(O.Addressed(packets, to), address) == if to == address then packets else []
  {
    if packets != [] {
      var init := packets[..|packets| - 1];
      ReceivedOfOne(init, to, address);
      assert O.Addressed(packets, to)[..|packets| - 1] == O.Addressed(init, to);
    }
  }

  /** What a receiver shows after a frame: the payloads sent to its host, each laid over the ones before. */
  function Shown(nodes: seq<NodeFrame>, toU8: ToU8, host: string, buffer: D.Bytes): (r: D.Bytes)
    ensures |r| == |buffer|
  {
    if nodes == [] then buffer
    else
      var before, f := Shown(nodes[..|nodes| - 1], toU8, host, buffer), nodes[|nodes| - 1];
      if SendsTo(f, host) then Overlay(before, PayloadOf(f, toU8), LIMIT) else before
  }

  /** Offsets fit their header field. */
  predicate Addressable(nodes: seq<NodeFrame>, toU8: ToU8, host: string) {
    forall f <- nodes :: SendsTo(f, host) ==> |PayloadOf(f, toU8)| <= 0x1_0000_0000
  }

  /** The datagrams that one node adds to those wanted. */
  lemma OneNodeWanted(u: O.Setup, toU8: ToU8, frame: O.PhysicalFrame, nodes: seq<NodeFrame>, host: string)
    requires IsDdp(u, toU8) && nodes != []
    ensures var init, f := nodes[..|nodes| - 1], nodes[|nodes| - 1]; var address := (host, u.port.value);
      Received(O.Wanted(u, frame, nodes), address)
      == Received(O.Wanted(u, frame, init), address)
         + (if SendsTo(f, host) then D.Packets(PayloadOf(f, toU8), LIMIT, frame.sequence) else [])
  {
    hide Received, D.Packets, PayloadOf;
    var init, f := nodes[..|nodes| - 1], nodes[|nodes| - 1];
    var address := (host, u.port.value);
    if f.enabled {
      var packets := D.Packets(PayloadOf(f, toU8), LIMIT, frame.sequence);
      DdpSends(u, toU8, f, frame);
      ReceivedInTwo(O.Wanted(u, frame, init), O.Addressed(packets, u.AddressOf(f)), address);
      ReceivedOfOne(packets, u.AddressOf(f), address);
    }
  }

  lemma DdpSends(u: O.Setup, toU8: ToU8, f: NodeFrame, frame: O.PhysicalFrame)
    requires IsDdp(u, toU8) && f.enabled
    ensures u.port.Some? && !u.Skips(f) && u.AddressOf(f) == (f.host, u.port.value)
    ensures u.encode(f, frame) == Some(D.Packets(PayloadOf(f, toU8), LIMIT, frame.sequence))
  {
    hide NodePixels, D.Packets, D.Payload;
  }

  /** Everything that the frame sends to one host, applied in order, shows its payloads one over the other. */
  lemma {:induction false} ReceiverShows(
      u: O.Setup, toU8: ToU8, frame: O.PhysicalFrame, nodes: seq<NodeFrame>, host: string, buffer: D.Bytes)
    requires IsDdp(u, toU8) && Addressable(nodes, toU8, host)
    ensures D.ApplyAll(buffer, Received(O.Wanted(u, frame, nodes), (host, u.port.value)))
         == Shown(nodes, toU8, host, buffer)
  {
    hide PayloadOf, D.Packets, Overlay, O.Wanted, D.ApplyAll;
    var address := (host, u.port.value);
    if nodes == [] {
      NothingWanted(u, frame, address, buffer);
    } else {
      var init, f := nodes[..|nodes| - 1], nodes[|nodes| - 1];
      ReceiverShows(u, toU8, frame, init, host, buffer);
      OneNodeWanted(u, toU8, frame, nodes, host);
      var received := Received(O.Wanted(u, frame, init), address);
      if SendsTo(f, host) {
        var packets := D.Packets(PayloadOf(f, toU8), LIMIT, frame.sequence);
        ApplyInTwo(buffer, received, packets);
        PacketsOverlay(D.ApplyAll(buffer, received), PayloadOf(f, toU8), LIMIT, frame.sequence);
      } else {
        assert received + [] == received;
      }
    }
  }

  lemma NothingWanted(u: O.Setup, frame: O.PhysicalFrame, address: O.Address, buffer: D.Bytes)
    ensures D.ApplyAll(buffer, Received(O.Wanted(u, frame, []), address)) == buffer
  {
  }

  // --- which node has the last word on a byte ----------------------------------------------------

  /** The byte that the last of these nodes to reach place `x` of a receiver of `size` bytes puts there. */
  function LastByte(nodes: seq<NodeFrame>, toU8: ToU8, host: string, size: nat, x: nat): Option<D.Byte> {
    if nodes == [] then None
    else
      var f := nodes[|nodes| - 1];
      if SendsTo(f, host) && x < Reach(|PayloadOf(f, toU8)|, size, LIMIT) then Some(PayloadOf(f, toU8)[x])
      else LastByte(nodes[..|nodes| - 1], toU8, host, size, x)
  }

  lemma {:induction false} ShownIsLastByte(nodes: seq<NodeFrame>, toU8: ToU8, host: string, buffer: D.Bytes, x: nat)
    requires x < |buffer|
    ensures Shown(nodes, toU8, host, buffer)[x]
         == match LastByte(nodes, toU8, host, |buffer|, x) case None => buffer[x] case Some(b) => b
  {
    hide PayloadOf, Reach;
    if nodes != [] {
      ShownIsLastByte(nodes[..|nodes| - 1], toU8, host, buffer, x);
    }
  }

  /** A later node overrides the earlier ones. */
  lemma {:induction false} LastByteInTwo(
      a: seq<NodeFrame>, b: seq<NodeFrame>, toU8: ToU8, host: string, size: nat, x: nat)
    ensures LastByte(a + b, toU8, host, size, x)
         == if LastByte(b, toU8, host, size, x).Some? then LastByte(b, toU8, host, size, x)
            else LastByte(a, toU8, host, size, x)
  {
    hide PayloadOf, Reach;
    if b == [] {
      assert a + b == a;
    } else {
      assert (a + b)[..|a + b| - 1] == a + b[..|b| - 1];
      LastByteInTwo(a, b[..|b| - 1], toU8, host, size, x);
    }
  }

  /** The later nodes at this host agree, byte for byte, with what the receiver already shows. */
  predicate Undisturbed(later: seq<NodeFrame>, toU8: ToU8, host: string, payload: D.Bytes) {
    forall x: nat :: x < |payload| ==>
      LastByte(later, toU8, host, |payload|, x) == None || LastByte(later, toU8, host, |payload|, x) == Some(payload[x])
  }

  /** A receiver as long as node k shows node k after a frame, if and only if the later nodes at its host agree with
      it. */
  lemma ShowsNodeIff(nodes: seq<NodeFrame>, toU8: ToU8, k: nat, buffer: D.Bytes)
    requires k < |nodes| && nodes[k].enabled && |buffer| == |PayloadOf(nodes[k], toU8)|
    ensures Shown(nodes, toU8, nodes[k].host, buffer) == PayloadOf(nodes[k], toU8)
       <==> Undisturbed(nodes[k + 1..], toU8, nodes[k].host, PayloadOf(nodes[k], toU8))
  {
    hide PayloadOf, Reach, LastByte;
    var host, payload, later := nodes[k].host, PayloadOf(nodes[k], toU8), nodes[k + 1..];
    forall x: nat | x < |payload|
      ensures Shown(nodes, toU8, host, buffer)[x]
           == match LastByte(later, toU8, host, |payload|, x) case None => payload[x] case Some(b) => b
    {
      ShownIsLastByte(nodes, toU8, host, buffer, x);
      assert nodes == nodes[..k + 1] + later;
      LastByteInTwo(nodes[..k + 1], later, toU8, host, |payload|, x);
      OwnByte(nodes, toU8, k, x);
    }
    if Undisturbed(later, toU8, host, payload) {
      assert Shown(nodes, toU8, host, buffer) == payload;
    }
  }

  lemma OwnByte(nodes: seq<NodeFrame>, toU8: ToU8, k: nat, x: nat)
    requires k < |nodes| && nodes[k].enabled && x < |PayloadOf(nodes[k], toU8)|
    ensures var payload := PayloadOf(nodes[k], toU8);
      LastByte(nodes[..k + 1], toU8, nodes[k].host, |payload|, x) == Some(payload[x])
  {
    hide PayloadOf, Reach;
    WholePayloadFits(|PayloadOf(nodes[k], toU8)|, |PayloadOf(nodes[k], toU8)|, LIMIT);
  }

  lemma {:induction false} OwnHostIsUndisturbed(later: seq<NodeFrame>, toU8: ToU8, host: string, payload: D.Bytes)
    requires forall f <- later :: !SendsTo(f, host)
    ensures Undisturbed(later, toU8, host, payload)
  {
    hide PayloadOf, Reach;
    if later != [] {
      OwnHostIsUndisturbed(later[..|later| - 1], toU8, host, payload);
      assert later[|later| - 1] in later;
    }
  }

  // --- the room ----------------------------------------------------------------------------------

  /** A mapped v3 room: node k's payload is the bytes of its outputs, three for each of its pixels. */
  lemma MappedPayload(l: Layout, drawn: Frame, nodes: seq<NodeFrame>, toU8: ToU8, k: nat)
    requires PhysicalOk(l) && IsMapped(l, drawn, nodes) && k < |nodes|
    requires forall n <- l.digitalNodes :: n.protocolVersion == 3
    ensures var n := SortBy(l.digitalNodes, BY_NODE)[k];
      && nodes[k].host == n.host && nodes[k].enabled == n.enabled && nodes[k].nodeId == n.nodeId
      && StrictlySorted(nodes[k].outputs, BY_OUTPUT)
      && PayloadOf(nodes[k], toU8) == D.Channels(Quantised(Joined(nodes[k].outputs), toU8))
      && |PayloadOf(nodes[k], toU8)| == 3 * n.pixelCount
  {
    hide PhysicalOk, NodePixels, SortBy, Joined;
    var n := SortBy(l.digitalNodes, BY_NODE)[k];
    var i :| 0 <= i < |l.digitalNodes| && l.digitalNodes[i] == n;
    NodeFrameIsItsOutputs(l, drawn, i, toU8);
  }

  /** Take a topology-v3 configuration that the first validator accepts and the loader loads, with an analog node
      or under a deployment policy. Map a logical frame onto it, and let a DDP output count the result as sent. Apply,
      in order, every datagram that went to the address of an enabled node to a buffer of three bytes for each of its
      pixels. It shows exactly the pixels of the node's strips, output after output, if and only if the enabled nodes
      after it that share its host agree with it byte for byte; so a node whose host no later enabled node shares is
      always shown. */
  lemma AcceptedRoomIsShownIff(
      c: Config, hostOk: HostRule, drawn: Frame, k: nat, u: O.Setup, toU8: ToU8, st: O.State, buffer: D.Bytes)
    requires Accepted(c, hostOk) && c.IsV3() && Loads(c) && (|c.analogNodes| == 1 || c.OneOutputEach())
    requires IsDdp(u, toU8) && u.mode != O.Fake && st.slot.Some?
    requires IsMapped(Loaded(c), drawn, st.slot.value.nodes)
    requires k < |st.slot.value.nodes| && st.slot.value.nodes[k].enabled
    requires forall n <- Loaded(c).digitalNodes :: 3 * n.pixelCount <= 0x1_0000_0000
    requires |buffer| == |PayloadOf(st.slot.value.nodes[k], toU8)|
    ensures PhysicalOk(Loaded(c))
    ensures var nodes := st.slot.value.nodes; var f := nodes[k];
      var (after, r) := O.Flushed(u, st);
      var pixels := D.Channels(Quantised(Joined(f.outputs), toU8));
      && StrictlySorted(f.outputs, BY_OUTPUT) && pixels == PayloadOf(f, toU8)
      && |buffer| == |pixels| == 3 * SortBy(Loaded(c).digitalNodes, BY_NODE)[k].pixelCount
      && (after.health.framesSent == st.health.framesSent + 1 ==>
            && |st.log| <= |after.log|
            && var shown := D.ApplyAll(buffer, Received(after.log[|st.log|..], (f.host, u.port.value)));
            && (shown == pixels <==> Undisturbed(nodes[k + 1..], toU8, f.host, pixels))
            && ((forall g <- nodes[k + 1..] :: !SendsTo(g, f.host)) ==> shown == pixels))
  {
    hide Accepted, MappingLoads, PhysicalOk, FrameOf, SortBy, O.Flushed, O.Wanted, D.ApplyAll, D.Channels, PayloadOf,
         Received, Shown, Undisturbed, Joined, Quantised, Loaded, O.DdpEncoder;
    var l, frame := Loaded(c), st.slot.value;
    var f := frame.nodes[k];
    V.SecondValidatorAcceptsIff(c, hostOk);
    LoadedAreV3(c, hostOk);
    MappedPayload(l, drawn, frame.nodes, toU8, k);
    var pixels := PayloadOf(f, toU8);
    if O.Flushed(u, st).0.health.framesSent == st.health.framesSent + 1 {
      MappedAreAddressable(l, drawn, frame.nodes, toU8, f.host);
      SentDatagrams(u, toU8, st);
      ReceiverShows(u, toU8, frame, frame.nodes, f.host, buffer);
      ShowsNodeIff(frame.nodes, toU8, k, buffer);
      if forall g <- frame.nodes[k + 1..] :: !SendsTo(g, f.host) {
        OwnHostIsUndisturbed(frame.nodes[k + 1..], toU8, f.host, pixels);
      }
    }
  }

  lemma LoadedAreV3(c: Config, hostOk: HostRule)
    requires Accepted(c, hostOk) && c.IsV3() && Loads(c)
    ensures forall n <- Loaded(c).digitalNodes :: n.protocolVersion == 3
  {
    V.LoadedNodesOk(c, hostOk);
  }

  lemma MappedAreAddressable(l: Layout, drawn: Frame, nodes: seq<NodeFrame>, toU8: ToU8, host: string)
    requires PhysicalOk(l) && IsMapped(l, drawn, nodes)
    requires forall n <- l.digitalNodes :: n.protocolVersion == 3 && 3 * n.pixelCount <= 0x1_0000_0000
    ensures Addressable(nodes, toU8, host)
  {
    hide PhysicalOk, PayloadOf, SortBy, FrameOf;
    forall f <- nodes
      ensures |PayloadOf(f, toU8)| <= 0x1_0000_0000
    {
      var j :| 0 <= j < |nodes| && nodes[j] == f;
      MappedPayload(l, drawn, nodes, toU8, j);
    }
  }

  /** A frame counted as sent has put on the wire exactly what its nodes want. */
  lemma SentDatagrams(u: O.Setup, toU8: ToU8, st: O.State)
    requires u.mode != O.Fake && st.slot.Some?
    requires O.Flushed(u, st).0.health.framesSent == st.health.framesSent + 1
    ensures var log, frame := O.Flushed(u, st).0.log, st.slot.value;
      |st.log| <= |log| && log[|st.log|..] == O.Wanted(u, frame, frame.nodes)
  {
    hide O.Flushed, O.Wanted;
    O.SentIffDelivered(u, st);
  }
}
