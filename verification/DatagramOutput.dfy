/** The DDP and UDP v2 outputs: a one-slot queue in front of a datagram transport that may fail at any send.
    The two differ in their encoder, in whether disabled nodes are skipped, and in the socket left after closing. */
module DatagramOutput {
  import opened Util
  import opened FrameMapping
  import opened DdpLayout
  import D = Ddp

  datatype Mode = Production | Memory | Fake

  type Address = (string, int)
  type Datagram = (D.Bytes, Address)

  datatype PhysicalFrame = PhysicalFrame(sequence: int, safeState: bool, nodes: seq<NodeFrame>)

  /** The datagrams of one node, or nothing when encoding raises. */
  type Encoder = (NodeFrame, PhysicalFrame) -> Option<seq<D.Bytes>>

  datatype Setup = Setup(
    mode: Mode, autoFlush: bool, skipsDisabled: bool, socketAfterClose: bool, port: Option<int>, encode: Encoder,
    faults: nat -> bool)
  {
    /** DDP sends every node to one port; UDP v2 to the node's own. */
    function AddressOf(n: NodeFrame): Address { (n.host, if port.Some? then port.value else n.port) }

    predicate Skips(n: NodeFrame) { skipsDisabled && !n.enabled }
  }

  /** The DDP encoder: the packets of the node's pixels. */
  function DdpEncoder(toU8: ToU8): Encoder {
    (n: NodeFrame, f: PhysicalFrame) =>
      Some(D.Packets(D.Payload(NodePixels(n, toU8)), D.CHANNELS_PER_PACKET, f.sequence))
  }

  datatype Health = Health(
    healthy: bool, framesSubmitted: nat, framesSent: nat, framesDropped: nat, packetsSent: nat, packetsDropped: nat)
  {
    function DropFrame(): Health { this.(framesDropped := framesDropped + 1) }

    function Unwell(): Health { this.(healthy := false) }
  }

  /** The output's fields as a value. `log` holds what the transport took; `attempts` numbers the sends. */
  datatype State = State(
    isOpen: bool, hasSocket: bool, slot: Option<PhysicalFrame>, health: Health, attempts: nat, log: seq<Datagram>)
  {
    function Pending(): nat { if slot.Some? then 1 else 0 }
  }

  const NEW_HEALTH: Health := Health(true, 0, 0, 0, 0, 0)

  // --- one datagram, one node, one frame ---------------------------------------------------------

  function SendOne(u: Setup, st: State, d: Datagram): (State, bool) {
    match u.mode
    case Fake => (st, true)
    case Memory => (st.(log := st.log + [d]), true)
    case Production =>
      if !st.hasSocket then (st, false)
      else if u.faults(st.attempts) then (st.(attempts := st.attempts + 1), false)
      else (st.(attempts := st.attempts + 1, log := st.log + [d]), true)
  }

  function CountPacket(st: State): State { st.(health := st.health.(packetsSent := st.health.packetsSent + 1)) }

  /** The packets of one node in order, up to the first failure. */
  function SendPackets(u: Setup, st: State, packets: seq<D.Bytes>, address: Address): (State, bool) {
    if packets == [] then (st, true)
    else
      var (before, ok) := SendPackets(u, st, packets[..|packets| - 1], address);
      if !ok then (before, false)
      else
        var (after, sent) := SendOne(u, before, (packets[|packets| - 1], address));
        if sent then (CountPacket(after), true) else (after, false)
  }

  function SendNode(u: Setup, st: State, n: NodeFrame, frame: PhysicalFrame): (State, bool) {
    match u.encode(n, frame)
    case None => (st, false)
    case Some(packets) => SendPackets(u, st, packets, u.AddressOf(n))
  }

  datatype Progress = Going(allOk: bool) | Stopped

  /** A node failed: count it, and stop unless the frame is the safe state or the mode is not production. */
  function NodeFailed(u: Setup, st: State, safeState: bool): (State, Progress) {
    var counted := st.health.(packetsDropped := st.health.packetsDropped + 1);
    if u.mode != Production then (st.(health := counted), Going(false))
    else if safeState then (st.(health := counted.Unwell()), Going(false))
    else (st.(health := counted.Unwell().DropFrame()), Stopped)
  }

  function FlushNodes(u: Setup, st: State, frame: PhysicalFrame, nodes: seq<NodeFrame>): (State, Progress) {
    if nodes == [] then (st, Going(true))
    else
      var (before, progress) := FlushNodes(u, st, frame, nodes[..|nodes| - 1]);
      var n := nodes[|nodes| - 1];
      if progress.Stopped? || u.Skips(n) then (before, progress)
      else
        var (after, ok) := SendNode(u, before, n, frame);
        if ok then (after, progress) else NodeFailed(u, after, frame.safeState)
  }

  datatype Outcome = Returned | Raised

  function Flushed(u: Setup, st: State): (State, Outcome) {
    match st.slot
    case None => (st, Returned)
    case Some(frame) =>
      var (after, progress) := FlushNodes(u, st.(slot := None), frame, frame.nodes);
      match progress
      case Stopped => (after, Raised)
      case Going(allOk) =>
        (after.(health := if allOk then after.health.(framesSent := after.health.framesSent + 1)
                          else after.health.DropFrame()), Returned)
  }

  function Sent(u: Setup, st: State, frame: PhysicalFrame): (State, Outcome) {
    if !st.isOpen then
      if u.mode == Production then (st.(health := st.health.DropFrame().Unwell()), Raised)
      else (st.(health := st.health.DropFrame()), Returned)
    else
      var queued := st.(slot := Some(frame), health := if st.slot.Some? then st.health.DropFrame() else st.health);
      if u.autoFlush then Flushed(u, queued) else (queued, Returned)
  }

  function Opened(u: Setup, st: State, socketWorks: bool): (State, Outcome) {
    if !st.hasSocket && u.mode == Production && !socketWorks then (st.(health := st.health.Unwell()), Raised)
    else
      (st.(hasSocket := st.hasSocket || u.mode == Production, isOpen := true, health := st.health.(healthy := true)),
       Returned)
  }

  function Closed(u: Setup, st: State): State { st.(hasSocket := u.socketAfterClose, isOpen := false) }

  // --- the output --------------------------------------------------------------------------------

  class Output {
    const setup: Setup
    var isOpen: bool
    var hasSocket: bool
    var slot: Option<PhysicalFrame>
    var health: Health
    var attempts: nat
    var log: seq<Datagram>

    ghost function Now(): State
      reads this
    {
      State(isOpen, hasSocket, slot, health, attempts, log)
    }

    constructor (setup: Setup, injectedSocket: bool)
      ensures this.setup == setup && Now() == State(false, injectedSocket, None, NEW_HEALTH, 0, [])
    {
      this.setup := setup;
      isOpen, hasSocket, slot, health, attempts, log := false, injectedSocket, None, NEW_HEALTH, 0, [];
    }

    method Open(socketWorks: bool) returns (r: Outcome)
      modifies this
      ensures (Now(), r) == Opened(setup, old(Now()), socketWorks)
    {
      if !hasSocket && setup.mode == Production {
        if !socketWorks {
          health := health.Unwell();
          return Raised;
        }
        hasSocket := true;
      }
      isOpen := true;
      health := health.(healthy := true);
      return Returned;
    }

    method Close()
      modifies this
      ensures Now() == Closed(setup, old(Now()))
    {
      hasSocket := setup.socketAfterClose;
      isOpen := false;
    }

    /** `LatestFrameQueue.push`: true when an older frame was overwritten. */
    method Push(frame: PhysicalFrame) returns (dropped: bool)
      modifies this`slot
      ensures slot == Some(frame) && dropped == old(slot).Some?
    {
      dropped := slot.Some?;
      slot := Some(frame);
    }

    method PopLatest() returns (frame: Option<PhysicalFrame>)
      modifies this`slot
      ensures slot == None && frame == old(slot)
    {
      frame := slot;
      slot := None;
    }

    method SendDatagram(d: Datagram) returns (ok: bool)
      modifies this
      ensures (Now(), ok) == SendOne(setup, old(Now()), d)
    {
      match setup.mode {
        case Fake =>
          return true;
        case Memory =>
          log := log + [d];
          return true;
        case Production =>
          if !hasSocket {
            return false;
          }
          attempts := attempts + 1;
          if setup.faults(attempts - 1) {
            return false;
          }
          log := log + [d];
          return true;
      }
    }

    method SendNodePackets(n: NodeFrame, frame: PhysicalFrame) returns (ok: bool)
      modifies this
      ensures (Now(), ok) == SendNode(setup, old(Now()), n, frame)
    {
      hide SendOne;
      var encoded := setup.encode(n, frame);
      if encoded.None? {
        return false;
      }
      var packets := encoded.value;
      ghost var start := Now();
      for k := 0 to |packets|
        invariant (Now(), true) == SendPackets(setup, start, packets[..k], setup.AddressOf(n))
      {
        assert packets[..k + 1][..k] == packets[..k];
        var sent := SendDatagram((packets[k], setup.AddressOf(n)));
        if !sent {
          SendPacketsStops(setup, start, packets, k + 1, setup.AddressOf(n));
          return false;
        }
        health := health.(packetsSent := health.packetsSent + 1);
      }
      assert packets[..|packets|] == packets;
      return true;
    }

    /** The failure branch of the flush loop: true when the exception escapes. */
    method NoteFailure(safeState: bool) returns (stopped: bool)
      modifies this
      ensures (Now(), if stopped then Stopped else Going(false)) == NodeFailed(setup, old(Now()), safeState)
    {
      health := health.(packetsDropped := health.packetsDropped + 1);
      if setup.mode == Production {
        health := health.Unwell();
        if safeState {
          return false;
        }
        health := health.DropFrame();
        return true;
      }
      return false;
    }

    method FlushLatest() returns (r: Outcome)
      modifies this
      ensures (Now(), r) == Flushed(setup, old(Now()))
    {
      hide SendNode, FlushNodes, NodeFailed;
      var popped := PopLatest();
      if popped.None? {
        return Returned;
      }
      var frame := popped.value;
      var frameOk := true;
      ghost var start := Now();
      NoNodes(setup, start, frame);
      for k := 0 to |frame.nodes|
        invariant (Now(), Going(frameOk)) == FlushNodes(setup, start, frame, frame.nodes[..k])
      {
        var n := frame.nodes[k];
        NextNode(setup, start, frame, frame.nodes, k);
        if !setup.Skips(n) {
          var ok := SendNodePackets(n, frame);
          if !ok {
            frameOk := false;
            var stopped := NoteFailure(frame.safeState);
            if stopped {
              FlushNodesStops(setup, start, frame, frame.nodes, k + 1);
              return Raised;
            }
          }
        }
      }
      assert frame.nodes[..|frame.nodes|] == frame.nodes;
      if frameOk {
        health := health.(framesSent := health.framesSent + 1);
      } else {
        health := health.DropFrame();
      }
      return Returned;
    }

    method SendFrame(frame: PhysicalFrame) returns (r: Outcome)
      modifies this
      ensures (Now(), r) == Sent(setup, old(Now()), frame)
    {
      hide Flushed;
      if !isOpen {
        health := health.DropFrame();
        if setup.mode == Production {
          health := health.Unwell();
          return Raised;
        }
        return Returned;
      }
      var overwritten := Push(frame);
      if overwritten {
        health := health.DropFrame();
      }
      r := Returned;
      if setup.autoFlush {
        r := FlushLatest();
      }
    }
  }

  lemma NoNodes(u: Setup, st: State, frame: PhysicalFrame)
    ensures forall nodes: seq<NodeFrame> :: FlushNodes(u, st, frame, nodes[..0]) == (st, Going(true))
  {
  }

  lemma NextNode(u: Setup, st: State, frame: PhysicalFrame, nodes: seq<NodeFrame>, k: nat)
    requires k < |nodes|
    ensures var (before, progress) := FlushNodes(u, st, frame, nodes[..k]);
      FlushNodes(u, st, frame, nodes[..k + 1])
      == if progress.Stopped? || u.Skips(nodes[k]) then (before, progress)
         else
           var (after, ok) := SendNode(u, before, nodes[k], frame);
           if ok then (after, progress) else NodeFailed(u, after, frame.safeState)
  {
    hide SendNode, NodeFailed;
    assert nodes[..k + 1][..k] == nodes[..k];
  }

  lemma {:induction false} SendPacketsStops(u: Setup, st: State, packets: seq<D.Bytes>, k: nat, address: Address)
    requires k <= |packets| && !SendPackets(u, st, packets[..k], address).1
    ensures SendPackets(u, st, packets, address) == SendPackets(u, st, packets[..k], address)
    decreases |packets|
  {
    hide SendOne;
    if k == |packets| {
      assert packets[..k] == packets;
    } else {
      var init := packets[..|packets| - 1];
      assert init[..k] == packets[..k];
      SendPacketsStops(u, st, init, k, address);
    }
  }

  lemma {:induction false} FlushNodesStops(u: Setup, st: State, frame: PhysicalFrame, nodes: seq<NodeFrame>, k: nat)
    requires k <= |nodes| && FlushNodes(u, st, frame, nodes[..k]).1.Stopped?
    ensures FlushNodes(u, st, frame, nodes) == FlushNodes(u, st, frame, nodes[..k])
    decreases |nodes|
  {
    hide SendNode;
    if k == |nodes| {
      assert nodes[..k] == nodes;
    } else {
      var init := nodes[..|nodes| - 1];
      assert init[..k] == nodes[..k];
      FlushNodesStops(u, st, frame, init, k);
    }
  }

  // --- accounting over whole runs ----------------------------------------------------------------

  /** Sending leaves the queue and the frame counters alone. */
  lemma {:induction false} SendPacketsKeepsFrames(u: Setup, st: State, packets: seq<D.Bytes>, address: Address)
    ensures var (after, ok) := SendPackets(u, st, packets, address);
      && after.slot == st.slot && after.isOpen == st.isOpen
      && after.health.framesSent == st.health.framesSent && after.health.framesDropped == st.health.framesDropped
      && after.health.packetsDropped == st.health.packetsDropped
  {
    hide SendOne;
    if packets != [] {
      var init := packets[..|packets| - 1];
      SendPacketsKeepsFrames(u, st, init, address);
      SendOneKeepsRest(u, SendPackets(u, st, init, address).0, (packets[|packets| - 1], address));
    }
  }

  lemma SendOneKeepsRest(u: Setup, st: State, d: Datagram)
    ensures var after := SendOne(u, st, d).0; after == st.(attempts := after.attempts, log := after.log)
  {
  }

  lemma {:induction false} FlushNodesDropsOnlyWhenStopped(
      u: Setup, st: State, frame: PhysicalFrame, nodes: seq<NodeFrame>)
    ensures var (after, progress) := FlushNodes(u, st, frame, nodes);
      && after.slot == st.slot && after.isOpen == st.isOpen
      && after.health.framesSent == st.health.framesSent
      && after.health.framesDropped == st.health.framesDropped + (if progress.Stopped? then 1 else 0)
      && after.health.packetsDropped >= st.health.packetsDropped
      && (progress == Going(true) <==> after.health.packetsDropped == st.health.packetsDropped)
  {
    hide SendPackets;
    if nodes != [] {
      var init, n := nodes[..|nodes| - 1], nodes[|nodes| - 1];
      FlushNodesDropsOnlyWhenStopped(u, st, frame, init);
      var encoded := u.encode(n, frame);
      if encoded.Some? {
        SendPacketsKeepsFrames(u, FlushNodes(u, st, frame, init).0, encoded.value, u.AddressOf(n));
      }
    }
  }

  /** What a user of the output may do. */
  datatype Op = OpenOp(socketWorks: bool) | SendOp(frame: PhysicalFrame) | FlushOp | CloseOp

  function Step(u: Setup, st: State, op: Op): State {
    match op
    case OpenOp(socketWorks) => Opened(u, st, socketWorks).0
    case SendOp(frame) => Sent(u, st, frame).0
    case FlushOp => Flushed(u, st).0
    case CloseOp => Closed(u, st)
  }

  function Run(u: Setup, injectedSocket: bool, ops: seq<Op>): State {
    if ops == [] then State(false, injectedSocket, None, NEW_HEALTH, 0, [])
    else Step(u, Run(u, injectedSocket, ops[..|ops| - 1]), ops[|ops| - 1])
  }

  function Offered(ops: seq<Op>): nat {
    if ops == [] then 0 else Offered(ops[..|ops| - 1]) + (if ops[|ops| - 1].SendOp? then 1 else 0)
  }

  lemma FlushAccounts(u: Setup, st: State)
    ensures var (after, r) := Flushed(u, st);
      && after.slot == None
      && after.health.framesSent + after.health.framesDropped
         == st.health.framesSent + st.health.framesDropped + st.Pending()
  {
    hide FlushNodes;
    match st.slot {
      case None =>
      case Some(frame) =>
        FlushNodesDropsOnlyWhenStopped(u, st.(slot := None), frame, frame.nodes);
        var (after, progress) := FlushNodes(u, st.(slot := None), frame, frame.nodes);
        assert after.slot == None;
    }
  }

  /** Over every run, in every mode and through every transport failure and exception, each frame offered is sent,
      dropped, or still waiting in the queue. */
  lemma {:induction false} EveryFrameIsAccountedFor(u: Setup, injectedSocket: bool, ops: seq<Op>)
    ensures var st := Run(u, injectedSocket, ops);
      Offered(ops) == st.health.framesSent + st.health.framesDropped + st.Pending()
  {
    hide Flushed;
    if ops != [] {
      var init := ops[..|ops| - 1];
      EveryFrameIsAccountedFor(u, injectedSocket, init);
      var st := Run(u, injectedSocket, init);
      FlushAccounts(u, st);
      if ops[|ops| - 1].SendOp? {
        var frame := ops[|ops| - 1].frame;
        var health := if st.slot.Some? then st.health.DropFrame() else st.health;
        FlushAccounts(u, st.(slot := Some(frame), health := health));
      }
    }
  }

  // --- delivery ----------------------------------------------------------------------------------

  function Addressed(packets: seq<D.Bytes>, address: Address): seq<Datagram> {
    seq(|packets|, i requires 0 <= i < |packets| => (packets[i], address))
  }

  /** Every datagram of a frame, nodes in order; nothing for a node whose encoding raises. */
  function Wanted(u: Setup, frame: PhysicalFrame, nodes: seq<NodeFrame>): seq<Datagram> {
    if nodes == [] then []
    else
      var before, n := Wanted(u, frame, nodes[..|nodes| - 1]), nodes[|nodes| - 1];
      if u.Skips(n) || u.encode(n, frame).None? then before
      else before + Addressed(u.encode(n, frame).value, u.AddressOf(n))
  }

  lemma {:induction false} SendPacketsDelivers(u: Setup, st: State, packets: seq<D.Bytes>, address: Address)
    requires u.mode != Fake
    ensures var (after, ok) := SendPackets(u, st, packets, address);
      ok ==> && after.log == st.log + Addressed(packets, address)
             && after.health.packetsSent == st.health.packetsSent + |packets|
  {
    hide SendOne;
    if packets != [] {
      var init := packets[..|packets| - 1];
      SendPacketsDelivers(u, st, init, address);
      SendOneDelivers(u, SendPackets(u, st, init, address).0, (packets[|packets| - 1], address));
      assert Addressed(packets, address) == Addressed(init, address) + [(packets[|packets| - 1], address)];
    } else {
      assert Addressed(packets, address) == [];
    }
  }

  lemma SendOneDelivers(u: Setup, st: State, d: Datagram)
    requires u.mode != Fake
    ensures var (after, ok) := SendOne(u, st, d);
      after.health == st.health && after.log == if ok then st.log + [d] else st.log
  {
  }

  /** While no node has failed, exactly the wanted datagrams of the nodes so far are out, in order. */
  lemma {:induction false} FlushNodesDelivers(u: Setup, st: State, frame: PhysicalFrame, nodes: seq<NodeFrame>)
    requires u.mode != Fake
    ensures var (after, progress) := FlushNodes(u, st, frame, nodes);
      progress == Going(true) ==>
        && after.log == st.log + Wanted(u, frame, nodes)
        && (forall i :: 0 <= i < |nodes| && !u.Skips(nodes[i]) ==> u.encode(nodes[i], frame).Some?)
  {
    hide SendPackets;
    if nodes != [] {
      var init, n := nodes[..|nodes| - 1], nodes[|nodes| - 1];
      FlushNodesDelivers(u, st, frame, init);
      var encoded := u.encode(n, frame);
      if encoded.Some? {
        SendPacketsDelivers(u, FlushNodes(u, st, frame, init).0, encoded.value, u.AddressOf(n));
      }
      assert forall i :: 0 <= i < |nodes| ==> nodes[i] == if i < |init| then init[i] else n;
    }
  }

  /** A flush counts its frame as sent if and only if it counted no failure, and then every datagram of every node in
      use went out, in order and with nothing between. */
  lemma SentIffDelivered(u: Setup, st: State)
    requires st.slot.Some?
    ensures var (after, r) := Flushed(u, st); var frame := st.slot.value;
      && (after.health.framesSent == st.health.framesSent + 1
          <==> after.health.packetsDropped == st.health.packetsDropped)
      && (after.health.framesSent == st.health.framesSent + 1 && u.mode != Fake ==>
            && r == Returned
            && after.log == st.log + Wanted(u, frame, frame.nodes)
            && forall i :: 0 <= i < |frame.nodes| && !u.Skips(frame.nodes[i]) ==>
                 u.encode(frame.nodes[i], frame).Some?)
  {
    hide FlushNodes, Wanted;
    var frame := st.slot.value;
    FlushNodesDropsOnlyWhenStopped(u, st.(slot := None), frame, frame.nodes);
    if u.mode != Fake {
      FlushNodesDelivers(u, st.(slot := None), frame, frame.nodes);
    }
  }

  /** Every send goes out: outside production mode, or with a socket that takes everything. */
  ghost predicate SendsWork(u: Setup, st: State) {
    u.mode != Production || (st.hasSocket && forall i: nat :: !u.faults(i))
  }

  lemma {:induction false} PacketsNeverFail(u: Setup, st: State, packets: seq<D.Bytes>, address: Address)
    requires SendsWork(u, st)
    ensures var (after, ok) := SendPackets(u, st, packets, address); ok && SendsWork(u, after)
  {
    if packets != [] {
      PacketsNeverFail(u, st, packets[..|packets| - 1], address);
    }
  }

  lemma {:induction false} NodesNeverFail(u: Setup, st: State, frame: PhysicalFrame, nodes: seq<NodeFrame>)
    requires SendsWork(u, st) && forall n <- nodes :: !u.Skips(n) ==> u.encode(n, frame).Some?
    ensures var (after, progress) := FlushNodes(u, st, frame, nodes); progress == Going(true) && SendsWork(u, after)
  {
    hide SendPackets, SendsWork;
    if nodes != [] {
      var init, n := nodes[..|nodes| - 1], nodes[|nodes| - 1];
      NodesNeverFail(u, st, frame, init);
      assert n in nodes;
      if !u.Skips(n) {
        PacketsNeverFail(u, FlushNodes(u, st, frame, init).0, u.encode(n, frame).value, u.AddressOf(n));
      }
    }
  }

  /** A frame all of whose nodes encode is counted as sent when no send fails. */
  lemma SentIfAllEncode(u: Setup, st: State)
    requires SendsWork(u, st) && st.slot.Some?
    requires forall n <- st.slot.value.nodes :: !u.Skips(n) ==> u.encode(n, st.slot.value).Some?
    ensures Flushed(u, st).0.health.framesSent == st.health.framesSent + 1 && Flushed(u, st).1 == Returned
  {
    hide FlushNodes, SendsWork;
    var frame := st.slot.value;
    NothingQueuedSends(u, st);
    NodesNeverFail(u, st.(slot := None), frame, frame.nodes);
    FlushNodesDropsOnlyWhenStopped(u, st.(slot := None), frame, frame.nodes);
  }

  lemma NothingQueuedSends(u: Setup, st: State)
    requires SendsWork(u, st)
    ensures SendsWork(u, st.(slot := None))
  {
  }

  // --- what a frame wants on the wire ------------------------------------------------------------

  /** Node after node. */
  lemma {:induction false} WantedInTwo(u: Setup, frame: PhysicalFrame, a: seq<NodeFrame>, b: seq<NodeFrame>)
    ensures Wanted(u, frame, a + b) == Wanted(u, frame, a) + Wanted(u, frame, b)
    decreases |b|
  {
    if b == [] {
      assert a + b == a;
    } else {
      assert (a + b)[..|a + b| - 1] == a + b[..|b| - 1];
      WantedInTwo(u, frame, a, b[..|b| - 1]);
    }
  }

  /** Of one node: nothing when it is disabled and disabled ones are skipped; otherwise its packets in order, to its
      host, on the output's port if that has one and else on the node's own. */
  lemma WantedOfOne(u: Setup, frame: PhysicalFrame, n: NodeFrame)
    requires u.encode(n, frame).Some?
    ensures var wanted, packets := Wanted(u, frame, [n]), u.encode(n, frame).value;
      if u.skipsDisabled && !n.enabled then wanted == []
      else && |wanted| == |packets|
           && forall i :: 0 <= i < |packets| ==>
                wanted[i] == (packets[i], (n.host, if u.port.Some? then u.port.value else n.port))
  {
    assert [n][..0] == [];
    assert Wanted(u, frame, []) == [];
  }

  /** Closed, the output takes no frame: it counts one more dropped, hands nothing to the transport, and raises in
      production mode. */
  lemma ClosedTakesNothing(u: Setup, injectedSocket: bool, ops: seq<Op>, frame: PhysicalFrame)
    ensures var st := Run(u, injectedSocket, ops + [CloseOp]); var (after, r) := Sent(u, st, frame);
      && after.log == st.log && after.attempts == st.attempts && after.slot == st.slot
      && after.health.framesSent == st.health.framesSent && after.health.framesDropped == st.health.framesDropped + 1
      && (r.Raised? <==> u.mode == Production) && (r.Raised? ==> !after.health.healthy)
  {
    hide Flushed;
    assert (ops + [CloseOp])[..|ops|] == ops;
  }

  // --- failures keep to their own node -----------------------------------------------------------

  /** What a flush did for one node: the datagrams that went out, how many sends there had been when it was done with
      the node, and whether the node was served. */
  datatype Try = Try(piece: seq<Datagram>, to: nat, ok: bool)

  function Joint(tries: seq<Try>): seq<Datagram> {
    if tries == [] then [] else Joint(tries[..|tries| - 1]) + tries[|tries| - 1].piece
  }

  function Failures(tries: seq<Try>): nat {
    if tries == [] then 0 else Failures(tries[..|tries| - 1]) + (if tries[|tries| - 1].ok then 0 else 1)
  }

  /** How many sends there have been before node i. */
  function Before(from: nat, tries: seq<Try>, i: nat): nat
    requires i <= |tries|
  {
    if i == 0 then from else tries[i - 1].to
  }

  predicate AllTried(
      u: Setup, hasSocket: bool, frame: PhysicalFrame, nodes: seq<NodeFrame>, from: nat, tries: seq<Try>)
  {
    && |tries| == |nodes|
    && forall i :: 0 <= i < |nodes| ==>
         Tried(u, hasSocket, frame, nodes[i], Before(from, tries, i), tries[i])
  }

  /** What becomes of one node, from its own sends alone, which begin with number `from`: its datagrams go out in
      order, up to the first send that fails. */
  predicate Tried(u: Setup, hasSocket: bool, frame: PhysicalFrame, n: NodeFrame, from: nat, t: Try) {
    var Try(piece, to, ok) := t;
    var wanted := Wanted(u, frame, [n]);
    && piece <= wanted
    && if !u.Skips(n) && u.encode(n, frame).None? then !ok && piece == [] && to == from
       else
         && (ok <==> piece == wanted)
         && if u.mode != Production then ok && to == from
            else if !hasSocket then piece == [] && to == from
            else
              && to == from + |piece| + (if ok then 0 else 1)
              && (forall a :: from <= a < from + |piece| ==> !u.faults(a))
              && (!ok ==> u.faults(to - 1))
  }

  lemma SendOneIs(u: Setup, st: State, d: Datagram)
    requires u.mode != Fake
    ensures var (after, ok) := SendOne(u, st, d);
      && after.log == (if ok then st.log + [d] else st.log) && after.hasSocket == st.hasSocket
      && if u.mode != Production then ok && after.attempts == st.attempts
         else if !st.hasSocket then !ok && after.attempts == st.attempts
         else after.attempts == st.attempts + 1 && (ok <==> !u.faults(st.attempts))
  {
  }

  lemma {:induction false} PacketsAreTried(u: Setup, st: State, packets: seq<D.Bytes>, address: Address)
    returns (k: nat)
    requires u.mode != Fake
    ensures var (after, ok) := SendPackets(u, st, packets, address);
      && k <= |packets| && after.log == st.log + Addressed(packets, address)[..k] && (ok <==> k == |packets|)
      && after.hasSocket == st.hasSocket
      && if u.mode != Production then ok && after.attempts == st.attempts
         else if !st.hasSocket then k == 0 && after.attempts == st.attempts
         else
           && after.attempts == st.attempts + k + (if ok then 0 else 1)
           && (forall a :: st.attempts <= a < st.attempts + k ==> !u.faults(a))
           && (!ok ==> u.faults(after.attempts - 1))
  {
    hide SendOne;
    if packets == [] {
      k := 0;
      assert Addressed(packets, address)[..0] == [];
    } else {
      var init, all := packets[..|packets| - 1], Addressed(packets, address);
      k := PacketsAreTried(u, st, init, address);
      assert Addressed(init, address)[..k] == all[..k];
      var (before, ok) := SendPackets(u, st, init, address);
      if ok {
        SendOneIs(u, before, (packets[k], address));
        if SendOne(u, before, (packets[k], address)).1 {
          assert all[..k + 1] == all[..k] + [all[k]];
          k := k + 1;
        }
      }
    }
  }

  lemma NodeIsTried(u: Setup, st: State, frame: PhysicalFrame, n: NodeFrame) returns (piece: seq<Datagram>)
    requires u.mode != Fake && !u.Skips(n)
    ensures var (after, ok) := SendNode(u, st, n, frame);
      && after.log == st.log + piece && after.hasSocket == st.hasSocket
      && Tried(u, st.hasSocket, frame, n, st.attempts, Try(piece, after.attempts, ok))
  {
    hide SendPackets;
    piece := [];
    if u.encode(n, frame).Some? {
      var packets := u.encode(n, frame).value;
      WantedOfOne(u, frame, n);
      var k := PacketsAreTried(u, st, packets, u.AddressOf(n));
      assert Wanted(u, frame, [n]) == Addressed(packets, u.AddressOf(n));
      piece := Addressed(packets, u.AddressOf(n))[..k];
    }
  }

  lemma SkippedIsTried(u: Setup, hasSocket: bool, frame: PhysicalFrame, n: NodeFrame, at: nat)
    requires u.Skips(n)
    ensures u.mode != Fake ==> Tried(u, hasSocket, frame, n, at, Try([], at, true))
  {
    assert [n][..0] == [];
    assert Wanted(u, frame, []) == [];
  }

  lemma OneMoreTried(
      u: Setup, hasSocket: bool, frame: PhysicalFrame, nodes: seq<NodeFrame>, from: nat, earlier: seq<Try>, t: Try)
    requires nodes != [] && AllTried(u, hasSocket, frame, nodes[..|nodes| - 1], from, earlier)
    requires Tried(u, hasSocket, frame, nodes[|nodes| - 1], Before(from, earlier, |earlier|), t)
    ensures AllTried(u, hasSocket, frame, nodes, from, earlier + [t])
  {
    hide Tried;
    var tries := earlier + [t];
    forall i | 0 <= i < |nodes|
      ensures Tried(u, hasSocket, frame, nodes[i], Before(from, tries, i), tries[i])
    {
      assert Before(from, tries, i) == Before(from, earlier, i);
      if i < |earlier| {
        assert nodes[..|nodes| - 1][i] == nodes[i];
        assert Tried(u, hasSocket, frame, nodes[i], Before(from, earlier, i), earlier[i]);
      }
    }
  }

  lemma {:induction false} NodesAreTried(u: Setup, st: State, frame: PhysicalFrame, nodes: seq<NodeFrame>)
    returns (tries: seq<Try>)
    requires u.mode != Fake && !FlushNodes(u, st, frame, nodes).1.Stopped?
    ensures var (after, progress) := FlushNodes(u, st, frame, nodes);
      && AllTried(u, st.hasSocket, frame, nodes, st.attempts, tries) && after.hasSocket == st.hasSocket
      && after.attempts == Before(st.attempts, tries, |tries|)
      && after.log == st.log + Joint(tries)
      && after.health.packetsDropped == st.health.packetsDropped + Failures(tries)
      && (progress == Going(true) <==> Failures(tries) == 0)
  {
    hide SendNode, NodeFailed, Tried;
    if nodes == [] {
      tries := [];
    } else {
      hide FlushNodes;
      var t := LastIsTried(u, st, frame, nodes);
      var earlier := NodesAreTried(u, st, frame, nodes[..|nodes| - 1]);
      tries := earlier + [t];
      assert tries[..|earlier|] == earlier;
      OneMoreTried(u, st.hasSocket, frame, nodes, st.attempts, earlier, t);
    }
  }

  lemma LastIsTried(u: Setup, st: State, frame: PhysicalFrame, nodes: seq<NodeFrame>) returns (t: Try)
    requires u.mode != Fake && nodes != [] && !FlushNodes(u, st, frame, nodes).1.Stopped?
    ensures var (before, earlier) := FlushNodes(u, st, frame, nodes[..|nodes| - 1]);
      var (after, progress) := FlushNodes(u, st, frame, nodes);
      && !earlier.Stopped? && after.hasSocket == before.hasSocket && after.log == before.log + t.piece
      && after.attempts == t.to
      && after.health.packetsDropped == before.health.packetsDropped + (if t.ok then 0 else 1)
      && (progress == Going(true) <==> earlier == Going(true) && t.ok)
      && Tried(u, before.hasSocket, frame, nodes[|nodes| - 1], before.attempts, t)
  {
    hide SendNode, Tried;
    var n := nodes[|nodes| - 1];
    var before := FlushNodes(u, st, frame, nodes[..|nodes| - 1]).0;
    if u.Skips(n) {
      t := Try([], before.attempts, true);
      SkippedIsTried(u, before.hasSocket, frame, n, before.attempts);
    } else {
      var piece := NodeIsTried(u, before, frame, n);
      t := Try(piece, SendNode(u, before, n, frame).0.attempts, SendNode(u, before, n, frame).1);
      NodeKeepsDropped(u, before, frame, n);
    }
  }

  lemma NodeKeepsDropped(u: Setup, st: State, frame: PhysicalFrame, n: NodeFrame)
    ensures SendNode(u, st, n, frame).0.health.packetsDropped == st.health.packetsDropped
  {
    if u.encode(n, frame).Some? {
      SendPacketsKeepsFrames(u, st, u.encode(n, frame).value, u.AddressOf(n));
    }
  }

  /** A flush that does not raise, and so that of every safe state, tries every node: a failure costs the rest of its
      own node, never another node. The flush counts one dropped packet for each node that failed, and its frame as
      sent if there is none. */
  lemma EveryNodeIsTried(u: Setup, st: State) returns (tries: seq<Try>)
    requires u.mode != Fake && st.slot.Some?
    requires Flushed(u, st).1 == Returned
    ensures var after, frame := Flushed(u, st).0, st.slot.value;
      && AllTried(u, st.hasSocket, frame, frame.nodes, st.attempts, tries)
      && after.log == st.log + Joint(tries)
      && after.health.packetsDropped == st.health.packetsDropped + Failures(tries)
      && (after.health.framesSent == st.health.framesSent + 1 <==> Failures(tries) == 0)
  {
    hide FlushNodes, AllTried, Failures;
    var frame, popped := st.slot.value, st.(slot := None);
    FlushNodesDropsOnlyWhenStopped(u, popped, frame, frame.nodes);
    tries := NodesAreTried(u, popped, frame, frame.nodes);
  }

  // --- exceptions and packet counts --------------------------------------------------------------

  lemma {:induction false} FlushNodesStopsIff(u: Setup, st: State, frame: PhysicalFrame, nodes: seq<NodeFrame>)
    ensures var (after, progress) := FlushNodes(u, st, frame, nodes);
      && (progress.Stopped? <==> u.mode == Production && !frame.safeState && progress != Going(true))
      && (u.mode == Production && progress != Going(true) ==> !after.health.healthy)
  {
    hide SendPackets;
    if nodes != [] {
      var init, n := nodes[..|nodes| - 1], nodes[|nodes| - 1];
      FlushNodesStopsIff(u, st, frame, init);
      var encoded := u.encode(n, frame);
      if encoded.Some? {
        SendPacketsKeepsHealth(u, FlushNodes(u, st, frame, init).0, encoded.value, u.AddressOf(n));
      }
    }
  }

  lemma {:induction false} SendPacketsKeepsHealth(u: Setup, st: State, packets: seq<D.Bytes>, address: Address)
    ensures SendPackets(u, st, packets, address).0.health.healthy == st.health.healthy
  {
    if packets != [] {
      SendPacketsKeepsHealth(u, st, packets[..|packets| - 1], address);
    }
  }

  /** A flush raises exactly in production mode, for a frame that is not the safe state, and when it counted a
      failure; and any failure in production leaves the output unhealthy. */
  lemma FlushRaisesIff(u: Setup, st: State)
    ensures var (after, r) := Flushed(u, st);
      && (r.Raised? <==>
            && u.mode == Production && st.slot.Some? && !st.slot.value.safeState
            && after.health.packetsDropped > st.health.packetsDropped)
      && (u.mode == Production && after.health.packetsDropped > st.health.packetsDropped ==> !after.health.healthy)
  {
    hide FlushNodes;
    if st.slot.Some? {
      FlushNodesStopsIff(u, st.(slot := None), st.slot.value, st.slot.value.nodes);
      FlushNodesDropsOnlyWhenStopped(u, st.(slot := None), st.slot.value, st.slot.value.nodes);
    }
  }

  /** The packets counted as sent are the datagrams that the transport took. */
  predicate PacketsCounted(st: State) { st.health.packetsSent == |st.log| }

  lemma {:induction false} SendPacketsCounts(u: Setup, st: State, packets: seq<D.Bytes>, address: Address)
    requires u.mode != Fake && PacketsCounted(st)
    ensures PacketsCounted(SendPackets(u, st, packets, address).0)
  {
    if packets != [] {
      SendPacketsCounts(u, st, packets[..|packets| - 1], address);
    }
  }

  lemma {:induction false} FlushNodesCounts(u: Setup, st: State, frame: PhysicalFrame, nodes: seq<NodeFrame>)
    requires u.mode != Fake && PacketsCounted(st)
    ensures PacketsCounted(FlushNodes(u, st, frame, nodes).0)
  {
    hide SendPackets;
    if nodes != [] {
      var init, n := nodes[..|nodes| - 1], nodes[|nodes| - 1];
      FlushNodesCounts(u, st, frame, init);
      if u.encode(n, frame).Some? {
        SendPacketsCounts(u, FlushNodes(u, st, frame, init).0, u.encode(n, frame).value, u.AddressOf(n));
      }
    }
  }

  lemma FlushCounts(u: Setup, st: State)
    requires u.mode != Fake && PacketsCounted(st)
    ensures PacketsCounted(Flushed(u, st).0)
  {
    hide FlushNodes;
    if st.slot.Some? {
      FlushNodesCounts(u, st.(slot := None), st.slot.value, st.slot.value.nodes);
    }
  }

  /** Over every run each datagram that the transport took is counted once, also those of frames that failed later. */
  lemma {:induction false} EveryPacketIsCounted(u: Setup, injectedSocket: bool, ops: seq<Op>)
    requires u.mode != Fake
    ensures PacketsCounted(Run(u, injectedSocket, ops))
  {
    hide Flushed;
    if ops != [] {
      EveryPacketIsCounted(u, injectedSocket, ops[..|ops| - 1]);
      var st := Run(u, injectedSocket, ops[..|ops| - 1]);
      FlushCounts(u, st);
      if ops[|ops| - 1].SendOp? {
        FlushCounts(u, st.(slot := Some(ops[|ops| - 1].frame),
                           health := if st.slot.Some? then st.health.DropFrame() else st.health));
      }
    }
  }
}
