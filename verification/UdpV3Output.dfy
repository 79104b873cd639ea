/** The UDP v3 output: clock beacons, scheduled deadlines, session start, and frame accounting, as a state machine over
    its calls. The trace of a session records every datagram handed to the transport. */
module UdpV3Output {
  import opened Util
  import opened FrameMapping
  import opened Fields
  import D = Ddp
  import O = DatagramOutput

  type Address = (string, int)
  type Datagram = (D.Bytes, Address)

  /** `mediaUs` is the time stamp in microseconds, or nothing when it cannot be made an integer. */
  datatype Frame = Frame(
    sequence: int, mediaUs: Option<int>, safeState: bool, metadataApplyAt: Option<int>, nodes: seq<NodeFrame>)

  /** The fields that one flush puts into every datagram of its frame. */
  datatype Stamp = Stamp(key: bool, applyAt: Option<int>)

  /** The datagrams of one node, or nothing when encoding raises. */
  type Encoder = (NodeFrame, Frame, Stamp) -> Option<seq<D.Bytes>>

  datatype Setup = Setup(
    mode: O.Mode, autoFlush: bool, scheduled: bool, leadUs: int, repeats: nat, spacingUs: nat,
    beaconAddresses: seq<Address>, intervalUs: int, startupBeacons: nat, startupSpacingUs: nat, socketAfterClose: bool,
    encode: Encoder, sendFails: nat -> bool, clock: nat -> int, sleepFails: nat -> bool)
  {
    /** What the constructor checks. */
    predicate Valid() {
      && 1 <= leadUs <= 100_000 && 2 <= repeats <= 10 && spacingUs <= 10_000
      && 1 <= intervalUs <= MAX_UINT64 && 1 <= startupBeacons <= 0xFFFF_FFFF && startupSpacingUs <= MAX_UINT64
      && beaconAddresses != []
    }
  }

  datatype Event =
    | Reading(us: int)
    | Beacon(sequence: int, us: int, address: Address, delivered: bool)
    | Round(sequence: int, us: int)
    | FrameDatagram(frame: Frame, stamp: Stamp, datagram: Datagram, delivered: bool)
    | KeyDelivered

  /** The output's fields as a value; `clockReads`, `sends` and `sleeps` number the calls into the outside world, and
      `uncounted` is the number of frames lost without a counter. */
  datatype State = State(
    isOpen: bool, hasSocket: bool, slot: Option<Frame>, health: O.Health, needsKey: bool, nextBeacon: int,
    lastBeaconUs: Option<int>, lastReadUs: Option<int>, clockReads: nat, sends: nat, sleeps: nat, uncounted: nat,
    trace: seq<Event>)
  {
    function Pending(): nat { if slot.Some? then 1 else 0 }

    function Log(e: Event): State { this.(trace := trace + [e]) }

    function Counted(ok: bool): State {
      if ok then this.(health := health.(packetsSent := health.packetsSent + 1))
      else this.(health := health.(packetsDropped := health.packetsDropped + 1))
    }

    /** Production failures mark the output unhealthy. */
    function Unwell(u: Setup): State { if u.mode == O.Production then this.(health := health.Unwell()) else this }

    function DropFrame(): State { this.(health := health.DropFrame()) }
  }

  // --- transport, clock, sleep -------------------------------------------------------------------

  function Send(u: Setup, st: State): (State, bool) {
    if u.mode != O.Production then (st, true)
    else if !st.hasSocket then (st, false)
    else (st.(sends := st.sends + 1), !u.sendFails(st.sends))
  }

  function Sleep(u: Setup, st: State): (State, bool) { (st.(sleeps := st.sleeps + 1), !u.sleepFails(st.sleeps)) }

  /** A reading outside uint64, or behind the last one, raises; the trace has the accepted ones. */
  function ReadClock(u: Setup, st: State): (State, Option<int>) {
    var value, after := u.clock(st.clockReads), st.(clockReads := st.clockReads + 1);
    if !(0 <= value <= MAX_UINT64) then (after, None)
    else if st.lastReadUs.Some? && value < st.lastReadUs.value then (after, None)
    else (after.(lastReadUs := Some(value)).Log(Reading(value)), Some(value))
  }

  // --- beacons -----------------------------------------------------------------------------------

  function SendBeacon(u: Setup, st: State, us: int, address: Address, sequence: int): (State, bool) {
    var (after, ok) := Send(u, st);
    var counted := after.Log(Beacon(sequence, us, address, ok)).Counted(ok);
    (if ok then counted else counted.Unwell(u), ok)
  }

  /** The first `k` addresses of a round; the time put into the last of them, or nothing if one failed. */
  function BeaconsTo(u: Setup, st: State, first: Option<int>, k: nat): (State, Option<int>)
    requires k <= |u.beaconAddresses|
  {
    if k == 0 then (st, Some(0))
    else
      var (before, ok) := BeaconsTo(u, st, first, k - 1);
      if ok.None? then (before, None)
      else
        var (timed, us) := if k == 1 && first.Some? then (before, first) else ReadClock(u, before);
        if us.None? then (timed, None)
        else
          var (after, sent) := SendBeacon(u, timed, us.value, u.beaconAddresses[k - 1], st.nextBeacon);
          (after, if sent then us else None)
  }

  function BeaconRound(u: Setup, st: State, first: Option<int>): (State, Option<int>) {
    var (after, us) := BeaconsTo(u, st, first, |u.beaconAddresses|);
    if us.None? then (after, None)
    else
      (after.(lastBeaconUs := us, nextBeacon := (st.nextBeacon + 1) % TWO_32).Log(Round(st.nextBeacon, us.value)), us)
  }

  function ScheduledApplyAt(u: Setup, st: State): (State, Option<int>) {
    var (read, now) := ReadClock(u, st);
    if now.None? then (read, None)
    else
      var due := read.lastBeaconUs.None? || now.value - read.lastBeaconUs.value >= u.intervalUs;
      var (after, latest) := if due then BeaconRound(u, read, now) else (read, now);
      if latest.None? || latest.value > MAX_UINT64 - u.leadUs then (after, None)
      else (after, Some(latest.value + u.leadUs))
  }

  // --- one flush ---------------------------------------------------------------------------------

  function StartsSession(st: State, frame: Frame): bool { st.needsKey && frame.sequence == 1 }

  /** Flags and deadline of a frame, or nothing when the preparation raises. */
  function Prepared(u: Setup, st: State, frame: Frame): (State, Option<Stamp>) {
    var key := StartsSession(st, frame);
    if frame.mediaUs.None? then (st, None)
    else if frame.metadataApplyAt.Some? && !(1 <= frame.metadataApplyAt.value <= MAX_UINT64) then (st, None)
    else if !u.scheduled then (st, Some(Stamp(key, frame.metadataApplyAt)))
    else if frame.metadataApplyAt.Some? then (st, None)
    else
      var (after, applyAt) := ScheduledApplyAt(u, st);
      (after, if applyAt.None? then None else Some(Stamp(key, applyAt)))
  }

  function EncodeNode(u: Setup, n: NodeFrame, frame: Frame, stamp: Stamp): Option<seq<D.Bytes>> {
    if n.outputs == [] then None else u.encode(n, frame, stamp)
  }

  /** All datagrams of the enabled nodes, or nothing when one of them does not encode. */
  function EncodeAll(u: Setup, frame: Frame, stamp: Stamp, nodes: seq<NodeFrame>): Option<seq<Datagram>> {
    if nodes == [] then Some([])
    else
      var before, n := EncodeAll(u, frame, stamp, nodes[..|nodes| - 1]), nodes[|nodes| - 1];
      if before.None? || !n.enabled then before
      else match EncodeNode(u, n, frame, stamp)
        case None => None
        case Some(packets) => Some(before.value + O.Addressed(packets, (n.host, n.port)))
  }

  /** `Going(ok)`: still sending, `ok` while nothing failed. `Cut`: given up without an exception. `Stopped`:
      raised. */
  datatype Progress = Going(ok: bool) | Cut | Stopped

  function SendOne(u: Setup, st: State, frame: Frame, stamp: Stamp, ok: bool, d: Datagram): (State, Progress) {
    var (after, sent) := Send(u, st);
    var counted := after.Log(FrameDatagram(frame, stamp, d, sent)).Counted(sent);
    if sent then (counted, Going(ok))
    else if u.mode != O.Production || frame.safeState then (counted.Unwell(u), Going(false))
    else (counted.Unwell(u).DropFrame(), Stopped)
  }

  /** The datagrams of one round, in order. */
  function SendRound(u: Setup, st: State, frame: Frame, stamp: Stamp, ok: bool, ds: seq<Datagram>): (State, Progress) {
    if ds == [] then (st, Going(ok))
    else
      var (before, progress) := SendRound(u, st, frame, stamp, ok, ds[..|ds| - 1]);
      if !progress.Going? then (before, progress) else SendOne(u, before, frame, stamp, progress.ok, ds[|ds| - 1])
  }

  /** The pause between rounds. */
  function Pause(u: Setup, st: State, ok: bool): (State, Progress) {
    var (after, slept) := Sleep(u, st);
    if slept then (after, Going(ok))
    else if u.mode == O.Production then (after.Unwell(u).DropFrame(), Stopped)
    else (after, Cut)
  }

  /** `k` of `rounds` rounds, with the pauses between them. */
  function SendRounds(u: Setup, st: State, frame: Frame, stamp: Stamp, ds: seq<Datagram>, rounds: nat, k: nat)
    : (State, Progress)
  {
    if k == 0 then (st, Going(true))
    else
      var (before, progress) := SendRounds(u, st, frame, stamp, ds, rounds, k - 1);
      if !progress.Going? then (before, progress)
      else
        var (after, sent) := SendRound(u, before, frame, stamp, progress.ok, ds);
        if sent.Going? && k < rounds && u.spacingUs > 0 then Pause(u, after, sent.ok) else (after, sent)
  }

  function RoundsFor(u: Setup, stamp: Stamp): nat { if u.scheduled && stamp.key then u.repeats else 1 }

  /** The end of a flush. */
  function Concluded(u: Setup, st: State, stamp: Stamp, progress: Progress): (State, O.Outcome) {
    match progress
    case Stopped => (st, O.Raised)
    case Cut => (st.DropFrame(), O.Returned)
    case Going(ok) =>
      if ok then
        var counted := st.(health := st.health.(framesSent := st.health.framesSent + 1));
        (if stamp.key then counted.(needsKey := false).Log(KeyDelivered) else counted, O.Returned)
      else (st.DropFrame(), if u.mode == O.Production then O.Raised else O.Returned)
  }

  function Flushed(u: Setup, st: State): (State, O.Outcome) {
    match st.slot
    case None => (st, O.Returned)
    case Some(frame) =>
      var (ready, stamp) := Prepared(u, st.(slot := None), frame);
      if stamp.None? then
        (if u.mode == O.Production then ready.Unwell(u).DropFrame() else ready.(uncounted := ready.uncounted + 1),
         O.Raised)
      else
        var datagrams := EncodeAll(u, frame, stamp.value, frame.nodes);
        if datagrams.None? then
          (ready.Counted(false).Unwell(u).DropFrame(), if u.mode == O.Production then O.Raised else O.Returned)
        else
          var rounds := RoundsFor(u, stamp.value);
          var (after, progress) := SendRounds(u, ready, frame, stamp.value, datagrams.value, rounds, rounds);
          Concluded(u, after, stamp.value, progress)
  }

  // --- the calls ---------------------------------------------------------------------------------

  function Sent(u: Setup, st: State, frame: Frame): (State, O.Outcome) {
    if !st.isOpen then
      (st.DropFrame().Unwell(u), if u.mode == O.Production then O.Raised else O.Returned)
    else
      var queued := st.(slot := Some(frame), health := if st.slot.Some? then st.health.DropFrame() else st.health);
      if u.autoFlush then Flushed(u, queued) else (queued, O.Returned)
  }

  function Closed(u: Setup, st: State): State { st.(hasSocket := u.socketAfterClose, isOpen := false) }

  /** `k` startup rounds with the sleeps between them. */
  function StartupRounds(u: Setup, st: State, k: nat): (State, bool) {
    if k == 0 then (st, true)
    else
      var (before, ok) := StartupRounds(u, st, k - 1);
      if !ok then (before, false)
      else
        var (after, us) := BeaconRound(u, before, None);
        if us.None? then (after, false) else if k < u.startupBeacons then Sleep(u, after) else (after, true)
  }

  function Startup(u: Setup, st: State, broadcastWorks: bool): (State, bool) {
    if u.mode == O.Production && st.hasSocket && !broadcastWorks then (st, false)
    else
      var (after, ok) := StartupRounds(u, st, u.startupBeacons);
      if ok && u.startupSpacingUs > 0 then Sleep(u, after) else (after, ok)
  }

  /** A fresh session: key frame wanted, beacons from 1, no times known. */
  function NewSession(st: State): State {
    st.(needsKey := true, nextBeacon := 1, lastBeaconUs := None, lastReadUs := None, trace := [])
  }

  function Opened(u: Setup, st: State, socketWorks: bool, broadcastWorks: bool): (State, O.Outcome) {
    if !st.hasSocket && u.mode == O.Production && !socketWorks then
      (Closed(u, st.(health := st.health.Unwell())), O.Raised)
    else
      var open := st.(hasSocket := st.hasSocket || u.mode == O.Production, isOpen := true,
                      health := st.health.(healthy := true));
      var session := NewSession(open);
      if !u.scheduled then (session, O.Returned)
      else
        var (after, ok) := Startup(u, session, broadcastWorks);
        if ok then (after, O.Returned) else (Closed(u, after.(health := after.health.Unwell())), O.Raised)
  }

  // --- whole runs --------------------------------------------------------------------------------

  datatype Op = OpenOp(socketWorks: bool, broadcastWorks: bool) | SendOp(frame: Frame) | FlushOp | CloseOp

  function Step(u: Setup, st: State, op: Op): State {
    match op
    case OpenOp(socketWorks, broadcastWorks) => Opened(u, st, socketWorks, broadcastWorks).0
    case SendOp(frame) => Sent(u, st, frame).0
    case FlushOp => Flushed(u, st).0
    case CloseOp => Closed(u, st)
  }

  function Initial(injectedSocket: bool): State {
    State(false, injectedSocket, None, O.NEW_HEALTH, true, 1, None, None, 0, 0, 0, 0, [])
  }

  function Run(u: Setup, injectedSocket: bool, ops: seq<Op>): State {
    if ops == [] then Initial(injectedSocket)
    else Step(u, Run(u, injectedSocket, ops[..|ops| - 1]), ops[|ops| - 1])
  }

  // --- the output --------------------------------------------------------------------------------

  class Output {
    const setup: Setup
    var isOpen: bool
    var hasSocket: bool
    var slot: Option<Frame>
    var health: O.Health
    var needsKey: bool
    var nextBeacon: int
    var lastBeaconUs: Option<int>
    var lastReadUs: Option<int>
    var clockReads: nat
    var sends: nat
    var sleeps: nat
    ghost var uncounted: nat
    ghost var trace: seq<Event>

    ghost function Now(): State
      reads this
    {
      State(isOpen, hasSocket, slot, health, needsKey, nextBeacon, lastBeaconUs, lastReadUs, clockReads, sends, sleeps,
            uncounted, trace)
    }

    constructor (setup: Setup, injectedSocket: bool)
      ensures this.setup == setup && Now() == Initial(injectedSocket)
    {
      this.setup := setup;
      isOpen, hasSocket, slot, health := false, injectedSocket, None, O.NEW_HEALTH;
      needsKey, nextBeacon, lastBeaconUs, lastReadUs := true, 1, None, None;
      clockReads, sends, sleeps, uncounted, trace := 0, 0, 0, 0, [];
    }

    method SendDatagram() returns (ok: bool)
      modifies this
      ensures (Now(), ok) == Send(setup, old(Now()))
    {
      if setup.mode != O.Production {
        return true;
      }
      if !hasSocket {
        return false;
      }
      sends := sends + 1;
      return !setup.sendFails(sends - 1);
    }

    method SleepOnce() returns (ok: bool)
      modifies this
      ensures (Now(), ok) == Sleep(setup, old(Now()))
    {
      sleeps := sleeps + 1;
      return !setup.sleepFails(sleeps - 1);
    }

    method ReadMonotonic() returns (us: Option<int>)
      modifies this
      ensures (Now(), us) == ReadClock(setup, old(Now()))
    {
      var value := setup.clock(clockReads);
      clockReads := clockReads + 1;
      if value < 0 || value > MAX_UINT64 || (lastReadUs.Some? && value < lastReadUs.value) {
        return None;
      }
      lastReadUs := Some(value);
      trace := trace + [Reading(value)];
      return Some(value);
    }

    method Count(ok: bool)
      modifies this`health
      ensures health == old(Now()).Counted(ok).health
    {
      if ok {
        health := health.(packetsSent := health.packetsSent + 1);
      } else {
        health := health.(packetsDropped := health.packetsDropped + 1);
      }
    }

    /** The production branch of the error handlers. */
    method MarkUnwell()
      modifies this`health
      ensures Now() == old(Now()).Unwell(setup)
    {
      if setup.mode == O.Production {
        health := health.Unwell();
      }
    }

    method SendClockBeacon(us: int, address: Address, sequence: int) returns (ok: bool)
      modifies this
      ensures (Now(), ok) == SendBeacon(setup, old(Now()), us, address, sequence)
    {
      ok := SendDatagram();
      trace := trace + [Beacon(sequence, us, address, ok)];
      Count(ok);
      if !ok {
        MarkUnwell();
      }
    }

    method SendClockBeaconRound(first: Option<int>) returns (us: Option<int>)
      modifies this
      ensures (Now(), us) == BeaconRound(setup, old(Now()), first)
    {
      hide ReadClock, SendBeacon;
      var sequence, last := nextBeacon, 0;
      ghost var start := Now();
      for k := 0 to |setup.beaconAddresses|
        invariant (Now(), Some(last)) == BeaconsTo(setup, start, first, k)
      {
        var reading := first;
        if k != 0 || first.None? {
          reading := ReadMonotonic();
        }
        if reading.None? {
          BeaconsStop(setup, start, first, k + 1, |setup.beaconAddresses|);
          return None;
        }
        var sent := SendClockBeacon(reading.value, setup.beaconAddresses[k], sequence);
        if !sent {
          BeaconsStop(setup, start, first, k + 1, |setup.beaconAddresses|);
          return None;
        }
        last := reading.value;
      }
      BeaconsKeepNumber(setup, start, first, |setup.beaconAddresses|);
      trace := trace + [Round(nextBeacon, last)];
      lastBeaconUs := Some(last);
      nextBeacon := (nextBeacon + 1) % TWO_32;
      return Some(last);
    }

    method ScheduleApplyAt() returns (applyAt: Option<int>)
      modifies this
      ensures (Now(), applyAt) == ScheduledApplyAt(setup, old(Now()))
    {
      hide ReadClock, BeaconRound;
      var now := ReadMonotonic();
      if now.None? {
        return None;
      }
      if lastBeaconUs.None? || now.value - lastBeaconUs.value >= setup.intervalUs {
        now := SendClockBeaconRound(now);
        if now.None? {
          return None;
        }
      }
      if now.value > MAX_UINT64 - setup.leadUs {
        return None;
      }
      return Some(now.value + setup.leadUs);
    }

    method Prepare(frame: Frame) returns (stamp: Option<Stamp>)
      modifies this
      ensures (Now(), stamp) == Prepared(setup, old(Now()), frame)
    {
      hide ScheduledApplyAt;
      var key := needsKey && frame.sequence == 1;
      if frame.mediaUs.None? {
        return None;
      }
      if frame.metadataApplyAt.Some? && (frame.metadataApplyAt.value < 1 || frame.metadataApplyAt.value > MAX_UINT64) {
        return None;
      }
      if !setup.scheduled {
        return Some(Stamp(key, frame.metadataApplyAt));
      }
      if frame.metadataApplyAt.Some? {
        return None;
      }
      var applyAt := ScheduleApplyAt();
      return if applyAt.None? then None else Some(Stamp(key, applyAt));
    }

    /** Everything is encoded before anything is sent. */
    method EncodeFrame(frame: Frame, stamp: Stamp) returns (datagrams: Option<seq<Datagram>>)
      ensures datagrams == EncodeAll(setup, frame, stamp, frame.nodes)
    {
      var all: seq<Datagram> := [];
      for k := 0 to |frame.nodes|
        invariant EncodeAll(setup, frame, stamp, frame.nodes[..k]) == Some(all)
      {
        var n := frame.nodes[k];
        assert frame.nodes[..k + 1][..k] == frame.nodes[..k];
        if n.enabled {
          if n.outputs == [] || setup.encode(n, frame, stamp).None? {
            EncodingStops(setup, frame, stamp, frame.nodes, k + 1);
            return None;
          }
          all := all + O.Addressed(setup.encode(n, frame, stamp).value, (n.host, n.port));
        }
      }
      assert frame.nodes[..|frame.nodes|] == frame.nodes;
      return Some(all);
    }

    /** One datagram of a frame, with its error handling. */
    method SendFrameDatagram(frame: Frame, stamp: Stamp, ok: bool, d: Datagram) returns (progress: Progress)
      modifies this
      ensures (Now(), progress) == SendOne(setup, old(Now()), frame, stamp, ok, d)
    {
      var sent := SendDatagram();
      trace := trace + [FrameDatagram(frame, stamp, d, sent)];
      Count(sent);
      if sent {
        return Going(ok);
      }
      MarkUnwell();
      if setup.mode == O.Production && !frame.safeState {
        health := health.DropFrame();
        return Stopped;
      }
      return Going(false);
    }

    method PauseBetweenRounds(ok: bool) returns (progress: Progress)
      modifies this
      ensures (Now(), progress) == Pause(setup, old(Now()), ok)
    {
      var slept := SleepOnce();
      if slept {
        return Going(ok);
      }
      if setup.mode == O.Production {
        MarkUnwell();
        health := health.DropFrame();
        return Stopped;
      }
      return Cut;
    }

    method SendAllRounds(frame: Frame, stamp: Stamp, datagrams: seq<Datagram>, rounds: nat) returns (progress: Progress)
      modifies this
      ensures (Now(), progress) == SendRounds(setup, old(Now()), frame, stamp, datagrams, rounds, rounds)
    {
      hide SendOne, Pause;
      progress := Going(true);
      ghost var start := Now();
      for k := 0 to rounds
        invariant progress.Going?
        invariant (Now(), progress) == SendRounds(setup, start, frame, stamp, datagrams, rounds, k)
      {
        var ok := progress.ok;
        ghost var before := Now();
        for i := 0 to |datagrams|
          invariant progress.Going?
          invariant (Now(), progress) == SendRound(setup, before, frame, stamp, ok, datagrams[..i])
        {
          assert datagrams[..i + 1][..i] == datagrams[..i];
          progress := SendFrameDatagram(frame, stamp, progress.ok, datagrams[i]);
          if !progress.Going? {
            RoundStops(setup, before, frame, stamp, ok, datagrams, i + 1);
            RoundsStop(setup, start, frame, stamp, datagrams, rounds, k + 1, rounds);
            return;
          }
        }
        assert datagrams[..|datagrams|] == datagrams;
        if k + 1 < rounds && setup.spacingUs > 0 {
          progress := PauseBetweenRounds(progress.ok);
          if !progress.Going? {
            RoundsStop(setup, start, frame, stamp, datagrams, rounds, k + 1, rounds);
            return;
          }
        }
      }
    }

    method FlushLatest() returns (r: O.Outcome)
      modifies this
      ensures (Now(), r) == Flushed(setup, old(Now()))
    {
      hide Prepared, EncodeAll, SendRounds, Concluded;
      if slot.None? {
        return O.Returned;
      }
      var frame := slot.value;
      slot := None;
      var stamp := Prepare(frame);
      if stamp.None? {
        if setup.mode == O.Production {
          MarkUnwell();
          health := health.DropFrame();
        } else {
          uncounted := uncounted + 1;
        }
        return O.Raised;
      }
      var datagrams := EncodeFrame(frame, stamp.value);
      if datagrams.None? {
        Count(false);
        MarkUnwell();
        health := health.DropFrame();
        return if setup.mode == O.Production then O.Raised else O.Returned;
      }
      var rounds: nat := if setup.scheduled && stamp.value.key then setup.repeats else 1;
      var progress := SendAllRounds(frame, stamp.value, datagrams.value, rounds);
      r := Conclude(stamp.value, progress);
    }

    /** Counts the frame, once the sending is over. */
    method Conclude(stamp: Stamp, progress: Progress) returns (r: O.Outcome)
      modifies this
      ensures (Now(), r) == Concluded(setup, old(Now()), stamp, progress)
    {
      match progress {
        case Stopped =>
          return O.Raised;
        case Cut =>
          health := health.DropFrame();
          return O.Returned;
        case Going(ok) =>
          if !ok {
            health := health.DropFrame();
            return if setup.mode == O.Production then O.Raised else O.Returned;
          }
          health := health.(framesSent := health.framesSent + 1);
          if stamp.key {
            needsKey := false;
            trace := trace + [KeyDelivered];
          }
          return O.Returned;
      }
    }

    method SendFrame(frame: Frame) returns (r: O.Outcome)
      modifies this
      ensures (Now(), r) == Sent(setup, old(Now()), frame)
    {
      hide Flushed;
      if !isOpen {
        health := health.DropFrame();
        MarkUnwell();
        return if setup.mode == O.Production then O.Raised else O.Returned;
      }
      if slot.Some? {
        health := health.DropFrame();
      }
      slot := Some(frame);
      r := O.Returned;
      if setup.autoFlush {
        r := FlushLatest();
      }
    }

    method Close()
      modifies this
      ensures Now() == Closed(setup, old(Now()))
    {
      hasSocket := setup.socketAfterClose;
      isOpen := false;
    }

    method RunStartup(broadcastWorks: bool) returns (ok: bool)
      modifies this
      ensures (Now(), ok) == Startup(setup, old(Now()), broadcastWorks)
    {
      hide BeaconRound, Sleep;
      if setup.mode == O.Production && hasSocket && !broadcastWorks {
        return false;
      }
      ghost var start := Now();
      for k := 0 to setup.startupBeacons
        invariant (Now(), true) == StartupRounds(setup, start, k)
      {
        var us := SendClockBeaconRound(None);
        if us.None? {
          StartupStops(setup, start, k + 1, setup.startupBeacons);
          return false;
        }
        if k + 1 < setup.startupBeacons {
          var slept := SleepOnce();
          if !slept {
            StartupStops(setup, start, k + 1, setup.startupBeacons);
            return false;
          }
        }
      }
      ok := true;
      if setup.startupSpacingUs > 0 {
        ok := SleepOnce();
      }
    }

    method Open(socketWorks: bool, broadcastWorks: bool) returns (r: O.Outcome)
      modifies this
      ensures (Now(), r) == Opened(setup, old(Now()), socketWorks, broadcastWorks)
    {
      hide Startup, Closed, NewSession;
      if !hasSocket && setup.mode == O.Production {
        if !socketWorks {
          GiveUp();
          return O.Raised;
        }
        hasSocket := true;
      }
      isOpen := true;
      health := health.(healthy := true);
      StartSession();
      if !setup.scheduled {
        return O.Returned;
      }
      var ok := RunStartup(broadcastWorks);
      if !ok {
        GiveUp();
        return O.Raised;
      }
      return O.Returned;
    }

    method StartSession()
      modifies this
      ensures Now() == NewSession(old(Now()))
    {
      needsKey, nextBeacon, lastBeaconUs, lastReadUs, trace := true, 1, None, None, [];
    }

    /** The error handlers of opening. */
    method GiveUp()
      modifies this
      ensures Now() == Closed(setup, old(Now()).(health := old(health).Unwell()))
    {
      health := health.Unwell();
      Close();
    }
  }

  // --- a loop that gives up early leaves what the whole would ------------------------------------

  lemma {:induction false} BeaconsStop(u: Setup, st: State, first: Option<int>, k: nat, n: nat)
    requires k <= n <= |u.beaconAddresses| && BeaconsTo(u, st, first, k).1.None?
    ensures BeaconsTo(u, st, first, n) == BeaconsTo(u, st, first, k)
    decreases n
  {
    hide ReadClock, SendBeacon;
    if k < n {
      BeaconsStop(u, st, first, k, n - 1);
    }
  }

  lemma {:induction false} BeaconsKeepNumber(u: Setup, st: State, first: Option<int>, k: nat)
    requires k <= |u.beaconAddresses|
    ensures BeaconsTo(u, st, first, k).0.nextBeacon == st.nextBeacon
  {
    hide ReadClock, SendBeacon;
    if k > 0 {
      BeaconsKeepNumber(u, st, first, k - 1);
      var before := BeaconsTo(u, st, first, k - 1).0;
      OneBeaconKeepsNumber(u, before, 0, u.beaconAddresses[k - 1], st.nextBeacon);
      var (timed, us) := if k == 1 && first.Some? then (before, first) else ReadClock(u, before);
      if us.Some? {
        OneBeaconKeepsNumber(u, timed, us.value, u.beaconAddresses[k - 1], st.nextBeacon);
      }
    }
  }

  lemma OneBeaconKeepsNumber(u: Setup, st: State, us: int, address: Address, sequence: int)
    ensures ReadClock(u, st).0.nextBeacon == st.nextBeacon
    ensures SendBeacon(u, st, us, address, sequence).0.nextBeacon == st.nextBeacon
  {
  }

  lemma {:induction false} EncodingStops(u: Setup, frame: Frame, stamp: Stamp, nodes: seq<NodeFrame>, k: nat)
    requires k <= |nodes| && EncodeAll(u, frame, stamp, nodes[..k]).None?
    ensures EncodeAll(u, frame, stamp, nodes).None?
    decreases |nodes|
  {
    if k == |nodes| {
      assert nodes[..k] == nodes;
    } else {
      assert nodes[..|nodes| - 1][..k] == nodes[..k];
      EncodingStops(u, frame, stamp, nodes[..|nodes| - 1], k);
    }
  }

  lemma {:induction false} RoundStops(
      u: Setup, st: State, frame: Frame, stamp: Stamp, ok: bool, ds: seq<Datagram>, k: nat)
    requires k <= |ds| && !SendRound(u, st, frame, stamp, ok, ds[..k]).1.Going?
    ensures SendRound(u, st, frame, stamp, ok, ds) == SendRound(u, st, frame, stamp, ok, ds[..k])
    decreases |ds|
  {
    hide SendOne;
    if k == |ds| {
      assert ds[..k] == ds;
    } else {
      assert ds[..|ds| - 1][..k] == ds[..k];
      RoundStops(u, st, frame, stamp, ok, ds[..|ds| - 1], k);
    }
  }

  lemma {:induction false} RoundsStop(
      u: Setup, st: State, frame: Frame, stamp: Stamp, ds: seq<Datagram>, rounds: nat, k: nat, n: nat)
    requires k <= n && !SendRounds(u, st, frame, stamp, ds, rounds, k).1.Going?
    ensures SendRounds(u, st, frame, stamp, ds, rounds, n) == SendRounds(u, st, frame, stamp, ds, rounds, k)
    decreases n
  {
    hide SendRound, Pause;
    if k < n {
      RoundsStop(u, st, frame, stamp, ds, rounds, k, n - 1);
    }
  }

  lemma {:induction false} StartupStops(u: Setup, st: State, k: nat, n: nat)
    requires k <= n && !StartupRounds(u, st, k).1
    ensures StartupRounds(u, st, n) == StartupRounds(u, st, k)
    decreases n
  {
    hide BeaconRound, Sleep;
    if k < n {
      StartupStops(u, st, k, n - 1);
    }
  }
}
