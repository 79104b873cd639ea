/** What becomes of every frame offered to the UDP v3 output, and what a frame counted as sent has put on the wire. */
module UdpV3Accounting {
  import opened Util
  import opened Fields
  import M = FrameMapping
  import opened UdpV3Output
  import O = DatagramOutput

  /** The frame counters and the queue are untouched, except for `drops` more dropped frames. */
  predicate SameFrames(a: State, b: State, drops: nat) {
    && b.slot == a.slot && b.uncounted == a.uncounted
    && b.health.framesSent == a.health.framesSent && b.health.framesDropped == a.health.framesDropped + drops
  }

  // --- no step before the end of a flush counts a frame ------------------------------------------

  lemma StepsKeepFrames(u: Setup, st: State, us: int, address: Address, sequence: int)
    ensures SameFrames(st, ReadClock(u, st).0, 0)
    ensures SameFrames(st, Sleep(u, st).0, 0)
    ensures SameFrames(st, SendBeacon(u, st, us, address, sequence).0, 0)
  {
    hide Send;
    SendKeepsFrames(u, st);
  }

  lemma {:induction false} BeaconsKeepFrames(u: Setup, st: State, first: Option<int>, k: nat)
    requires k <= |u.beaconAddresses|
    ensures SameFrames(st, BeaconsTo(u, st, first, k).0, 0)
  {
    hide ReadClock, SendBeacon;
    if k > 0 {
      BeaconsKeepFrames(u, st, first, k - 1);
      var before := BeaconsTo(u, st, first, k - 1).0;
      StepsKeepFrames(u, before, 0, u.beaconAddresses[k - 1], st.nextBeacon);
      var (timed, us) := if k == 1 && first.Some? then (before, first) else ReadClock(u, before);
      if us.Some? {
        StepsKeepFrames(u, timed, us.value, u.beaconAddresses[k - 1], st.nextBeacon);
      }
    }
  }

  lemma RoundKeepsFrames(u: Setup, st: State, first: Option<int>)
    ensures SameFrames(st, BeaconRound(u, st, first).0, 0)
  {
    hide BeaconsTo;
    BeaconsKeepFrames(u, st, first, |u.beaconAddresses|);
  }

  lemma PreparationKeepsFrames(u: Setup, st: State, frame: Frame)
    ensures SameFrames(st, Prepared(u, st, frame).0, 0)
  {
    hide ReadClock, BeaconRound;
    StepsKeepFrames(u, st, 0, ("", 0), 0);
    RoundKeepsFrames(u, ReadClock(u, st).0, ReadClock(u, st).1);
  }

  function Drops(p: Progress): nat { if p.Stopped? then 1 else 0 }

  lemma SendOneKeepsFrames(u: Setup, st: State, frame: Frame, stamp: Stamp, ok: bool, d: Datagram)
    ensures var (after, p) := SendOne(u, st, frame, stamp, ok, d); SameFrames(st, after, Drops(p))
  {
    hide Send;
    SendKeepsFrames(u, st);
  }

  lemma SendKeepsFrames(u: Setup, st: State)
    ensures SameFrames(st, Send(u, st).0, 0)
  {
  }

  lemma PauseKeepsFrames(u: Setup, st: State, ok: bool)
    ensures var (after, p) := Pause(u, st, ok); SameFrames(st, after, Drops(p))
  {
  }

  lemma {:induction false} SendRoundKeepsFrames(
      u: Setup, st: State, frame: Frame, stamp: Stamp, ok: bool, ds: seq<Datagram>)
    ensures var (after, p) := SendRound(u, st, frame, stamp, ok, ds); SameFrames(st, after, Drops(p))
  {
    hide SendOne;
    if ds != [] {
      SendRoundKeepsFrames(u, st, frame, stamp, ok, ds[..|ds| - 1]);
      var (before, p) := SendRound(u, st, frame, stamp, ok, ds[..|ds| - 1]);
      if p.Going? {
        SendOneKeepsFrames(u, before, frame, stamp, p.ok, ds[|ds| - 1]);
      }
    }
  }

  lemma {:induction false} SendRoundsKeepFrames(
      u: Setup, st: State, frame: Frame, stamp: Stamp, ds: seq<Datagram>, rounds: nat, k: nat)
    ensures var (after, p) := SendRounds(u, st, frame, stamp, ds, rounds, k); SameFrames(st, after, Drops(p))
  {
    hide SendRound, Pause;
    if k > 0 {
      SendRoundsKeepFrames(u, st, frame, stamp, ds, rounds, k - 1);
      var (before, p) := SendRounds(u, st, frame, stamp, ds, rounds, k - 1);
      if p.Going? {
        SendRoundKeepsFrames(u, before, frame, stamp, p.ok, ds);
        var (after, sent) := SendRound(u, before, frame, stamp, p.ok, ds);
        if sent.Going? {
          PauseKeepsFrames(u, after, sent.ok);
        }
      }
    }
  }

  // --- one flush ---------------------------------------------------------------------------------

  /** A flush loses its frame without a counter. */
  predicate LosesFrame(u: Setup, st: State) {
    && st.slot.Some? && u.mode != O.Production
    && Prepared(u, st.(slot := None), st.slot.value).1.None?
  }

  function Counters(st: State): int { st.health.framesSent + st.health.framesDropped }

  lemma ConcludeAccounts(u: Setup, st: State, stamp: Stamp, p: Progress)
    ensures var (after, r) := Concluded(u, st, stamp, p);
      && after.slot == st.slot && after.uncounted == st.uncounted
      && Counters(after) == Counters(st) + 1 - Drops(p)
  {
  }

  /** Sent, dropped, or, outside production mode and only when its preparation raised, lost without a count. */
  lemma FlushAccounts(u: Setup, st: State)
    ensures var (after, r) := Flushed(u, st);
      && after.slot == None
      && Counters(after) == Counters(st) + (if LosesFrame(u, st) then 0 else st.Pending())
      && after.uncounted == st.uncounted + (if LosesFrame(u, st) then 1 else 0)
  {
    hide Prepared, EncodeAll, SendRounds, Concluded;
    if st.slot.Some? {
      var frame, popped := st.slot.value, st.(slot := None);
      PreparationKeepsFrames(u, popped, frame);
      var (ready, stamp) := Prepared(u, popped, frame);
      if stamp.Some? {
        var ds := EncodeAll(u, frame, stamp.value, frame.nodes);
        if ds.Some? {
          var rounds := RoundsFor(u, stamp.value);
          SendRoundsKeepFrames(u, ready, frame, stamp.value, ds.value, rounds, rounds);
          var (after, p) := SendRounds(u, ready, frame, stamp.value, ds.value, rounds, rounds);
          ConcludeAccounts(u, after, stamp.value, p);
        }
      }
    }
  }

  // --- opening -----------------------------------------------------------------------------------

  lemma {:induction false} StartupKeepsFrames(u: Setup, st: State, k: nat)
    ensures SameFrames(st, StartupRounds(u, st, k).0, 0)
  {
    hide BeaconRound, Sleep;
    if k > 0 {
      StartupKeepsFrames(u, st, k - 1);
      var before := StartupRounds(u, st, k - 1).0;
      RoundKeepsFrames(u, before, None);
      StepsKeepFrames(u, BeaconRound(u, before, None).0, 0, ("", 0), 0);
    }
  }

  lemma OpenKeepsFrames(u: Setup, st: State, socketWorks: bool, broadcastWorks: bool)
    ensures SameFrames(st, Opened(u, st, socketWorks, broadcastWorks).0, 0)
  {
    hide StartupRounds, Sleep;
    var open := st.(hasSocket := st.hasSocket || u.mode == O.Production, isOpen := true,
                    health := st.health.(healthy := true));
    StartupKeepsFrames(u, NewSession(open), u.startupBeacons);
    StepsKeepFrames(u, StartupRounds(u, NewSession(open), u.startupBeacons).0, 0, ("", 0), 0);
  }

  // --- whole runs --------------------------------------------------------------------------------

  function Offered(ops: seq<Op>): nat {
    if ops == [] then 0 else Offered(ops[..|ops| - 1]) + (if ops[|ops| - 1].SendOp? then 1 else 0)
  }

  /** The state that the flush of a call starts from, if the call flushes. */
  function BeforeFlush(u: Setup, st: State, op: Op): Option<State> {
    match op
    case OpenOp(_, _) => None
    case CloseOp => None
    case FlushOp => Some(st)
    case SendOp(frame) =>
      if !st.isOpen || !u.autoFlush then None
      else Some(st.(slot := Some(frame), health := if st.slot.Some? then st.health.DropFrame() else st.health))
  }

  /** The number of flushes of a run that lost their frame. */
  function Lost(u: Setup, injectedSocket: bool, ops: seq<Op>): nat {
    if ops == [] then 0
    else
      var init, op := ops[..|ops| - 1], ops[|ops| - 1];
      var from := BeforeFlush(u, Run(u, injectedSocket, init), op);
      Lost(u, injectedSocket, init) + (if from.Some? && LosesFrame(u, from.value) then 1 else 0)
  }

  lemma StepAccounts(u: Setup, st: State, op: Op)
    ensures var after, from := Step(u, st, op), BeforeFlush(u, st, op);
      var lost := if from.Some? && LosesFrame(u, from.value) then 1 else 0;
      && after.uncounted == st.uncounted + lost
      && Counters(after) + after.Pending() + lost == Counters(st) + st.Pending() + (if op.SendOp? then 1 else 0)
  {
    hide Flushed, Opened, Prepared;
    match op {
      case OpenOp(socketWorks, broadcastWorks) => OpenKeepsFrames(u, st, socketWorks, broadcastWorks);
      case CloseOp =>
      case FlushOp => FlushAccounts(u, st);
      case SendOp(frame) =>
        var health := if st.slot.Some? then st.health.DropFrame() else st.health;
        FlushAccounts(u, st.(slot := Some(frame), health := health));
    }
  }

  /** Over every run, through every failure and exception: the frames offered are those sent, dropped, still waiting,
      and those lost to a preparation that raised outside production mode. */
  lemma {:induction false} EveryFrameIsAccountedFor(u: Setup, injectedSocket: bool, ops: seq<Op>)
    ensures var st := Run(u, injectedSocket, ops);
      && Offered(ops) == st.health.framesSent + st.health.framesDropped + st.Pending() + Lost(u, injectedSocket, ops)
      && st.uncounted == Lost(u, injectedSocket, ops)
  {
    hide Step, LosesFrame, BeforeFlush;
    if ops != [] {
      EveryFrameIsAccountedFor(u, injectedSocket, ops[..|ops| - 1]);
      StepAccounts(u, Run(u, injectedSocket, ops[..|ops| - 1]), ops[|ops| - 1]);
    }
  }

  lemma {:induction false} ProductionLosesNothing(u: Setup, injectedSocket: bool, ops: seq<Op>)
    requires u.mode == O.Production
    ensures Lost(u, injectedSocket, ops) == 0
    ensures var st := Run(u, injectedSocket, ops);
      Offered(ops) == st.health.framesSent + st.health.framesDropped + st.Pending()
  {
    hide Run;
    EveryFrameIsAccountedFor(u, injectedSocket, ops);
    if ops != [] {
      ProductionLosesNothing(u, injectedSocket, ops[..|ops| - 1]);
    }
  }

  /** Outside production mode the accounting can fail: in memory mode one frame whose metadata asks for time 0 is
      gone. */
  lemma MemoryModeLosesAFrame(u: Setup, frame: Frame)
    requires u.mode == O.Memory && !u.scheduled && u.autoFlush && frame.metadataApplyAt == Some(0)
    ensures var ops := [OpenOp(true, true), SendOp(frame)]; var st := Run(u, false, ops);
      Offered(ops) == 1 && st.health.framesSent == st.health.framesDropped == st.Pending() == 0
  {
    var first: seq<Op> := [OpenOp(true, true)];
    var ops: seq<Op> := [OpenOp(true, true), SendOp(frame)];
    assert ops[..|ops| - 1] == first && first[..|first| - 1] == [];
    assert Run(u, false, []) == Initial(false);
    assert Offered(first) == 0;
    var ready := Run(u, false, first);
    assert ready == Opened(u, Initial(false), true, true).0;
    assert Run(u, false, ops) == Sent(u, ready, frame).0;
  }

  // --- when a preparation raises -----------------------------------------------------------------

  /** The next `n` readings are uint64 values that do not move backwards from the last one. */
  predicate GoodReadings(u: Setup, from: nat, last: Option<int>, n: nat) {
    n == 0 || (
      && GoodReadings(u, from, last, n - 1)
      && 0 <= u.clock(from + n - 1) <= MAX_UINT64
      && (if n == 1 then last.Some? ==> last.value <= u.clock(from)
          else u.clock(from + n - 2) <= u.clock(from + n - 1)))
  }

  /** The clock readings that a scheduled deadline takes. */
  function ReadingsFor(u: Setup, st: State): nat {
    if st.lastBeaconUs.None? || u.clock(st.clockReads) - st.lastBeaconUs.value >= u.intervalUs
    then |u.beaconAddresses|
    else 1
  }

  /** Outside production mode, where no send fails, what is wrong with the frame or with the clock. */
  predicate BadPreparation(u: Setup, st: State, frame: Frame)
    requires u.Valid()
  {
    if frame.mediaUs.None? then true
    else if !u.scheduled then frame.metadataApplyAt.Some? && !(1 <= frame.metadataApplyAt.value <= MAX_UINT64)
    else
      var n := ReadingsFor(u, st);
      || frame.metadataApplyAt.Some?
      || !GoodReadings(u, st.clockReads, st.lastReadUs, n)
      || u.clock(st.clockReads + n - 1) > MAX_UINT64 - u.leadUs
  }

  lemma {:induction false} GoodPrefix(u: Setup, from: nat, last: Option<int>, k: nat, n: nat)
    requires k <= n && GoodReadings(u, from, last, n)
    ensures GoodReadings(u, from, last, k)
    decreases n
  {
    if k < n {
      GoodPrefix(u, from, last, k, n - 1);
    }
  }

  /** Every send goes out: outside production mode, or with a socket that takes everything. */
  ghost predicate SendsWork(u: Setup, st: State) {
    u.mode != O.Production || (st.hasSocket && forall i: nat :: !u.sendFails(i))
  }

  lemma SendGoesOut(u: Setup, st: State)
    requires SendsWork(u, st)
    ensures Send(u, st).1 && SendsWork(u, Send(u, st).0)
    ensures Send(u, st).0.lastReadUs == st.lastReadUs && Send(u, st).0.clockReads == st.clockReads
  {
  }

  lemma BeaconGoesOut(u: Setup, st: State, us: int, address: Address, sequence: int)
    requires SendsWork(u, st)
    ensures var (after, sent) := SendBeacon(u, st, us, address, sequence);
      sent && SendsWork(u, after) && after.lastReadUs == st.lastReadUs && after.clockReads == st.clockReads
  {
    hide Send;
    SendGoesOut(u, st);
  }

  lemma ReadingKeepsSends(u: Setup, st: State)
    requires SendsWork(u, st)
    ensures SendsWork(u, ReadClock(u, st).0)
  {
  }

  /** After a first good reading, a round takes one good reading for each further address, or fails. */
  lemma {:induction false} BeaconsReadTheClock(u: Setup, start: State, st: State, k: nat)
    requires SendsWork(u, st) && 1 <= k <= |u.beaconAddresses|
    requires ReadClock(u, start) == (st, Some(u.clock(start.clockReads)))
    ensures var (after, us) := BeaconsTo(u, st, Some(u.clock(start.clockReads)), k);
      && SendsWork(u, after)
      && if GoodReadings(u, start.clockReads, start.lastReadUs, k) then
           us == Some(u.clock(start.clockReads + k - 1)) == after.lastReadUs
           && after.clockReads == start.clockReads + k
         else us.None?
  {
    hide SendBeacon, SendsWork;
    var first := Some(u.clock(start.clockReads));
    if k > 1 {
      BeaconsReadTheClock(u, start, st, k - 1);
      var before := BeaconsTo(u, st, first, k - 1).0;
      ReadingKeepsSends(u, before);
      var (timed, us) := ReadClock(u, before);
      if us.Some? {
        BeaconGoesOut(u, timed, us.value, u.beaconAddresses[k - 1], st.nextBeacon);
      }
    } else {
      BeaconGoesOut(u, st, first.value, u.beaconAddresses[0], st.nextBeacon);
      assert GoodReadings(u, start.clockReads, start.lastReadUs, 0);
      assert BeaconsTo(u, st, first, 0) == (st, Some(0));
    }
  }

  /** When every send goes out, a preparation fails exactly for a frame or a clock out of bounds. */
  lemma PreparedIff(u: Setup, st: State, frame: Frame)
    requires u.Valid() && SendsWork(u, st)
    ensures Prepared(u, st, frame).1.None? <==> BadPreparation(u, st, frame)
    ensures SendsWork(u, Prepared(u, st, frame).0)
  {
    hide BeaconsTo, GoodReadings, SendsWork;
    OneReading(u, st);
    ReadingKeepsSends(u, st);
    var n := ReadingsFor(u, st);
    var (read, now) := ReadClock(u, st);
    if now.Some? {
      BeaconsReadTheClock(u, st, read, |u.beaconAddresses|);
      RoundKeepsSends(u, read, now);
    } else if GoodReadings(u, st.clockReads, st.lastReadUs, n) {
      GoodPrefix(u, st.clockReads, st.lastReadUs, 1, n);
    }
  }

  lemma RoundKeepsSends(u: Setup, st: State, first: Option<int>)
    requires SendsWork(u, BeaconsTo(u, st, first, |u.beaconAddresses|).0)
    ensures SendsWork(u, BeaconRound(u, st, first).0)
  {
    hide BeaconsTo;
  }

  /** The exact condition under which a flush outside production mode loses its frame: a frame or a clock that is out
      of bounds. It can be checked on the frame, the clock's next readings, and the last beacon time. */
  lemma LosesFrameIff(u: Setup, st: State)
    requires u.Valid() && u.mode != O.Production && st.slot.Some?
    ensures LosesFrame(u, st) <==> BadPreparation(u, st, st.slot.value)
  {
    hide Prepared, GoodReadings;
    PreparedIff(u, st.(slot := None), st.slot.value);
  }

  lemma OneReading(u: Setup, st: State)
    ensures GoodReadings(u, st.clockReads, st.lastReadUs, 1) <==> ReadClock(u, st).1.Some?
    ensures ReadClock(u, st).1.Some? ==> ReadClock(u, st).1 == Some(u.clock(st.clockReads))
  {
    assert GoodReadings(u, st.clockReads, st.lastReadUs, 0);
  }

  // --- what a frame wants on the wire ------------------------------------------------------------

  /** All nodes encode, the one list behind the other, or none do. */
  lemma {:induction false} EncodeAllInTwo(
      u: Setup, frame: Frame, stamp: Stamp, a: seq<M.NodeFrame>, b: seq<M.NodeFrame>)
    ensures var left, right := EncodeAll(u, frame, stamp, a), EncodeAll(u, frame, stamp, b);
      EncodeAll(u, frame, stamp, a + b)
      == if left.Some? && right.Some? then Some(left.value + right.value) else None
    decreases |b|
  {
    hide EncodeNode;
    if b == [] {
      assert a + b == a;
      var left := EncodeAll(u, frame, stamp, a);
      assert left.Some? ==> left.value + [] == left.value;
    } else {
      var init, n := b[..|b| - 1], b[|b| - 1];
      assert (a + b)[..|a + b| - 1] == a + init && (a + b)[|a + b| - 1] == n;
      EncodeAllInTwo(u, frame, stamp, a, init);
      var left, right, own := EncodeAll(u, frame, stamp, a), EncodeAll(u, frame, stamp, init),
                              EncodeNode(u, n, frame, stamp);
      if left.Some? && right.Some? && own.Some? {
        var more := O.Addressed(own.value, (n.host, n.port));
        assert left.value + right.value + more == left.value + (right.value + more);
      }
    }
  }

  /** A disabled node needs nothing; an enabled one has its packets sent to its own host and port, and none if it has
      no outputs. */
  lemma EncodeAllOfOne(u: Setup, frame: Frame, stamp: Stamp, n: M.NodeFrame)
    ensures var datagrams := EncodeAll(u, frame, stamp, [n]);
      if !n.enabled then datagrams == Some([])
      else if n.outputs == [] || u.encode(n, frame, stamp).None? then datagrams == None
      else var packets := u.encode(n, frame, stamp).value;
        && datagrams.Some? && |datagrams.value| == |packets|
        && forall i :: 0 <= i < |packets| ==> datagrams.value[i] == (packets[i], (n.host, n.port))
  {
    assert [n][..0] == [];
    assert EncodeAll(u, frame, stamp, []) == Some([]);
  }

  /** All nodes encode exactly if every enabled one does. */
  lemma {:induction false} EncodeAllIff(u: Setup, frame: Frame, stamp: Stamp, nodes: seq<M.NodeFrame>)
    ensures EncodeAll(u, frame, stamp, nodes).Some?
       <==> forall n <- nodes :: n.enabled ==> n.outputs != [] && u.encode(n, frame, stamp).Some?
  {
    if nodes != [] {
      var init, last := nodes[..|nodes| - 1], nodes[|nodes| - 1];
      EncodeAllIff(u, frame, stamp, init);
      assert forall n :: n in nodes <==> n in init || n == last;
    }
  }

  // --- deadlines ---------------------------------------------------------------------------------

  predicate LegalStamp(stamp: Stamp) { stamp.applyAt.Some? ==> 1 <= stamp.applyAt.value <= MAX_UINT64 }

  lemma {:induction false} BeaconTimesAreLegal(u: Setup, st: State, first: Option<int>, k: nat)
    requires k <= |u.beaconAddresses| && (first.Some? ==> 0 <= first.value <= MAX_UINT64)
    ensures var us := BeaconsTo(u, st, first, k).1; us.Some? ==> 0 <= us.value <= MAX_UINT64
  {
    hide SendBeacon;
    if k > 0 {
      BeaconTimesAreLegal(u, st, first, k - 1);
    }
  }

  /** A deadline is a positive uint64. */
  lemma PreparedStampIsLegal(u: Setup, st: State, frame: Frame)
    requires u.Valid()
    ensures var stamp := Prepared(u, st, frame).1; stamp.Some? ==> LegalStamp(stamp.value)
  {
    hide BeaconsTo;
    var (read, now) := ReadClock(u, st);
    if now.Some? {
      BeaconTimesAreLegal(u, read, now, |u.beaconAddresses|);
    }
  }

  // --- when nothing fails ------------------------------------------------------------------------

  lemma {:induction false} RoundGoesOut(u: Setup, st: State, frame: Frame, stamp: Stamp, ds: seq<Datagram>)
    requires SendsWork(u, st)
    ensures var (after, p) := SendRound(u, st, frame, stamp, true, ds); p == Going(true) && SendsWork(u, after)
  {
    hide SendsWork, Send;
    if ds != [] {
      RoundGoesOut(u, st, frame, stamp, ds[..|ds| - 1]);
      var before := SendRound(u, st, frame, stamp, true, ds[..|ds| - 1]).0;
      SendGoesOut(u, before);
      CountingKeepsSends(u, Send(u, before).0, FrameDatagram(frame, stamp, ds[|ds| - 1], true));
    }
  }

  lemma CountingKeepsSends(u: Setup, st: State, e: Event)
    requires SendsWork(u, st)
    ensures SendsWork(u, st.Log(e).Counted(true)) && SendsWork(u, Sleep(u, st).0)
  {
  }

  lemma {:induction false} RoundsGoOut(
      u: Setup, st: State, frame: Frame, stamp: Stamp, ds: seq<Datagram>, rounds: nat, k: nat)
    requires SendsWork(u, st) && forall i: nat :: !u.sleepFails(i)
    ensures var (after, p) := SendRounds(u, st, frame, stamp, ds, rounds, k); p == Going(true) && SendsWork(u, after)
  {
    hide SendsWork, SendRound;
    if k > 0 {
      RoundsGoOut(u, st, frame, stamp, ds, rounds, k - 1);
      var before := SendRounds(u, st, frame, stamp, ds, rounds, k - 1).0;
      RoundGoesOut(u, before, frame, stamp, ds);
      CountingKeepsSends(u, SendRound(u, before, frame, stamp, true, ds).0, KeyDelivered);
    }
  }

  /** A frame within bounds, on a clock within bounds, whose enabled nodes all encode, is counted as sent when no send
      and no pause fails, and the call returns. */
  lemma SentIfNothingFails(u: Setup, st: State)
    requires u.Valid() && st.slot.Some? && SendsWork(u, st) && forall i: nat :: !u.sleepFails(i)
    requires !BadPreparation(u, st, st.slot.value)
    requires forall stamp: Stamp :: LegalStamp(stamp) ==>
      EncodeAll(u, st.slot.value, stamp, st.slot.value.nodes).Some?
    ensures var (after, r) := Flushed(u, st);
      && r == O.Returned && after.slot.None?
      && after.health.framesSent == st.health.framesSent + 1 && after.health.framesDropped == st.health.framesDropped
  {
    hide Prepared, EncodeAll, SendRounds, GoodReadings;
    var frame, popped := st.slot.value, st.(slot := None);
    PreparedIff(u, popped, frame);
    PreparedStampIsLegal(u, popped, frame);
    PreparationKeepsFrames(u, popped, frame);
    var (ready, stamp) := Prepared(u, popped, frame);
    var ds, rounds := EncodeAll(u, frame, stamp.value, frame.nodes).value, RoundsFor(u, stamp.value);
    RoundsGoOut(u, ready, frame, stamp.value, ds, rounds, rounds);
    SendRoundsKeepFrames(u, ready, frame, stamp.value, ds, rounds, rounds);
  }

  /** A frame that encodes under no legal stamp is never counted as sent. */
  lemma NotSentUnlessEncoded(u: Setup, st: State)
    requires u.Valid() && st.slot.Some?
    requires forall stamp: Stamp :: LegalStamp(stamp) ==>
      EncodeAll(u, st.slot.value, stamp, st.slot.value.nodes).None?
    ensures Flushed(u, st).0.health.framesSent == st.health.framesSent
  {
    hide Prepared, EncodeAll, SendRounds;
    PreparedStampIsLegal(u, st.(slot := None), st.slot.value);
    PreparationKeepsFrames(u, st.(slot := None), st.slot.value);
  }

  // --- what a sent frame has put on the wire -----------------------------------------------------

  function Delivered(frame: Frame, stamp: Stamp, ds: seq<Datagram>): seq<Event> {
    seq(|ds|, i requires 0 <= i < |ds| => FrameDatagram(frame, stamp, ds[i], true))
  }

  function Repeated(t: seq<Event>, n: nat): seq<Event> { if n == 0 then [] else Repeated(t, n - 1) + t }

  lemma {:induction false} RoundDelivers(u: Setup, st: State, frame: Frame, stamp: Stamp, ok: bool, ds: seq<Datagram>)
    ensures var (after, p) := SendRound(u, st, frame, stamp, ok, ds);
      p == Going(true) ==> ok && after.trace == st.trace + Delivered(frame, stamp, ds)
  {
    if ds == [] {
      assert Delivered(frame, stamp, ds) == [];
    } else {
      var init, d := ds[..|ds| - 1], ds[|ds| - 1];
      RoundDelivers(u, st, frame, stamp, ok, init);
      assert Delivered(frame, stamp, ds) == Delivered(frame, stamp, init) + [FrameDatagram(frame, stamp, d, true)];
    }
  }

  lemma {:induction false} RoundsDeliver(
      u: Setup, st: State, frame: Frame, stamp: Stamp, ds: seq<Datagram>, rounds: nat, k: nat)
    ensures var (after, p) := SendRounds(u, st, frame, stamp, ds, rounds, k);
      p == Going(true) ==> after.trace == st.trace + Repeated(Delivered(frame, stamp, ds), k)
  {
    hide SendRound, Delivered;
    if k > 0 {
      RoundsDeliver(u, st, frame, stamp, ds, rounds, k - 1);
      var (before, p) := SendRounds(u, st, frame, stamp, ds, rounds, k - 1);
      if p.Going? {
        RoundDelivers(u, before, frame, stamp, p.ok, ds);
      }
    }
  }

  /** A frame counted as sent was prepared and encoded, and all its datagrams were delivered in order, the whole set
      again for each repetition of a session start, with nothing else between; exactly then is a key frame marked
      delivered. */
  lemma SentMeansDelivered(u: Setup, st: State)
    requires st.slot.Some? && Flushed(u, st).0.health.framesSent > st.health.framesSent
    ensures var frame := st.slot.value; var (after, r) := Flushed(u, st);
      var (ready, stamp) := Prepared(u, st.(slot := None), frame);
      && r == O.Returned && stamp.Some?
      && var ds := EncodeAll(u, frame, stamp.value, frame.nodes);
      && ds.Some?
      && after.trace == ready.trace + Repeated(Delivered(frame, stamp.value, ds.value), RoundsFor(u, stamp.value))
                        + (if stamp.value.key then [KeyDelivered] else [])
  {
    hide Prepared, EncodeAll, SendRounds, Delivered, Repeated;
    var frame, popped := st.slot.value, st.(slot := None);
    PreparationKeepsFrames(u, popped, frame);
    var (ready, stamp) := Prepared(u, popped, frame);
    assert stamp.Some?;
    var ds := EncodeAll(u, frame, stamp.value, frame.nodes);
    assert ds.Some?;
    var rounds := RoundsFor(u, stamp.value);
    SendRoundsKeepFrames(u, ready, frame, stamp.value, ds.value, rounds, rounds);
    RoundsDeliver(u, ready, frame, stamp.value, ds.value, rounds, rounds);
  }

  // --- exceptions in production mode -------------------------------------------------------------

  /** A datagram of this frame has failed, and the output knows. */
  predicate Noted(st: State, ok: bool) { !ok ==> !st.health.healthy }

  predicate NotedOrGoing(st: State, p: Progress) {
    match p
    case Going(ok) => Noted(st, ok)
    case Cut => false
    case Stopped => !st.health.healthy
  }

  lemma SendOneNotes(u: Setup, st: State, frame: Frame, stamp: Stamp, ok: bool, d: Datagram)
    requires u.mode == O.Production && Noted(st, ok)
    ensures var (after, p) := SendOne(u, st, frame, stamp, ok, d); NotedOrGoing(after, p)
  {
    hide Send;
    SendKeepsHealth(u, st);
  }

  lemma SendKeepsHealth(u: Setup, st: State)
    ensures Send(u, st).0.health == st.health
  {
  }

  lemma PauseNotes(u: Setup, st: State, ok: bool)
    requires u.mode == O.Production && Noted(st, ok)
    ensures var (after, p) := Pause(u, st, ok); NotedOrGoing(after, p)
  {
  }

  lemma {:induction false} SendRoundNotes(
      u: Setup, st: State, frame: Frame, stamp: Stamp, ok: bool, ds: seq<Datagram>)
    requires u.mode == O.Production && Noted(st, ok)
    ensures var (after, p) := SendRound(u, st, frame, stamp, ok, ds); NotedOrGoing(after, p)
  {
    hide SendOne;
    if ds != [] {
      SendRoundNotes(u, st, frame, stamp, ok, ds[..|ds| - 1]);
      var (before, p) := SendRound(u, st, frame, stamp, ok, ds[..|ds| - 1]);
      if p.Going? {
        SendOneNotes(u, before, frame, stamp, p.ok, ds[|ds| - 1]);
      }
    }
  }

  lemma {:induction false} SendRoundsNote(
      u: Setup, st: State, frame: Frame, stamp: Stamp, ds: seq<Datagram>, rounds: nat, k: nat)
    requires u.mode == O.Production
    ensures var (after, p) := SendRounds(u, st, frame, stamp, ds, rounds, k); NotedOrGoing(after, p)
  {
    hide SendRound, Pause;
    if k > 0 {
      SendRoundsNote(u, st, frame, stamp, ds, rounds, k - 1);
      var (before, p) := SendRounds(u, st, frame, stamp, ds, rounds, k - 1);
      if p.Going? {
        SendRoundNotes(u, before, frame, stamp, p.ok, ds);
        var (after, sent) := SendRound(u, before, frame, stamp, p.ok, ds);
        if sent.Going? {
          PauseNotes(u, after, sent.ok);
        }
      }
    }
  }

  lemma ConcludeRaisesIff(u: Setup, st: State, stamp: Stamp, p: Progress)
    requires u.mode == O.Production && NotedOrGoing(st, p)
    ensures var (after, r) := Concluded(u, st, stamp, p);
      && (r.Raised? <==> after.health.framesSent == st.health.framesSent)
      && (r.Raised? ==>
            !after.health.healthy && after.health.framesDropped == st.health.framesDropped + 1 - Drops(p))
  {
  }

  /** In production mode a flush raises exactly when it took a frame and did not send it, the safe state included, and
      then the output is unhealthy. */
  lemma ProductionRaisesIff(u: Setup, st: State)
    requires u.mode == O.Production
    ensures var (after, r) := Flushed(u, st);
      && (r.Raised? <==> st.slot.Some? && after.health.framesSent == st.health.framesSent)
      && (r.Raised? ==> !after.health.healthy && after.health.framesDropped == st.health.framesDropped + 1)
  {
    hide Prepared, EncodeAll, SendRounds, Concluded;
    if st.slot.Some? {
      var frame, popped := st.slot.value, st.(slot := None);
      PreparationKeepsFrames(u, popped, frame);
      var (ready, stamp) := Prepared(u, popped, frame);
      if stamp.Some? {
        var ds := EncodeAll(u, frame, stamp.value, frame.nodes);
        if ds.Some? {
          var rounds := RoundsFor(u, stamp.value);
          SendRoundsKeepFrames(u, ready, frame, stamp.value, ds.value, rounds, rounds);
          SendRoundsNote(u, ready, frame, stamp.value, ds.value, rounds, rounds);
          var (after, p) := SendRounds(u, ready, frame, stamp.value, ds.value, rounds, rounds);
          ConcludeRaisesIff(u, after, stamp.value, p);
        }
      }
    }
  }
}
