/** The packet counters of the UDP v3 output are those of its trace: every datagram handed to the transport is counted
    once, as sent or as dropped. And what is handed to it: all startup rounds, and all datagrams of a safe state. */
module UdpV3Counts {
  import opened Util
  import opened UdpV3Output
  import O = DatagramOutput

  predicate Went(e: Event, delivered: bool) {
    (e.Beacon? || e.FrameDatagram?) && e.delivered == delivered
  }

  /** Datagrams of a trace that the transport took, or refused. */
  function Datagrams(t: seq<Event>, delivered: bool): nat {
    if t == [] then 0 else Datagrams(t[..|t| - 1], delivered) + (if Went(t[|t| - 1], delivered) then 1 else 0)
  }

  lemma {:induction false} DatagramsInTwo(a: seq<Event>, b: seq<Event>, delivered: bool)
    ensures Datagrams(a + b, delivered) == Datagrams(a, delivered) + Datagrams(b, delivered)
    decreases |b|
  {
    if b == [] {
      assert a + b == a;
    } else {
      assert (a + b)[..|a + b| - 1] == a + b[..|b| - 1];
      DatagramsInTwo(a, b[..|b| - 1], delivered);
    }
  }

  /** What the counters say beyond the trace. */
  function SentBeyond(st: State): int { st.health.packetsSent - Datagrams(st.trace, true) }

  function DroppedBeyond(st: State): int { st.health.packetsDropped - Datagrams(st.trace, false) }

  /** Every datagram that came on was counted once. */
  predicate Tallied(a: State, b: State) {
    SentBeyond(b) == SentBeyond(a) && DroppedBeyond(b) == DroppedBeyond(a)
  }

  lemma OneMore(a: State, b: State, e: Event)
    requires b.trace == a.trace + [e]
    requires b.health.packetsSent == a.health.packetsSent + (if Went(e, true) then 1 else 0)
    requires b.health.packetsDropped == a.health.packetsDropped + (if Went(e, false) then 1 else 0)
    ensures Tallied(a, b)
  {
    assert b.trace[..|b.trace| - 1] == a.trace;
  }

  lemma SameTally(a: State, b: State)
    requires b.trace == a.trace
    requires b.health.packetsSent == a.health.packetsSent && b.health.packetsDropped == a.health.packetsDropped
    ensures Tallied(a, b)
  {
  }

  lemma SendKeepsCounts(u: Setup, st: State)
    ensures Send(u, st).0.trace == st.trace && Send(u, st).0.health == st.health && Send(u, st).0.isOpen == st.isOpen
  {
  }

  /** What a clock reading and a beacon change of trace and health. */
  lemma ReadingIs(u: Setup, st: State)
    ensures var (after, us) := ReadClock(u, st);
      && after.health == st.health && after.isOpen == st.isOpen
      && after.trace == (if us.Some? then st.trace + [Reading(us.value)] else st.trace)
  {
  }

  lemma BeaconIs(u: Setup, st: State, us: int, address: Address, sequence: int)
    ensures var (after, sent) := SendBeacon(u, st, us, address, sequence);
      && after.trace == st.trace + [Beacon(sequence, us, address, sent)] && after.isOpen == st.isOpen
      && after.health.packetsSent == st.health.packetsSent + (if sent then 1 else 0)
      && after.health.packetsDropped == st.health.packetsDropped + (if sent then 0 else 1)
      && (sent ==> after.health.healthy == st.health.healthy)
  {
    hide Send;
    SendKeepsCounts(u, st);
  }

  lemma StepsTally(u: Setup, st: State, us: int, address: Address, sequence: int)
    ensures Tallied(st, ReadClock(u, st).0) && Tallied(st, Sleep(u, st).0)
    ensures Tallied(st, SendBeacon(u, st, us, address, sequence).0)
  {
    hide Tallied, ReadClock, SendBeacon;
    SameTally(st, Sleep(u, st).0);
    ReadingIs(u, st);
    var (read, time) := ReadClock(u, st);
    if time.Some? {
      OneMore(st, read, Reading(time.value));
    } else {
      SameTally(st, read);
    }
    BeaconIs(u, st, us, address, sequence);
    var (after, sent) := SendBeacon(u, st, us, address, sequence);
    OneMore(st, after, Beacon(sequence, us, address, sent));
  }

  lemma {:induction false} BeaconsTally(u: Setup, st: State, first: Option<int>, k: nat)
    requires k <= |u.beaconAddresses|
    ensures Tallied(st, BeaconsTo(u, st, first, k).0)
  {
    hide ReadClock, SendBeacon, SentBeyond, DroppedBeyond;
    if k > 0 {
      BeaconsTally(u, st, first, k - 1);
      var (before, ok) := BeaconsTo(u, st, first, k - 1);
      if ok.Some? {
        StepsTally(u, before, 0, u.beaconAddresses[k - 1], st.nextBeacon);
        var (timed, us) := if k == 1 && first.Some? then (before, first) else ReadClock(u, before);
        if us.Some? {
          StepsTally(u, timed, us.value, u.beaconAddresses[k - 1], st.nextBeacon);
        }
      }
    }
  }

  lemma RoundTallies(u: Setup, st: State, first: Option<int>)
    ensures Tallied(st, BeaconRound(u, st, first).0)
  {
    hide BeaconsTo, SentBeyond, DroppedBeyond;
    BeaconsTally(u, st, first, |u.beaconAddresses|);
    var (after, us) := BeaconsTo(u, st, first, |u.beaconAddresses|);
    if us.Some? {
      OneMore(after, BeaconRound(u, st, first).0, Round(st.nextBeacon, us.value));
    }
  }

  lemma PreparationTallies(u: Setup, st: State, frame: Frame)
    ensures Tallied(st, Prepared(u, st, frame).0)
  {
    hide ReadClock, BeaconRound, SentBeyond, DroppedBeyond;
    StepsTally(u, st, 0, ("", 0), 0);
    RoundTallies(u, ReadClock(u, st).0, ReadClock(u, st).1);
  }

  lemma SendOneTallies(u: Setup, st: State, frame: Frame, stamp: Stamp, ok: bool, d: Datagram)
    ensures Tallied(st, SendOne(u, st, frame, stamp, ok, d).0)
  {
    hide Send;
    SendKeepsCounts(u, st);
    OneMore(st, SendOne(u, st, frame, stamp, ok, d).0, FrameDatagram(frame, stamp, d, Send(u, st).1));
  }

  lemma {:induction false} SendRoundTallies(
      u: Setup, st: State, frame: Frame, stamp: Stamp, ok: bool, ds: seq<Datagram>)
    ensures Tallied(st, SendRound(u, st, frame, stamp, ok, ds).0)
  {
    hide SendOne, SentBeyond, DroppedBeyond;
    if ds != [] {
      SendRoundTallies(u, st, frame, stamp, ok, ds[..|ds| - 1]);
      var (before, p) := SendRound(u, st, frame, stamp, ok, ds[..|ds| - 1]);
      if p.Going? {
        SendOneTallies(u, before, frame, stamp, p.ok, ds[|ds| - 1]);
      }
    }
  }

  lemma PauseTallies(u: Setup, st: State, ok: bool)
    ensures Tallied(st, Pause(u, st, ok).0)
  {
    SameTally(st, Pause(u, st, ok).0);
  }

  lemma {:induction false} SendRoundsTally(
      u: Setup, st: State, frame: Frame, stamp: Stamp, ds: seq<Datagram>, rounds: nat, k: nat)
    ensures Tallied(st, SendRounds(u, st, frame, stamp, ds, rounds, k).0)
  {
    hide SendRound, Pause, SentBeyond, DroppedBeyond;
    if k > 0 {
      SendRoundsTally(u, st, frame, stamp, ds, rounds, k - 1);
      var (before, p) := SendRounds(u, st, frame, stamp, ds, rounds, k - 1);
      if p.Going? {
        SendRoundTallies(u, before, frame, stamp, p.ok, ds);
        var (after, sent) := SendRound(u, before, frame, stamp, p.ok, ds);
        if sent.Going? {
          PauseTallies(u, after, sent.ok);
        }
      }
    }
  }

  lemma ConclusionTallies(u: Setup, st: State, stamp: Stamp, progress: Progress)
    ensures Tallied(st, Concluded(u, st, stamp, progress).0)
  {
    var after := Concluded(u, st, stamp, progress).0;
    if |after.trace| > |st.trace| {
      OneMore(st, after, KeyDelivered);
    } else {
      SameTally(st, after);
    }
  }

  /** A flush whose frame does not encode counts one dropped packet that was never handed to the transport. */
  predicate FailsToEncode(u: Setup, st: State) {
    && st.slot.Some?
    && var stamp := Prepared(u, st.(slot := None), st.slot.value).1;
       stamp.Some? && EncodeAll(u, st.slot.value, stamp.value, st.slot.value.nodes).None?
  }

  /** A flush counts every datagram that it hands to the transport once, as sent or as dropped, and one more dropped
      packet for a frame that does not encode. */
  lemma FlushTallies(u: Setup, st: State)
    ensures var after := Flushed(u, st).0;
      && SentBeyond(after) == SentBeyond(st)
      && DroppedBeyond(after) == DroppedBeyond(st) + (if FailsToEncode(u, st) then 1 else 0)
  {
    hide Prepared, EncodeAll, SendRounds, Concluded;
    if st.slot.Some? {
      var frame, popped := st.slot.value, st.(slot := None);
      PreparationTallies(u, popped, frame);
      var (ready, stamp) := Prepared(u, popped, frame);
      if stamp.Some? {
        var ds := EncodeAll(u, frame, stamp.value, frame.nodes);
        if ds.Some? {
          var rounds := RoundsFor(u, stamp.value);
          SendRoundsTally(u, ready, frame, stamp.value, ds.value, rounds, rounds);
          var (after, progress) := SendRounds(u, ready, frame, stamp.value, ds.value, rounds, rounds);
          ConclusionTallies(u, after, stamp.value, progress);
        }
      }
    }
  }

  // --- opening -----------------------------------------------------------------------------------

  lemma {:induction false} StartupTallies(u: Setup, st: State, k: nat)
    ensures Tallied(st, StartupRounds(u, st, k).0)
  {
    hide BeaconRound, SentBeyond, DroppedBeyond;
    if k > 0 {
      StartupTallies(u, st, k - 1);
      var (before, ok) := StartupRounds(u, st, k - 1);
      if ok {
        RoundTallies(u, before, None);
        StepsTally(u, BeaconRound(u, before, None).0, 0, ("", 0), 0);
      }
    }
  }

  function RoundsIn(t: seq<Event>): nat {
    if t == [] then 0 else RoundsIn(t[..|t| - 1]) + (if t[|t| - 1].Round? then 1 else 0)
  }

  lemma OneMoreEvent(t: seq<Event>, e: Event)
    ensures RoundsIn(t + [e]) == RoundsIn(t) + (if e.Round? then 1 else 0)
  {
    assert (t + [e])[..|t + [e]| - 1] == t;
  }

  lemma {:induction false} BeaconsAreNoRounds(u: Setup, st: State, first: Option<int>, k: nat)
    requires k <= |u.beaconAddresses|
    ensures var (after, us) := BeaconsTo(u, st, first, k);
      && RoundsIn(after.trace) == RoundsIn(st.trace) && after.isOpen == st.isOpen
      && (us.Some? ==> after.health.healthy == st.health.healthy)
  {
    hide ReadClock, SendBeacon, RoundsIn;
    if k > 0 {
      BeaconsAreNoRounds(u, st, first, k - 1);
      var (before, ok) := BeaconsTo(u, st, first, k - 1);
      if ok.Some? {
        ReadingIs(u, before);
        var (timed, us) := if k == 1 && first.Some? then (before, first) else ReadClock(u, before);
        if us.Some? {
          OneMoreEvent(before.trace, Reading(us.value));
          BeaconIs(u, timed, us.value, u.beaconAddresses[k - 1], st.nextBeacon);
          var sent := SendBeacon(u, timed, us.value, u.beaconAddresses[k - 1], st.nextBeacon).1;
          OneMoreEvent(timed.trace, Beacon(st.nextBeacon, us.value, u.beaconAddresses[k - 1], sent));
        }
      }
    }
  }

  lemma {:induction false} StartupCounts(u: Setup, st: State, k: nat)
    ensures var (after, ok) := StartupRounds(u, st, k); ok ==> RoundsIn(after.trace) == RoundsIn(st.trace) + k
  {
    hide BeaconRound, Sleep, RoundsIn;
    if k > 0 {
      StartupCounts(u, st, k - 1);
      var (before, ok) := StartupRounds(u, st, k - 1);
      if ok {
        RoundCounts(u, before);
        SleepStaysOpen(u, BeaconRound(u, before, None).0);
      }
    }
  }

  lemma RoundCounts(u: Setup, st: State)
    ensures var (after, us) := BeaconRound(u, st, None); us.Some? ==> RoundsIn(after.trace) == RoundsIn(st.trace) + 1
  {
    hide BeaconsTo, RoundsIn;
    BeaconsAreNoRounds(u, st, None, |u.beaconAddresses|);
    var (sent, us) := BeaconsTo(u, st, None, |u.beaconAddresses|);
    if us.Some? {
      OneMoreEvent(sent.trace, Round(st.nextBeacon, us.value));
    }
  }

  /** An output that opens in scheduled mode has completed all its startup rounds, and none in another mode. */
  lemma OpenedIsStarted(u: Setup, st: State, socketWorks: bool, broadcastWorks: bool)
    requires Opened(u, st, socketWorks, broadcastWorks).1.Returned?
    ensures var after := Opened(u, st, socketWorks, broadcastWorks).0;
      && after.isOpen && after.health.healthy
      && RoundsIn(after.trace) == (if u.scheduled then u.startupBeacons else 0)
      && (!u.scheduled ==> after.trace == [])
  {
    hide StartupRounds;
    var open := st.(hasSocket := st.hasSocket || u.mode.Production?, isOpen := true,
                    health := st.health.(healthy := true));
    StartupCounts(u, NewSession(open), u.startupBeacons);
    StartupStaysOpen(u, NewSession(open), u.startupBeacons);
  }

  lemma {:induction false} StartupStaysOpen(u: Setup, st: State, k: nat)
    ensures var (after, ok) := StartupRounds(u, st, k);
      after.isOpen == st.isOpen && (ok ==> after.health.healthy == st.health.healthy)
  {
    hide BeaconRound, Sleep;
    if k > 0 {
      StartupStaysOpen(u, st, k - 1);
      var (before, ok) := StartupRounds(u, st, k - 1);
      if ok {
        RoundStaysOpen(u, before, None);
        SleepStaysOpen(u, BeaconRound(u, before, None).0);
      }
    }
  }

  lemma SleepStaysOpen(u: Setup, st: State)
    ensures Sleep(u, st).0 == st.(sleeps := Sleep(u, st).0.sleeps)
  {
  }

  lemma RoundStaysOpen(u: Setup, st: State, first: Option<int>)
    ensures var (after, us) := BeaconRound(u, st, first);
      after.isOpen == st.isOpen && (us.Some? ==> after.health.healthy == st.health.healthy)
  {
    hide BeaconsTo, RoundsIn;
    BeaconsAreNoRounds(u, st, first, |u.beaconAddresses|);
  }

  /** An output that fails to open is closed and unhealthy. Closed, it takes no frame: it counts one more dropped,
      hands nothing to the transport, and raises in production mode. */
  lemma ClosedTakesNothing(u: Setup, injectedSocket: bool, ops: seq<Op>, op: Op, frame: Frame)
    requires op.CloseOp? || (op.OpenOp? && var st := Run(u, injectedSocket, ops);
                             Opened(u, st, op.socketWorks, op.broadcastWorks).1.Raised?)
    ensures var st := Run(u, injectedSocket, ops + [op]); var (after, r) := Sent(u, st, frame);
      && after.trace == st.trace && after.sends == st.sends && after.slot == st.slot
      && after.health.framesSent == st.health.framesSent && after.health.framesDropped == st.health.framesDropped + 1
      && (r.Raised? <==> u.mode == O.Production) && (r.Raised? ==> !after.health.healthy)
      && (op.OpenOp? ==> !st.health.healthy)
  {
    hide Startup, NewSession, Flushed;
    assert (ops + [op])[..|ops|] == ops;
  }

  // --- failures keep to their own datagram -------------------------------------------------------

  /** Whether the k-th send from here on goes out. */
  predicate GoesOut(u: Setup, st: State, k: nat) {
    u.mode != O.Production || (st.hasSocket && !u.sendFails(st.sends + k))
  }

  /** One round in which every datagram is tried, when `k` have been before it. */
  function TriedRound(u: Setup, st: State, frame: Frame, stamp: Stamp, ds: seq<Datagram>, k: nat): (t: seq<Event>)
    ensures |t| == |ds|
  {
    seq(|ds|, i requires 0 <= i < |ds| => FrameDatagram(frame, stamp, ds[i], GoesOut(u, st, k + i)))
  }

  function TriedRounds(u: Setup, st: State, frame: Frame, stamp: Stamp, ds: seq<Datagram>, n: nat): (t: seq<Event>)
    ensures |t| == n * |ds|
  {
    if n == 0 then []
    else
      var before := TriedRounds(u, st, frame, stamp, ds, n - 1);
      before + TriedRound(u, st, frame, stamp, ds, |before|)
  }

  predicate AllDelivered(t: seq<Event>) { forall e <- t :: e.FrameDatagram? && e.delivered }

  /** What a sequence of sends has left of the output that began it. */
  predicate Tries(u: Setup, st: State, after: State, t: seq<Event>) {
    && after.trace == st.trace + t && after.hasSocket == st.hasSocket
    && (u.mode == O.Production && st.hasSocket ==> after.sends == st.sends + |t|)
  }

  lemma OneTry(u: Setup, st: State, frame: Frame, stamp: Stamp, ok: bool, d: Datagram)
    requires frame.safeState || u.mode != O.Production
    ensures var (after, p) := SendOne(u, st, frame, stamp, ok, d);
      && p == Going(ok && GoesOut(u, st, 0)) && Tries(u, st, after, [FrameDatagram(frame, stamp, d, GoesOut(u, st, 0))])
      && after.health.framesSent == st.health.framesSent
  {
  }

  lemma {:induction false} RoundTriesAll(
      u: Setup, start: State, st: State, frame: Frame, stamp: Stamp, ok: bool, ds: seq<Datagram>, t: seq<Event>)
    requires frame.safeState || u.mode != O.Production
    requires Tries(u, start, st, t)
    ensures var (after, p) := SendRound(u, st, frame, stamp, ok, ds);
      var tried := TriedRound(u, start, frame, stamp, ds, |t|);
      && p == Going(ok && AllDelivered(tried)) && Tries(u, start, after, t + tried)
      && after.health.framesSent == st.health.framesSent
  {
    hide SendOne;
    if ds == [] {
      assert t + TriedRound(u, start, frame, stamp, ds, |t|) == t;
    } else {
      var init, d := ds[..|ds| - 1], ds[|ds| - 1];
      RoundTriesAll(u, start, st, frame, stamp, ok, init, t);
      var (before, p) := SendRound(u, st, frame, stamp, ok, init);
      OneTry(u, before, frame, stamp, p.ok, d);
      var tried := TriedRound(u, start, frame, stamp, init, |t|);
      var e := FrameDatagram(frame, stamp, d, GoesOut(u, start, |t| + |init|));
      assert GoesOut(u, before, 0) == GoesOut(u, start, |t| + |init|);
      assert TriedRound(u, start, frame, stamp, ds, |t|) == tried + [e];
      assert t + (tried + [e]) == t + tried + [e];
    }
  }

  lemma DeliveredInTwo(a: seq<Event>, b: seq<Event>)
    ensures AllDelivered(a + b) <==> AllDelivered(a) && AllDelivered(b)
  {
    assert forall e :: e in a + b <==> e in a || e in b;
  }

  lemma NothingTried(u: Setup, st: State)
    ensures Tries(u, st, st, []) && AllDelivered([])
  {
    assert st.trace + [] == st.trace;
  }

  lemma PauseTriesNothing(u: Setup, start: State, st: State, ok: bool, t: seq<Event>)
    requires Tries(u, start, st, t) && forall i: nat :: !u.sleepFails(i)
    ensures var (after, p) := Pause(u, st, ok);
      p == Going(ok) && Tries(u, start, after, t) && after.health == st.health
  {
  }

  lemma {:induction false} RoundsTryAll(
      u: Setup, st: State, frame: Frame, stamp: Stamp, ds: seq<Datagram>, rounds: nat, k: nat)
    requires (frame.safeState || u.mode != O.Production) && forall i: nat :: !u.sleepFails(i)
    ensures var (after, p) := SendRounds(u, st, frame, stamp, ds, rounds, k);
      var tried := TriedRounds(u, st, frame, stamp, ds, k);
      && p == Going(AllDelivered(tried)) && Tries(u, st, after, tried)
      && after.health.framesSent == st.health.framesSent
  {
    hide SendRound, TriedRound, AllDelivered, Pause, Tries;
    if k == 0 {
      NothingTried(u, st);
    } else {
      RoundsTryAll(u, st, frame, stamp, ds, rounds, k - 1);
      var (before, p) := SendRounds(u, st, frame, stamp, ds, rounds, k - 1);
      var earlier := TriedRounds(u, st, frame, stamp, ds, k - 1);
      RoundTriesAll(u, st, before, frame, stamp, p.ok, ds, earlier);
      DeliveredInTwo(earlier, TriedRound(u, st, frame, stamp, ds, |earlier|));
      var (after, sent) := SendRound(u, before, frame, stamp, p.ok, ds);
      PauseTriesNothing(u, st, after, sent.ok, TriedRounds(u, st, frame, stamp, ds, k));
    }
  }

  /** The safe state, and outside production mode any frame, has every datagram tried, in order and in every round,
      whatever became of the others; the frame counts as sent exactly if all of them went out. */
  lemma SafeStateTriesAll(u: Setup, st: State, ready: State, stamp: Stamp, ds: seq<Datagram>)
    requires st.slot.Some? && (st.slot.value.safeState || u.mode != O.Production)
    requires forall i: nat :: !u.sleepFails(i)
    requires Prepared(u, st.(slot := None), st.slot.value) == (ready, Some(stamp))
    requires EncodeAll(u, st.slot.value, stamp, st.slot.value.nodes) == Some(ds)
    ensures var after := Flushed(u, st).0;
      var rounds := if u.scheduled && stamp.key then u.repeats else 1;
      var tried := TriedRounds(u, ready, st.slot.value, stamp, ds, rounds);
      && (after.health.framesSent == ready.health.framesSent + 1 <==> AllDelivered(tried))
      && after.trace == ready.trace + tried + (if stamp.key && AllDelivered(tried) then [KeyDelivered] else [])
  {
    hide Prepared, EncodeAll, SendRounds, TriedRounds, AllDelivered;
    var rounds := if u.scheduled && stamp.key then u.repeats else 1;
    RoundsTryAll(u, ready, st.slot.value, stamp, ds, rounds, rounds);
  }
}
