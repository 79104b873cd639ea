/** The key phase of a UDP v3 session, told by its events alone, in scheduled mode and out of it. */
module UdpV3Keys {
  import opened Util
  import opened UdpV3Output
  import A = UdpV3Accounting
  import O = DatagramOutput

  predicate HasKeyDelivered(t: seq<Event>) { exists i :: 0 <= i < |t| && t[i].KeyDelivered? }

  /** A frame datagram carries the key exactly if its frame has sequence 1 and no key frame was delivered before. */
  predicate FlagsOk(t: seq<Event>) {
    forall i :: 0 <= i < |t| && t[i].FrameDatagram? ==>
      (t[i].stamp.key <==> t[i].frame.sequence == 1 && !HasKeyDelivered(t[..i]))
  }

  /** The state remembers whether a key frame was delivered. */
  predicate KeyInv(st: State) { FlagsOk(st.trace) && (st.needsKey <==> !HasKeyDelivered(st.trace)) }

  // --- steps that send no frame ------------------------------------------------------------------

  /** Only clock readings, beacons and rounds have come on. */
  predicate OnlyClock(a: State, b: State) {
    && |a.trace| <= |b.trace| && b.trace[..|a.trace|] == a.trace && b.needsKey == a.needsKey
    && forall i :: |a.trace| <= i < |b.trace| ==> b.trace[i].Reading? || b.trace[i].Beacon? || b.trace[i].Round?
  }

  lemma OnlyClockChains(a: State, b: State, c: State)
    requires OnlyClock(a, b) && OnlyClock(b, c)
    ensures OnlyClock(a, c)
  {
    assert c.trace[..|a.trace|] == c.trace[..|b.trace|][..|a.trace|];
    assert forall i :: |a.trace| <= i < |b.trace| ==> c.trace[i] == c.trace[..|b.trace|][i];
  }

  lemma OnlyClockKeepsInv(a: State, b: State)
    requires OnlyClock(a, b) && KeyInv(a)
    ensures KeyInv(b) && (HasKeyDelivered(b.trace) <==> HasKeyDelivered(a.trace))
  {
    assert forall i :: 0 <= i < |a.trace| ==> b.trace[i] == b.trace[..|a.trace|][i] == a.trace[i];
    forall i | 0 <= i < |b.trace| && b.trace[i].FrameDatagram?
      ensures b.trace[i].stamp.key <==> b.trace[i].frame.sequence == 1 && !HasKeyDelivered(b.trace[..i])
    {
      assert b.trace[..i] == a.trace[..i];
    }
  }

  lemma ReadIsClock(u: Setup, st: State)
    ensures OnlyClock(st, ReadClock(u, st).0)
  {
  }

  lemma BeaconIsClock(u: Setup, st: State, us: int, address: Address, sequence: int)
    ensures OnlyClock(st, SendBeacon(u, st, us, address, sequence).0)
  {
    hide OnlyClock, Send;
    SendKeepsTrace(u, st);
    OneMoreClock(st, SendBeacon(u, st, us, address, sequence).0, Beacon(sequence, us, address, Send(u, st).1));
  }

  lemma OneMoreClock(a: State, b: State, e: Event)
    requires e.Beacon? && b.trace == a.trace + [e] && b.needsKey == a.needsKey
    ensures OnlyClock(a, b)
  {
  }

  lemma {:induction false} BeaconsAreClock(u: Setup, st: State, first: Option<int>, k: nat)
    requires k <= |u.beaconAddresses|
    ensures OnlyClock(st, BeaconsTo(u, st, first, k).0)
  {
    hide OnlyClock, SendBeacon, ReadClock;
    if k == 0 {
      NothingIsClock(st);
    } else {
      BeaconsAreClock(u, st, first, k - 1);
      var (before, ok) := BeaconsTo(u, st, first, k - 1);
      if ok.Some? {
        ReadIsClock(u, before);
        NothingIsClock(before);
        var (timed, us) := if k == 1 && first.Some? then (before, first) else ReadClock(u, before);
        OnlyClockChains(st, before, timed);
        if us.Some? {
          BeaconIsClock(u, timed, us.value, u.beaconAddresses[k - 1], st.nextBeacon);
          OnlyClockChains(st, timed, SendBeacon(u, timed, us.value, u.beaconAddresses[k - 1], st.nextBeacon).0);
        }
      }
    }
  }

  lemma NothingIsClock(st: State)
    ensures OnlyClock(st, st)
  {
  }

  lemma RoundIsClock(u: Setup, st: State, first: Option<int>)
    ensures OnlyClock(st, BeaconRound(u, st, first).0)
  {
    BeaconsAreClock(u, st, first, |u.beaconAddresses|);
  }

  lemma PreparationIsClock(u: Setup, st: State, frame: Frame)
    ensures OnlyClock(st, Prepared(u, st, frame).0)
  {
    hide OnlyClock, BeaconRound, ReadClock;
    NothingIsClock(st);
    ReadIsClock(u, st);
    var read := ReadClock(u, st).0;
    RoundIsClock(u, read, ReadClock(u, st).1);
    OnlyClockChains(st, read, BeaconRound(u, read, ReadClock(u, st).1).0);
  }

  lemma {:induction false} StartupRoundsAreClock(u: Setup, st: State, k: nat)
    ensures OnlyClock(st, StartupRounds(u, st, k).0)
  {
    hide OnlyClock, BeaconRound;
    if k == 0 {
      NothingIsClock(st);
    } else {
      StartupRoundsAreClock(u, st, k - 1);
      var (before, ok) := StartupRounds(u, st, k - 1);
      if ok {
        RoundIsClock(u, before, None);
        var after := BeaconRound(u, before, None).0;
        OnlyClockChains(st, before, after);
        SleepIsClock(u, after);
        OnlyClockChains(st, after, Sleep(u, after).0);
      }
    }
  }

  lemma SleepIsClock(u: Setup, st: State)
    ensures OnlyClock(st, Sleep(u, st).0)
  {
  }

  // --- steps of a frame --------------------------------------------------------------------------

  /** Only datagrams of this frame with this stamp have come on. */
  predicate OnlyFrame(a: State, b: State, frame: Frame, stamp: Stamp) {
    && |a.trace| <= |b.trace| && b.trace[..|a.trace|] == a.trace && b.needsKey == a.needsKey
    && forall i :: |a.trace| <= i < |b.trace| ==>
         b.trace[i].FrameDatagram? && b.trace[i].frame == frame && b.trace[i].stamp == stamp
  }

  lemma OnlyFrameChains(a: State, b: State, c: State, frame: Frame, stamp: Stamp)
    requires OnlyFrame(a, b, frame, stamp) && OnlyFrame(b, c, frame, stamp)
    ensures OnlyFrame(a, c, frame, stamp)
  {
    assert c.trace[..|a.trace|] == c.trace[..|b.trace|][..|a.trace|];
    assert forall i :: |a.trace| <= i < |b.trace| ==> c.trace[i] == c.trace[..|b.trace|][i];
  }

  lemma NothingIsFrame(st: State, frame: Frame, stamp: Stamp)
    ensures OnlyFrame(st, st, frame, stamp)
  {
  }

  lemma OnlyFrameKeepsInv(a: State, b: State, frame: Frame, stamp: Stamp)
    requires OnlyFrame(a, b, frame, stamp) && KeyInv(a) && (stamp.key <==> frame.sequence == 1 && a.needsKey)
    ensures KeyInv(b) && (HasKeyDelivered(b.trace) <==> HasKeyDelivered(a.trace))
  {
    assert forall i :: 0 <= i < |a.trace| ==> b.trace[i] == b.trace[..|a.trace|][i] == a.trace[i];
    forall i | 0 <= i < |b.trace| && b.trace[i].FrameDatagram?
      ensures b.trace[i].stamp.key <==> b.trace[i].frame.sequence == 1 && !HasKeyDelivered(b.trace[..i])
    {
      if i < |a.trace| {
        assert b.trace[..i] == a.trace[..i];
      } else {
        assert b.trace[..i][..|a.trace|] == a.trace;
        assert HasKeyDelivered(b.trace[..i]) <==> HasKeyDelivered(a.trace);
      }
    }
  }

  lemma SendOneIsFrame(u: Setup, st: State, frame: Frame, stamp: Stamp, ok: bool, d: Datagram)
    ensures OnlyFrame(st, SendOne(u, st, frame, stamp, ok, d).0, frame, stamp)
  {
    hide OnlyFrame, Send;
    SendKeepsTrace(u, st);
    OneMoreFrame(st, SendOne(u, st, frame, stamp, ok, d).0, FrameDatagram(frame, stamp, d, Send(u, st).1));
  }

  lemma SendKeepsTrace(u: Setup, st: State)
    ensures Send(u, st).0.trace == st.trace && Send(u, st).0.needsKey == st.needsKey
  {
  }

  lemma OneMoreFrame(a: State, b: State, e: Event)
    requires e.FrameDatagram? && b.trace == a.trace + [e] && b.needsKey == a.needsKey
    ensures OnlyFrame(a, b, e.frame, e.stamp)
  {
  }

  lemma {:induction false} RoundIsFrame(u: Setup, st: State, frame: Frame, stamp: Stamp, ok: bool, ds: seq<Datagram>)
    ensures OnlyFrame(st, SendRound(u, st, frame, stamp, ok, ds).0, frame, stamp)
  {
    hide OnlyFrame, SendOne;
    if ds == [] {
      NothingIsFrame(st, frame, stamp);
    } else {
      var init := ds[..|ds| - 1];
      RoundIsFrame(u, st, frame, stamp, ok, init);
      var (before, progress) := SendRound(u, st, frame, stamp, ok, init);
      if progress.Going? {
        SendOneIsFrame(u, before, frame, stamp, progress.ok, ds[|ds| - 1]);
        OnlyFrameChains(st, before, SendOne(u, before, frame, stamp, progress.ok, ds[|ds| - 1]).0, frame, stamp);
      }
    }
  }

  lemma PauseIsFrame(u: Setup, st: State, frame: Frame, stamp: Stamp, ok: bool)
    ensures OnlyFrame(st, Pause(u, st, ok).0, frame, stamp)
  {
  }

  lemma {:induction false} RoundsAreFrame(
      u: Setup, st: State, frame: Frame, stamp: Stamp, ds: seq<Datagram>, rounds: nat, k: nat)
    ensures OnlyFrame(st, SendRounds(u, st, frame, stamp, ds, rounds, k).0, frame, stamp)
  {
    hide OnlyFrame, SendRound, Pause;
    if k == 0 {
      NothingIsFrame(st, frame, stamp);
    } else {
      RoundsAreFrame(u, st, frame, stamp, ds, rounds, k - 1);
      var (before, progress) := SendRounds(u, st, frame, stamp, ds, rounds, k - 1);
      if progress.Going? {
        RoundIsFrame(u, before, frame, stamp, progress.ok, ds);
        var (after, sent) := SendRound(u, before, frame, stamp, progress.ok, ds);
        OnlyFrameChains(st, before, after, frame, stamp);
        if sent.Going? {
          PauseIsFrame(u, after, frame, stamp, sent.ok);
          OnlyFrameChains(st, after, Pause(u, after, sent.ok).0, frame, stamp);
        }
      }
    }
  }

  lemma ConclusionKeepsInv(u: Setup, st: State, stamp: Stamp, progress: Progress)
    requires KeyInv(st)
    ensures KeyInv(Concluded(u, st, stamp, progress).0)
  {
    var after := Concluded(u, st, stamp, progress).0;
    if |after.trace| > |st.trace| {
      assert after.trace == st.trace + [KeyDelivered];
      assert after.trace[|st.trace|].KeyDelivered?;
      forall i | 0 <= i < |after.trace| && after.trace[i].FrameDatagram?
        ensures after.trace[i].stamp.key <==> after.trace[i].frame.sequence == 1 && !HasKeyDelivered(after.trace[..i])
      {
        assert after.trace[..i] == st.trace[..i];
      }
    }
  }

  lemma FlushKeepsInv(u: Setup, st: State)
    requires KeyInv(st)
    ensures KeyInv(Flushed(u, st).0)
  {
    hide KeyInv, Prepared, SendRounds, Concluded, EncodeAll, OnlyClock, OnlyFrame;
    if st.slot.Some? {
      var frame, popped := st.slot.value, st.(slot := None);
      SlotDoesNotMatter(st, popped);
      PreparationIsClock(u, popped, frame);
      var (ready, stamp) := Prepared(u, popped, frame);
      OnlyClockKeepsInv(popped, ready);
      if stamp.Some? {
        KeyAsPrepared(u, popped, frame);
        var ds := EncodeAll(u, frame, stamp.value, frame.nodes);
        if ds.Some? {
          var rounds := RoundsFor(u, stamp.value);
          RoundsAreFrame(u, ready, frame, stamp.value, ds.value, rounds, rounds);
          var (after, progress) := SendRounds(u, ready, frame, stamp.value, ds.value, rounds, rounds);
          OnlyFrameKeepsInv(ready, after, frame, stamp.value);
          ConclusionKeepsInv(u, after, stamp.value, progress);
        } else {
          SlotDoesNotMatter(ready, ready.Counted(false).Unwell(u).DropFrame());
        }
      } else {
        SlotDoesNotMatter(ready, Flushed(u, st).0);
      }
    }
  }

  lemma SlotDoesNotMatter(a: State, b: State)
    requires KeyInv(a) && b.trace == a.trace && b.needsKey == a.needsKey
    ensures KeyInv(b)
  {
  }

  lemma KeyAsPrepared(u: Setup, st: State, frame: Frame)
    requires Prepared(u, st, frame).1.Some?
    ensures Prepared(u, st, frame).1.value.key <==> frame.sequence == 1 && Prepared(u, st, frame).0.needsKey
  {
    hide OnlyClock, ScheduledApplyAt;
    PreparationIsClock(u, st, frame);
    assert Prepared(u, st, frame).0.needsKey == st.needsKey by { ClockKeepsNeed(st, Prepared(u, st, frame).0); }
  }

  lemma ClockKeepsNeed(a: State, b: State)
    requires OnlyClock(a, b)
    ensures b.needsKey == a.needsKey
  {
  }

  lemma NewSessionHasInv(st: State)
    ensures KeyInv(NewSession(st))
  {
  }

  lemma OpenKeepsInv(u: Setup, st: State, socketWorks: bool, broadcastWorks: bool)
    requires KeyInv(st)
    ensures KeyInv(Opened(u, st, socketWorks, broadcastWorks).0)
  {
    hide KeyInv, StartupRounds, OnlyClock;
    var open := st.(hasSocket := st.hasSocket || u.mode == O.Production, isOpen := true,
                    health := st.health.(healthy := true));
    NewSessionHasInv(open);
    var session := NewSession(open);
    StartupRoundsAreClock(u, session, u.startupBeacons);
    var started := StartupRounds(u, session, u.startupBeacons).0;
    OnlyClockKeepsInv(session, started);
    SleepIsClock(u, started);
    OnlyClockKeepsInv(started, Sleep(u, started).0);
    NothingIsClock(session);
    var after := Opened(u, st, socketWorks, broadcastWorks).0;
    if after.trace == st.trace && after.needsKey == st.needsKey {
      SlotDoesNotMatter(st, after);
    } else if u.scheduled {
      var ready := Startup(u, session, broadcastWorks).0;
      SlotDoesNotMatter(ready, after);
    }
  }

  lemma {:induction false} EveryRunKeepsInv(u: Setup, injectedSocket: bool, ops: seq<Op>)
    ensures KeyInv(Run(u, injectedSocket, ops))
  {
    hide KeyInv, Flushed, Opened;
    if ops == [] {
      assert KeyInv(Initial(injectedSocket)) by { InitialHasInv(injectedSocket); }
    } else {
      EveryRunKeepsInv(u, injectedSocket, ops[..|ops| - 1]);
      var st := Run(u, injectedSocket, ops[..|ops| - 1]);
      match ops[|ops| - 1] {
        case OpenOp(socketWorks, broadcastWorks) =>
          OpenKeepsInv(u, st, socketWorks, broadcastWorks);
        case SendOp(frame) =>
          var queued := st.(slot := Some(frame), health := if st.slot.Some? then st.health.DropFrame() else st.health);
          SlotDoesNotMatter(st, queued);
          SlotDoesNotMatter(st, st.DropFrame().Unwell(u));
          FlushKeepsInv(u, queued);
        case FlushOp =>
          FlushKeepsInv(u, st);
        case CloseOp =>
          SlotDoesNotMatter(st, Closed(u, st));
      }
    }
  }

  lemma InitialHasInv(injectedSocket: bool)
    ensures KeyInv(Initial(injectedSocket))
  {
  }

  // --- what a run shows --------------------------------------------------------------------------

  /** In every run, scheduled or not, through every failure: a datagram of a frame carries the key if and only if the
      frame has sequence 1 and no key frame has been delivered before in the session. */
  lemma KeyFlagIff(u: Setup, injectedSocket: bool, ops: seq<Op>, k: nat)
    requires var t := Run(u, injectedSocket, ops).trace; k < |t| && t[k].FrameDatagram?
    ensures var t := Run(u, injectedSocket, ops).trace;
      t[k].stamp.key <==> t[k].frame.sequence == 1 && forall i :: 0 <= i < k ==> !t[i].KeyDelivered?
  {
    hide Run;
    EveryRunKeepsInv(u, injectedSocket, ops);
  }

  /** Where item j of repetition r stands among repetitions of `count` items. */
  function Place(r: nat, count: nat, j: nat): nat { r * count + j }

  lemma PlaceGrows(r: nat, count: nat, j: nat)
    ensures Place(0, count, j) == j && Place(r + 1, count, j) == Place(r, count, j) + count
    ensures Place(r, count, j) == Place(r, count, 0) + j
  {
  }

  lemma {:induction false} RepeatedByIndex(t: seq<Event>, n: nat, r: nat, j: nat)
    requires r < n && j < |t|
    ensures |A.Repeated(t, n)| == Place(n, |t|, 0) && Place(r, |t|, j) < Place(n, |t|, 0)
    ensures A.Repeated(t, n)[Place(r, |t|, j)] == t[j]
    decreases n
  {
    hide Place;
    RepeatedLength(t, n - 1);
    PlaceGrows(n - 1, |t|, 0);
    PlaceGrows(r, |t|, j);
    if r < n - 1 {
      RepeatedByIndex(t, n - 1, r, j);
    }
  }

  lemma {:induction false} RepeatedLength(t: seq<Event>, n: nat)
    ensures |A.Repeated(t, n)| == Place(n, |t|, 0)
  {
    hide Place;
    PlaceGrows(0, |t|, 0);
    if n > 0 {
      RepeatedLength(t, n - 1);
      PlaceGrows(n - 1, |t|, 0);
    }
  }

  /** The frame that a call may send. */
  function FrameFor(st: State, op: Op): Option<Frame> {
    match op
    case SendOp(frame) => Some(frame)
    case FlushOp => st.slot
    case _ => None
  }

  /** The frame of this call starts the session: sequence 1, and no key frame delivered before. */
  predicate Starts(frame: Frame, before: seq<Event>) {
    frame.sequence == 1 && forall i :: 0 <= i < |before| ==> !before[i].KeyDelivered?
  }

  /** The events `t` are those before, `m` of the clock, `rounds` times all the datagrams, each delivered, and a mark
      of a delivered key if there is one. */
  predicate Shows(
      t: seq<Event>, before: seq<Event>, m: nat, rounds: nat, frame: Frame, stamp: Stamp, ds: seq<Datagram>, mark: bool)
  {
    var n := |before|;
    && |t| == n + m + Place(rounds, |ds|, 0) + (if mark then 1 else 0) && t[..n] == before
    && (forall i :: n <= i < n + m && i < |t| ==> t[i].Reading? || t[i].Beacon? || t[i].Round?)
    && (forall r, j :: 0 <= r < rounds && 0 <= j < |ds| ==>
          && 0 <= n + m + Place(r, |ds|, j) < |t|
          && t[n + m + Place(r, |ds|, j)] == FrameDatagram(frame, stamp, ds[j], true))
    && (mark ==> t != [] && t[|t| - 1].KeyDelivered?)
  }

  /** Take any run, scheduled or not, and one more call that counts a frame as sent. The call's events are clock
      readings, beacons and rounds, and then all datagrams of the frame, each delivered, in one order: once, or
      `repeats` times over when the mode is scheduled and the frame starts the session. Exactly when it starts the
      session, one mark of a delivered key follows, whatever the mode. A deadline in the datagrams is the frame's own
      unless the mode is scheduled. */
  lemma SentFrameEvents(u: Setup, injectedSocket: bool, ops: seq<Op>, op: Op)
    returns (frame: Frame, m: nat, stamp: Stamp, ds: seq<Datagram>)
    requires u.Valid()
    requires Run(u, injectedSocket, ops + [op]).health.framesSent > Run(u, injectedSocket, ops).health.framesSent
    ensures FrameFor(Run(u, injectedSocket, ops), op) == Some(frame)
    ensures EncodeAll(u, frame, stamp, frame.nodes) == Some(ds)
    ensures var before := Run(u, injectedSocket, ops).trace;
      && (stamp.key <==> Starts(frame, before))
      && (!u.scheduled ==> stamp.applyAt == frame.metadataApplyAt)
      && Shows(Run(u, injectedSocket, ops + [op]).trace, before, m,
               if u.scheduled && Starts(frame, before) then u.repeats else 1, frame, stamp, ds, Starts(frame, before))
  {
    hide KeyInv, Flushed, Opened, Prepared, OnlyClock, EncodeAll, A.Repeated, A.Delivered, Run, Step, Shows, Queued;
    RunSteps(u, injectedSocket, ops, op);
    var before := Run(u, injectedSocket, ops);
    EveryRunKeepsInv(u, injectedSocket, ops);
    OnlyFlushCounts(u, before, op);
    var st := Queued(u, before, op);
    frame := st.slot.value;
    QueuedKeeps(u, before, op);
    InvReads(before);
    A.SentMeansDelivered(u, st);
    var popped := st.(slot := None);
    PreparationIsClock(u, popped, frame);
    var (ready, prepared) := Prepared(u, popped, frame);
    stamp := prepared.value;
    ds := EncodeAll(u, frame, stamp, frame.nodes).value;
    KeyAsPrepared(u, popped, frame);
    ClockKeepsNeed(popped, ready);
    PreparedDeadline(u, popped, frame);
    m := ClockLength(popped, ready);
    EventsShow(ready.trace, before.trace, m, RoundsFor(u, stamp), frame, stamp, ds, stamp.key);
  }

  lemma RunSteps(u: Setup, injectedSocket: bool, ops: seq<Op>, op: Op)
    ensures Run(u, injectedSocket, ops + [op]) == Step(u, Run(u, injectedSocket, ops), op)
  {
    hide Step;
    assert (ops + [op])[..|ops + [op]| - 1] == ops;
  }

  lemma QueuedKeeps(u: Setup, st: State, op: Op)
    ensures Queued(u, st, op).trace == st.trace && Queued(u, st, op).needsKey == st.needsKey
  {
  }

  lemma EventsShow(
      ready: seq<Event>, before: seq<Event>, m: nat, rounds: nat, frame: Frame, stamp: Stamp, ds: seq<Datagram>,
      mark: bool)
    requires |ready| == |before| + m && ready[..|before|] == before
    requires forall i :: |before| <= i < |ready| ==> ready[i].Reading? || ready[i].Beacon? || ready[i].Round?
    ensures Shows(ready + A.Repeated(A.Delivered(frame, stamp, ds), rounds) + (if mark then [KeyDelivered] else []),
                  before, m, rounds, frame, stamp, ds, mark)
  {
    hide A.Repeated, A.Delivered, Place;
    var sent := A.Delivered(frame, stamp, ds);
    var t := ready + A.Repeated(sent, rounds) + (if mark then [KeyDelivered] else []);
    DeliveredAre(frame, stamp, ds);
    RepeatedLength(sent, rounds);
    forall r, j | 0 <= r < rounds && 0 <= j < |ds|
      ensures 0 <= |before| + m + Place(r, |ds|, j) < |t|
      ensures t[|before| + m + Place(r, |ds|, j)] == FrameDatagram(frame, stamp, ds[j], true)
    {
      RepeatedByIndex(sent, rounds, r, j);
      assert t[|ready| + Place(r, |ds|, j)] == A.Repeated(sent, rounds)[Place(r, |ds|, j)];
    }
  }

  lemma DeliveredAre(frame: Frame, stamp: Stamp, ds: seq<Datagram>)
    ensures |A.Delivered(frame, stamp, ds)| == |ds|
    ensures forall j :: 0 <= j < |ds| ==> A.Delivered(frame, stamp, ds)[j] == FrameDatagram(frame, stamp, ds[j], true)
  {
  }

  lemma ClockLength(a: State, b: State) returns (m: nat)
    requires OnlyClock(a, b)
    ensures |b.trace| == |a.trace| + m && b.trace[..|a.trace|] == a.trace
    ensures forall i :: |a.trace| <= i < |b.trace| ==> b.trace[i].Reading? || b.trace[i].Beacon? || b.trace[i].Round?
  {
    m := |b.trace| - |a.trace|;
  }

  lemma InvReads(st: State)
    requires KeyInv(st)
    ensures st.needsKey <==> forall i :: 0 <= i < |st.trace| ==> !st.trace[i].KeyDelivered?
  {
  }

  lemma PreparedDeadline(u: Setup, st: State, frame: Frame)
    requires Prepared(u, st, frame).1.Some?
    ensures !u.scheduled ==> Prepared(u, st, frame).1.value.applyAt == frame.metadataApplyAt
  {
  }

  /** The state from which a call flushes. */
  function Queued(u: Setup, st: State, op: Op): State {
    if op.SendOp? then
      st.(slot := Some(op.frame), health := if st.slot.Some? then st.health.DropFrame() else st.health)
    else st
  }

  /** Only a flush counts a frame as sent. */
  lemma OnlyFlushCounts(u: Setup, st: State, op: Op)
    requires Step(u, st, op).health.framesSent > st.health.framesSent
    ensures op.SendOp? || op.FlushOp?
    ensures Queued(u, st, op).slot == FrameFor(st, op) && FrameFor(st, op).Some?
    ensures Step(u, st, op) == Flushed(u, Queued(u, st, op)).0
    ensures Flushed(u, Queued(u, st, op)).0.health.framesSent > Queued(u, st, op).health.framesSent
  {
    hide Flushed, Opened;
    if op.OpenOp? {
      A.OpenKeepsFrames(u, st, op.socketWorks, op.broadcastWorks);
    } else if op.FlushOp? && st.slot.None? {
      assert Flushed(u, st).0 == st by { NothingToFlush(u, st); }
    }
  }

  lemma NothingToFlush(u: Setup, st: State)
    requires st.slot.None?
    ensures Flushed(u, st).0 == st
  {
  }
}
