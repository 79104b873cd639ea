/** What every session of the UDP v3 output keeps in scheduled mode, through any clock, transport and sleep failure. */
module UdpV3Session {
  import opened Util
  import opened Fields
  import opened UdpV3Output
  import O = DatagramOutput

  // --- what a trace must look like ---------------------------------------------------------------

  function RoundsIn(t: seq<Event>): nat {
    if t == [] then 0 else RoundsIn(t[..|t| - 1]) + (if t[|t| - 1].Round? then 1 else 0)
  }

  /** The running number that the next beacon carries: rounds are numbered from 1, as uint32. */
  function NextNumber(t: seq<Event>): int { (1 + RoundsIn(t)) % TWO_32 }

  /** The latest clock reading in a trace. */
  function LastReading(t: seq<Event>): Option<int> {
    if t == [] then None else if t[|t| - 1].Reading? then Some(t[|t| - 1].us) else LastReading(t[..|t| - 1])
  }

  /** The time of the last completed beacon round. */
  function LastRound(t: seq<Event>): Option<int> {
    if t == [] then None else if t[|t| - 1].Round? then Some(t[|t| - 1].us) else LastRound(t[..|t| - 1])
  }

  predicate KeyDone(t: seq<Event>) { t != [] && (t[|t| - 1].KeyDelivered? || KeyDone(t[..|t| - 1])) }

  /** The trace ends with delivered beacons of one number, one for each of the first `k` addresses, and each carries
      the clock reading taken directly before it. */
  predicate EndsInBeacons(u: Setup, t: seq<Event>, sequence: int, k: nat)
    requires k <= |u.beaconAddresses|
  {
    k == 0 || (
      && |t| >= 2 && t[|t| - 2].Reading?
      && t[|t| - 1] == Beacon(sequence, t[|t| - 2].us, u.beaconAddresses[k - 1], true)
      && EndsInBeacons(u, t[..|t| - 2], sequence, k - 1))
  }

  predicate EndsInReading(t: seq<Event>, us: int) { t != [] && t[|t| - 1] == Reading(us) }

  predicate NotBefore(a: Option<int>, b: int) { a.Some? ==> a.value <= b }

  /** What an event may be after what came before it, in scheduled mode. */
  predicate EventOk(u: Setup, t: seq<Event>, e: Event) {
    match e
    case Reading(us) => 0 <= us <= MAX_UINT64 && NotBefore(LastReading(t), us)
    case Beacon(sequence, us, address, _) =>
      sequence == NextNumber(t) && EndsInReading(t, us) && address in u.beaconAddresses
    case Round(sequence, us) =>
      && sequence == NextNumber(t) && LastReading(t) == Some(us)
      && EndsInBeacons(u, t, sequence, |u.beaconAddresses|)
    case FrameDatagram(frame, stamp, d, _) =>
      && stamp.applyAt.Some? && stamp.applyAt.value <= MAX_UINT64
      && LastReading(t) == Some(stamp.applyAt.value - u.leadUs)
      && LastRound(t).Some?
      && LastRound(t).value <= stamp.applyAt.value - u.leadUs < LastRound(t).value + u.intervalUs
      && (stamp.key ==> frame.sequence == 1 && !KeyDone(t))
      && EncodeAll(u, frame, stamp, frame.nodes).Some? && d in EncodeAll(u, frame, stamp, frame.nodes).value
    case KeyDelivered => !KeyDone(t)
  }

  predicate Sound(u: Setup, t: seq<Event>) {
    t == [] || (Sound(u, t[..|t| - 1]) && EventOk(u, t[..|t| - 1], t[|t| - 1]))
  }

  /** The fields agree with the trace of the session, and the trace is sound. */
  predicate InSession(u: Setup, st: State) {
    && Sound(u, st.trace)
    && st.nextBeacon == NextNumber(st.trace)
    && st.lastBeaconUs == LastRound(st.trace)
    && st.needsKey == !KeyDone(st.trace)
    && st.lastReadUs == LastReading(st.trace)
  }

  // --- every step keeps the session sound --------------------------------------------------------

  /** What appending one event does to everything read off a trace. */
  lemma Append(u: Setup, t: seq<Event>, e: Event)
    ensures Sound(u, t + [e]) <==> Sound(u, t) && EventOk(u, t, e)
    ensures NextNumber(t + [e]) == (if e.Round? then (NextNumber(t) + 1) % TWO_32 else NextNumber(t))
    ensures LastReading(t + [e]) == (if e.Reading? then Some(e.us) else LastReading(t))
    ensures LastRound(t + [e]) == (if e.Round? then Some(e.us) else LastRound(t))
    ensures KeyDone(t + [e]) <==> e.KeyDelivered? || KeyDone(t)
  {
    hide EventOk;
    assert (t + [e])[..|t + [e]| - 1] == t;
    Modular(RoundsIn(t));
  }

  lemma Modular(n: nat)
    ensures (1 + (n + 1)) % TWO_32 == ((1 + n) % TWO_32 + 1) % TWO_32
  {
  }

  /** A completed round is never later than the latest reading. */
  lemma {:induction false} RoundIsNotAhead(u: Setup, t: seq<Event>)
    requires Sound(u, t)
    ensures LastRound(t).Some? ==> LastReading(t).Some? && LastRound(t).value <= LastReading(t).value
  {
    hide EndsInBeacons, EncodeAll, NextNumber;
    if t != [] {
      RoundIsNotAhead(u, t[..|t| - 1]);
    }
  }

  /** Only what a beacon round may change has changed. */
  predicate SameButBeacons(a: State, b: State) {
    && b.slot == a.slot && b.isOpen == a.isOpen && b.needsKey == a.needsKey && b.uncounted == a.uncounted
    && b.health.framesSent == a.health.framesSent && b.health.framesDropped == a.health.framesDropped
  }

  /** No round was completed. */
  predicate SameRounds(a: State, b: State) { b.nextBeacon == a.nextBeacon && b.lastBeaconUs == a.lastBeaconUs }

  lemma ReadKeepsSession(u: Setup, st: State)
    requires InSession(u, st)
    ensures var (after, us) := ReadClock(u, st);
      && InSession(u, after) && SameButBeacons(st, after) && SameRounds(st, after)
      && (us.Some? ==> after.lastReadUs == us && after.trace == st.trace + [Reading(us.value)])
  {
    hide Sound, NextNumber, LastRound, KeyDone, LastReading;
    Append(u, st.trace, Reading(u.clock(st.clockReads)));
  }

  lemma SendBeaconKeepsSession(u: Setup, st: State, us: int, k: nat)
    requires InSession(u, st) && EndsInReading(st.trace, us) && k < |u.beaconAddresses|
    requires EndsInBeacons(u, st.trace[..|st.trace| - 1], st.nextBeacon, k)
    ensures var (after, sent) := SendBeacon(u, st, us, u.beaconAddresses[k], st.nextBeacon);
      && InSession(u, after) && SameButBeacons(st, after) && SameRounds(st, after)
      && after.lastReadUs == st.lastReadUs == Some(us)
      && (sent ==> EndsInBeacons(u, after.trace, st.nextBeacon, k + 1))
  {
    hide Sound, NextNumber, LastRound, KeyDone, LastReading, EndsInBeacons;
    var (_, ok) := Send(u, st);
    Append(u, st.trace, Beacon(st.nextBeacon, us, u.beaconAddresses[k], ok));
    OneMoreBeacon(u, st.trace, us, st.nextBeacon, k);
  }

  lemma OneMoreBeacon(u: Setup, t: seq<Event>, us: int, sequence: int, k: nat)
    requires k < |u.beaconAddresses| && EndsInReading(t, us) && EndsInBeacons(u, t[..|t| - 1], sequence, k)
    ensures EndsInBeacons(u, t + [Beacon(sequence, us, u.beaconAddresses[k], true)], sequence, k + 1)
    ensures LastReading(t) == Some(us)
  {
    var more := t + [Beacon(sequence, us, u.beaconAddresses[k], true)];
    assert more[..|more| - 2] == t[..|t| - 1];
  }

  lemma {:induction false} BeaconsKeepSession(u: Setup, st: State, first: Option<int>, k: nat)
    requires InSession(u, st) && k <= |u.beaconAddresses|
    requires first.Some? ==> EndsInReading(st.trace, first.value)
    ensures var (after, us) := BeaconsTo(u, st, first, k);
      && InSession(u, after) && SameButBeacons(st, after) && SameRounds(st, after)
      && (us.Some? ==> EndsInBeacons(u, after.trace, st.nextBeacon, k))
      && (us.Some? && k > 0 ==> after.lastReadUs == us)
  {
    hide InSession, SendBeacon, ReadClock;
    if k > 0 {
      BeaconsKeepSession(u, st, first, k - 1);
      var (before, ok) := BeaconsTo(u, st, first, k - 1);
      if ok.Some? {
        ReadKeepsSession(u, before);
        var (timed, us) := if k == 1 && first.Some? then (before, first) else ReadClock(u, before);
        if us.Some? {
          assert EndsInBeacons(u, timed.trace[..|timed.trace| - 1], st.nextBeacon, k - 1);
          SendBeaconKeepsSession(u, timed, us.value, k - 1);
        }
      }
    }
  }

  lemma RoundKeepsSession(u: Setup, st: State, first: Option<int>)
    requires u.Valid() && InSession(u, st) && (first.Some? ==> EndsInReading(st.trace, first.value))
    ensures var (after, us) := BeaconRound(u, st, first);
      && InSession(u, after) && SameButBeacons(st, after)
      && (us.Some? ==> after.lastReadUs == us && LastRound(after.trace) == us)
  {
    hide Sound, NextNumber, LastRound, KeyDone, LastReading, EndsInBeacons, BeaconsTo;
    BeaconsKeepSession(u, st, first, |u.beaconAddresses|);
    var (after, us) := BeaconsTo(u, st, first, |u.beaconAddresses|);
    if us.Some? {
      Append(u, after.trace, Round(st.nextBeacon, us.value));
    }
  }

  /** The deadline rests on the latest reading, which is less than one interval past the last completed round. */
  predicate Timely(u: Setup, st: State, applyAt: int) {
    && st.lastReadUs == Some(applyAt - u.leadUs) && applyAt <= MAX_UINT64
    && LastRound(st.trace).Some?
    && LastRound(st.trace).value <= applyAt - u.leadUs < LastRound(st.trace).value + u.intervalUs
  }

  lemma DeadlineIsTimely(u: Setup, st: State)
    requires u.Valid() && InSession(u, st)
    ensures var (after, applyAt) := ScheduledApplyAt(u, st);
      && InSession(u, after) && SameButBeacons(st, after)
      && (applyAt.Some? ==> Timely(u, after, applyAt.value))
  {
    hide Sound, NextNumber, KeyDone, EndsInBeacons, BeaconRound, ReadClock, LastReading, LastRound;
    ReadKeepsSession(u, st);
    var (read, now) := ReadClock(u, st);
    if now.Some? {
      RoundIsNotAhead(u, read.trace);
      RoundKeepsSession(u, read, now);
      var due := read.lastBeaconUs.None? || now.value - read.lastBeaconUs.value >= u.intervalUs;
      if !due && now.value <= MAX_UINT64 - u.leadUs {
        assert Timely(u, read, now.value + u.leadUs);
      } else if due {
        var (after, us) := BeaconRound(u, read, now);
        assert us.Some? ==> Timely(u, after, us.value + u.leadUs) || us.value > MAX_UINT64 - u.leadUs;
      }
    }
  }

  // --- frames ------------------------------------------------------------------------------------

  /** The next datagram of this frame may go out. */
  predicate FrameReady(u: Setup, st: State, frame: Frame, stamp: Stamp, ds: seq<Datagram>) {
    && EncodeAll(u, frame, stamp, frame.nodes) == Some(ds)
    && (stamp.key ==> !KeyDone(st.trace))
    && (forall d <- ds :: EventOk(u, st.trace, FrameDatagram(frame, stamp, d, true)))
  }

  lemma SendOneKeepsSession(
      u: Setup, st: State, frame: Frame, stamp: Stamp, ds: seq<Datagram>, ok: bool, d: Datagram)
    requires InSession(u, st) && FrameReady(u, st, frame, stamp, ds) && d in ds
    ensures var (after, progress) := SendOne(u, st, frame, stamp, ok, d);
      && InSession(u, after) && FrameReady(u, after, frame, stamp, ds)
      && after.needsKey == st.needsKey && after.slot == st.slot
  {
    hide Sound, NextNumber, LastRound, KeyDone, LastReading, EndsInBeacons, EncodeAll;
    var (_, sent) := Send(u, st);
    Append(u, st.trace, FrameDatagram(frame, stamp, d, sent));
  }

  lemma {:induction false} SendRoundKeepsSession(
      u: Setup, st: State, frame: Frame, stamp: Stamp, all: seq<Datagram>, ok: bool, ds: seq<Datagram>)
    requires InSession(u, st) && FrameReady(u, st, frame, stamp, all) && (forall d <- ds :: d in all)
    ensures var (after, progress) := SendRound(u, st, frame, stamp, ok, ds);
      && InSession(u, after) && FrameReady(u, after, frame, stamp, all)
      && after.needsKey == st.needsKey && after.slot == st.slot
  {
    hide InSession, FrameReady, SendOne;
    if ds != [] {
      var init := ds[..|ds| - 1];
      SendRoundKeepsSession(u, st, frame, stamp, all, ok, init);
      var (before, progress) := SendRound(u, st, frame, stamp, ok, init);
      if progress.Going? {
        SendOneKeepsSession(u, before, frame, stamp, all, progress.ok, ds[|ds| - 1]);
      }
    }
  }

  lemma PauseKeepsSession(u: Setup, st: State, frame: Frame, stamp: Stamp, ds: seq<Datagram>, ok: bool)
    requires InSession(u, st) && FrameReady(u, st, frame, stamp, ds)
    ensures var (after, progress) := Pause(u, st, ok);
      && InSession(u, after) && FrameReady(u, after, frame, stamp, ds)
      && after.needsKey == st.needsKey && after.slot == st.slot
  {
    hide Sound, NextNumber, LastRound, KeyDone, LastReading, EventOk;
  }

  lemma {:induction false} SendRoundsKeepSession(
      u: Setup, st: State, frame: Frame, stamp: Stamp, ds: seq<Datagram>, rounds: nat, k: nat)
    requires InSession(u, st) && FrameReady(u, st, frame, stamp, ds)
    ensures var (after, progress) := SendRounds(u, st, frame, stamp, ds, rounds, k);
      && InSession(u, after) && FrameReady(u, after, frame, stamp, ds)
      && after.needsKey == st.needsKey && after.slot == st.slot
  {
    hide InSession, FrameReady, SendRound, Pause;
    if k > 0 {
      SendRoundsKeepSession(u, st, frame, stamp, ds, rounds, k - 1);
      var (before, progress) := SendRounds(u, st, frame, stamp, ds, rounds, k - 1);
      if progress.Going? {
        SendRoundKeepsSession(u, before, frame, stamp, ds, progress.ok, ds);
        var (after, sent) := SendRound(u, before, frame, stamp, progress.ok, ds);
        if sent.Going? {
          PauseKeepsSession(u, after, frame, stamp, ds, sent.ok);
        }
      }
    }
  }

  lemma ConcludeKeepsSession(u: Setup, st: State, frame: Frame, stamp: Stamp, ds: seq<Datagram>, progress: Progress)
    requires InSession(u, st) && FrameReady(u, st, frame, stamp, ds)
    ensures InSession(u, Concluded(u, st, stamp, progress).0)
  {
    hide Sound, NextNumber, LastRound, KeyDone, LastReading, EndsInBeacons, EncodeAll;
    Append(u, st.trace, KeyDelivered);
  }

  /** A frame whose preparation succeeded, and all of whose nodes encode, may go out. */
  lemma PreparedIsReady(u: Setup, st: State, frame: Frame)
    requires u.Valid() && u.scheduled && InSession(u, st)
    ensures var (ready, stamp) := Prepared(u, st, frame);
      && InSession(u, ready)
      && (stamp.Some? ==>
            var ds := EncodeAll(u, frame, stamp.value, frame.nodes);
            ds.Some? ==> FrameReady(u, ready, frame, stamp.value, ds.value))
  {
    hide Sound, NextNumber, LastRound, KeyDone, LastReading, EndsInBeacons, ScheduledApplyAt, EncodeAll;
    DeadlineIsTimely(u, st);
  }

  lemma FlushKeepsSession(u: Setup, st: State)
    requires u.Valid() && u.scheduled && InSession(u, st)
    ensures InSession(u, Flushed(u, st).0)
  {
    hide Sound, NextNumber, LastRound, KeyDone, LastReading, Prepared, SendRounds, Concluded, EncodeAll, FrameReady;
    if st.slot.Some? {
      var frame, popped := st.slot.value, st.(slot := None);
      PreparedIsReady(u, popped, frame);
      var (ready, stamp) := Prepared(u, popped, frame);
      if stamp.Some? {
        var ds := EncodeAll(u, frame, stamp.value, frame.nodes);
        if ds.Some? {
          var rounds := RoundsFor(u, stamp.value);
          SendRoundsKeepSession(u, ready, frame, stamp.value, ds.value, rounds, rounds);
          var (after, progress) := SendRounds(u, ready, frame, stamp.value, ds.value, rounds, rounds);
          ConcludeKeepsSession(u, after, frame, stamp.value, ds.value, progress);
        }
      }
    }
  }

  // --- opening -----------------------------------------------------------------------------------

  lemma {:induction false} StartupRoundsKeepSession(u: Setup, st: State, k: nat)
    requires u.Valid() && InSession(u, st)
    ensures InSession(u, StartupRounds(u, st, k).0)
  {
    hide InSession, BeaconRound;
    if k > 0 {
      StartupRoundsKeepSession(u, st, k - 1);
      var (before, ok) := StartupRounds(u, st, k - 1);
      if ok {
        RoundKeepsSession(u, before, None);
        SleepKeepsSession(u, BeaconRound(u, before, None).0);
      }
    }
  }

  lemma SleepKeepsSession(u: Setup, st: State)
    requires InSession(u, st)
    ensures InSession(u, Sleep(u, st).0)
  {
    hide Sound, NextNumber, LastRound, KeyDone, LastReading;
  }

  lemma NewSessionIsSound(u: Setup, st: State)
    ensures InSession(u, NewSession(st))
  {
  }

  lemma OpenKeepsSession(u: Setup, st: State, socketWorks: bool, broadcastWorks: bool)
    requires u.Valid() && InSession(u, st)
    ensures InSession(u, Opened(u, st, socketWorks, broadcastWorks).0)
  {
    hide Sound, NextNumber, LastRound, KeyDone, LastReading, StartupRounds;
    var open := st.(hasSocket := st.hasSocket || u.mode == O.Production, isOpen := true,
                    health := st.health.(healthy := true));
    NewSessionIsSound(u, open);
    StartupRoundsKeepSession(u, NewSession(open), u.startupBeacons);
    SleepKeepsSession(u, StartupRounds(u, NewSession(open), u.startupBeacons).0);
  }

  // --- whole runs --------------------------------------------------------------------------------

  /** In scheduled mode every run, through every clock, transport and sleep failure, keeps its session sound. */
  lemma {:induction false} EveryRunIsSound(u: Setup, injectedSocket: bool, ops: seq<Op>)
    requires u.Valid() && u.scheduled
    ensures InSession(u, Run(u, injectedSocket, ops))
  {
    hide Sound, NextNumber, LastRound, KeyDone, LastReading, Flushed, Opened;
    if ops == [] {
      assert InSession(u, Initial(injectedSocket)) by { InitialIsSound(u, injectedSocket); }
    } else {
      EveryRunIsSound(u, injectedSocket, ops[..|ops| - 1]);
      var st := Run(u, injectedSocket, ops[..|ops| - 1]);
      match ops[|ops| - 1] {
        case OpenOp(socketWorks, broadcastWorks) =>
          OpenKeepsSession(u, st, socketWorks, broadcastWorks);
        case SendOp(frame) =>
          var queued := st.(slot := Some(frame), health := if st.slot.Some? then st.health.DropFrame() else st.health);
          assert InSession(u, queued);
          FlushKeepsSession(u, queued);
        case FlushOp =>
          FlushKeepsSession(u, st);
        case CloseOp =>
      }
    }
  }

  lemma InitialIsSound(u: Setup, injectedSocket: bool)
    ensures InSession(u, Initial(injectedSocket))
  {
  }

  // --- reading a sound trace ---------------------------------------------------------------------

  lemma {:induction false} SoundAt(u: Setup, t: seq<Event>, k: nat)
    requires Sound(u, t) && k < |t|
    ensures Sound(u, t[..k]) && EventOk(u, t[..k], t[k])
    decreases |t|
  {
    hide EventOk;
    var init := t[..|t| - 1];
    if k < |init| {
      SoundAt(u, init, k);
      assert init[..k] == t[..k];
    }
  }

  /** The time that an event rests on. */
  function TimeOf(u: Setup, e: Event): Option<int> {
    match e
    case Reading(us) => Some(us)
    case Beacon(_, us, _, _) => Some(us)
    case Round(_, us) => Some(us)
    case FrameDatagram(_, stamp, _, _) => if stamp.applyAt.Some? then Some(stamp.applyAt.value - u.leadUs) else None
    case KeyDelivered => None
  }

  lemma EventRestsOnLastReading(u: Setup, t: seq<Event>, e: Event)
    requires EventOk(u, t, e) && TimeOf(u, e).Some?
    ensures TimeOf(u, e) == if e.Reading? then Some(e.us) else LastReading(t)
  {
  }

  lemma {:induction false} ReadingsNeverDecrease(u: Setup, t: seq<Event>, i: nat, j: nat)
    requires Sound(u, t) && i <= j <= |t|
    ensures LastReading(t[..i]).Some? ==>
              LastReading(t[..j]).Some? && LastReading(t[..i]).value <= LastReading(t[..j]).value
    decreases j
  {
    hide EventOk, Sound;
    if i < j {
      ReadingsNeverDecrease(u, t, i, j - 1);
      SoundAt(u, t, j - 1);
      assert t[..j][..j - 1] == t[..j - 1];
      NextReadingIsLater(u, t[..j - 1], t[j - 1]);
      assert t[..j] == t[..j - 1] + [t[j - 1]];
    }
  }

  lemma NextReadingIsLater(u: Setup, t: seq<Event>, e: Event)
    requires EventOk(u, t, e)
    ensures LastReading(t + [e]) == if e.Reading? then Some(e.us) else LastReading(t)
    ensures e.Reading? ==> NotBefore(LastReading(t), e.us)
  {
    assert (t + [e])[..|t|] == t;
  }

  /** In any sound trace the times of beacons, of rounds, and behind the deadlines of frames never decrease, across all
      kinds of event; deadlines never decrease. */
  lemma TimesNeverDecrease(u: Setup, t: seq<Event>, i: nat, j: nat)
    requires Sound(u, t) && i < j < |t|
    ensures TimeOf(u, t[i]).Some? && TimeOf(u, t[j]).Some? ==> TimeOf(u, t[i]).value <= TimeOf(u, t[j]).value
    ensures t[i].FrameDatagram? && t[j].FrameDatagram? ==>
              && t[i].stamp.applyAt.Some? && t[j].stamp.applyAt.Some?
              && t[i].stamp.applyAt.value <= t[j].stamp.applyAt.value
  {
    hide Sound, LastReading;
    SoundAt(u, t, i);
    SoundAt(u, t, j);
    assert t[..i + 1] == t[..i] + [t[i]] && t[..j + 1] == t[..j] + [t[j]];
    NextReadingIsLater(u, t[..i], t[i]);
    NextReadingIsLater(u, t[..j], t[j]);
    ReadingsNeverDecrease(u, t, i + 1, j);
    if TimeOf(u, t[i]).Some? && TimeOf(u, t[j]).Some? {
      EventRestsOnLastReading(u, t[..i], t[i]);
      EventRestsOnLastReading(u, t[..j], t[j]);
    }
  }

  /** Once a key frame has been delivered, no later datagram carries the flag, and none is delivered as a key again. */
  lemma KeyOnlyBeforeDelivery(u: Setup, t: seq<Event>, i: nat, j: nat)
    requires Sound(u, t) && i < j < |t| && t[i].KeyDelivered?
    ensures !t[j].KeyDelivered? && !(t[j].FrameDatagram? && t[j].stamp.key)
  {
    hide Sound, LastReading, LastRound, EndsInBeacons, NextNumber;
    SoundAt(u, t, j);
    DeliveredStays(t, i, j);
  }

  lemma {:induction false} DeliveredStays(t: seq<Event>, i: nat, j: nat)
    requires i < j <= |t| && t[i].KeyDelivered?
    ensures KeyDone(t[..j])
    decreases j
  {
    assert t[..j][..j - 1] == t[..j - 1];
    if i < j - 1 {
      DeliveredStays(t, i, j - 1);
    }
  }

  /** A completed round number n carries the uint32 number n, every address got a beacon of that number with a reading
      of its own, in order and directly before the round was counted. */
  lemma RoundIsComplete(u: Setup, t: seq<Event>, k: nat, a: nat)
    requires Sound(u, t) && k < |t| && t[k].Round? && a < |u.beaconAddresses|
    ensures t[k].sequence == (1 + RoundsIn(t[..k])) % TWO_32
    ensures k >= 2 * |u.beaconAddresses|
    ensures var at := k - 2 * (|u.beaconAddresses| - a);
      t[at].Reading? && t[at + 1] == Beacon(t[k].sequence, t[at].us, u.beaconAddresses[a], true)
    ensures t[k - 2].Reading? && t[k].us == t[k - 2].us
  {
    hide Sound;
    SoundAt(u, t, k);
    BeaconOf(u, t[..k], t[k].sequence, |u.beaconAddresses|, a);
    BeaconOf(u, t[..k], t[k].sequence, |u.beaconAddresses|, |u.beaconAddresses| - 1);
    OneMoreBeaconAt(t[..k]);
  }

  lemma OneMoreBeaconAt(t: seq<Event>)
    requires |t| >= 2 && t[|t| - 2].Reading? && t[|t| - 1].Beacon?
    ensures LastReading(t) == Some(t[|t| - 2].us)
  {
  }

  lemma {:induction false} BeaconOf(u: Setup, t: seq<Event>, sequence: int, k: nat, a: nat)
    requires a < k <= |u.beaconAddresses| && EndsInBeacons(u, t, sequence, k)
    ensures |t| >= 2 * k
    ensures var at := |t| - 2 * (k - a);
      t[at].Reading? && t[at + 1] == Beacon(sequence, t[at].us, u.beaconAddresses[a], true)
    decreases k
  {
    if a < k - 1 {
      BeaconOf(u, t[..|t| - 2], sequence, k - 1, a);
    } else if k > 1 {
      BeaconOf(u, t[..|t| - 2], sequence, k - 1, 0);
    }
  }

  /** What a scheduled run tells of any datagram of a frame that went out, or was tried: its deadline is the lead
      after the latest clock reading, which is less than one beacon interval after the last completed round; a key has
      sequence 1; and every enabled node of the frame had encoded, this datagram among the results. */
  lemma FrameDatagramOfRun(u: Setup, injectedSocket: bool, ops: seq<Op>, k: nat)
    requires u.Valid() && u.scheduled
    requires var t := Run(u, injectedSocket, ops).trace; k < |t| && t[k].FrameDatagram?
    ensures var t := Run(u, injectedSocket, ops).trace; var frame, stamp := t[k].frame, t[k].stamp;
      && stamp.applyAt.Some? && LastReading(t[..k]).Some? && LastRound(t[..k]).Some?
      && stamp.applyAt.value == LastReading(t[..k]).value + u.leadUs <= MAX_UINT64
      && LastRound(t[..k]).value <= LastReading(t[..k]).value < LastRound(t[..k]).value + u.intervalUs
      && (stamp.key ==> frame.sequence == 1)
      && EncodeAll(u, frame, stamp, frame.nodes).Some?
      && t[k].datagram in EncodeAll(u, frame, stamp, frame.nodes).value
  {
    hide Run, EncodeAll, LastReading, LastRound, Sound;
    EveryRunIsSound(u, injectedSocket, ops);
    SoundAt(u, Run(u, injectedSocket, ops).trace, k);
  }
}
