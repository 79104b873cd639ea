/** The WLED audio receiver: each poll drains the datagrams that wait, keeps the last legal packet, and forgets it
    when it has become stale. */
module WledAudioSync {
  import opened Util
  import opened Reals
  import D = Ddp

  type Bytes = D.Bytes

  const HEADER: Bytes := [0x30, 0x30, 0x30, 0x30, 0x32, 0x00]
  const PACKET_SIZE: nat := 44
  const FFT_MAX: int := 254
  const BANDS: nat := 16

  datatype Packet = Packet(
    raw: real, loudness: real, peak: bool, spectrum: seq<real>, magnitude: real, frequency: real)
  {
    /** The ranges that later stages rely on. */
    predicate InRange() {
      && raw >= 0.0 && 0.0 <= loudness <= 1.0 && magnitude >= 0.0 && frequency >= 0.0
      && IsSpectrum(spectrum)
    }
  }

  predicate IsSpectrum(s: seq<real>) { |s| == BANDS && forall i :: 0 <= i < |s| ==> 0.0 <= s[i] <= 1.0 }

  datatype Setup = Setup(staleAfter: real, silenceThreshold: real, float32: Bytes -> Float) {
    predicate Valid() { staleAfter > 0.0 && 0.0 <= silenceThreshold <= 1.0 }
  }

  /** One datagram: exact size and header, four finite non-negative floats, and no band above the maximum. */
  function Decode(u: Setup, data: Bytes): Option<Packet> {
    if |data| != PACKET_SIZE || data[..6] != HEADER then None
    else
      var raw, smoothed := u.float32(data[8..12]), u.float32(data[12..16]);
      var magnitude, frequency := u.float32(data[36..40]), u.float32(data[40..44]);
      var bands := data[18..34];
      if !raw.Legal() || !smoothed.Legal() || !magnitude.Legal() || !frequency.Legal() then None
      else if exists b <- bands :: b as int > FFT_MAX then None
      else
        var loudness := if smoothed.value / 255.0 <= 1.0 then smoothed.value / 255.0 else 1.0;
        Some(Packet(raw.value, loudness, data[16] != 0, Normalized(bands), magnitude.value, frequency.value))
  }

  function Normalized(bands: Bytes): seq<real> {
    seq(|bands|, i requires 0 <= i < |bands| => (bands[i] as int) as real / (FFT_MAX as real))
  }

  lemma DecodedIsInRange(u: Setup, data: Bytes)
    requires Decode(u, data).Some?
    ensures Decode(u, data).value.InRange()
  {
    var bands := data[18..34];
    forall i | 0 <= i < |bands| ensures 0.0 <= Normalized(bands)[i] <= 1.0 {
      assert bands[i] in bands;
      UnitQuotient((bands[i] as int) as real, FFT_MAX as real);
    }
  }

  lemma UnitQuotient(a: real, b: real)
    requires 0.0 <= a <= b && b > 0.0
    ensures 0.0 <= a / b <= 1.0
  {
  }

  // --- spectral flux -----------------------------------------------------------------------------

  /** The sum of the rises over the first `n` bands. */
  function Rises(current: seq<real>, previous: seq<real>, n: nat): real
    requires n <= |current| && n <= |previous|
  {
    if n == 0 then 0.0 else Rises(current, previous, n - 1) + RMax(current[n - 1] - previous[n - 1], 0.0)
  }

  function Flux(current: seq<real>, previous: seq<real>): real {
    Rises(current, previous, Min(|current|, |previous|)) / 16.0
  }

  lemma {:induction false} RisesAreBounded(current: seq<real>, previous: seq<real>, n: nat)
    requires IsSpectrum(current) && IsSpectrum(previous) && n <= BANDS
    ensures 0.0 <= Rises(current, previous, n) <= n as real
  {
    if n > 0 {
      RisesAreBounded(current, previous, n - 1);
    }
  }

  lemma FluxIsInUnit(current: seq<real>, previous: seq<real>)
    requires IsSpectrum(current) && IsSpectrum(previous)
    ensures 0.0 <= Flux(current, previous) <= 1.0
  {
    RisesAreBounded(current, previous, BANDS);
    UnitQuotient(Rises(current, previous, BANDS), 16.0);
  }

  function Total(s: seq<real>): real { if s == [] then 0.0 else Total(s[..|s| - 1]) + s[|s| - 1] }

  /** Band by band the larger of two spectra. */
  function Upper(a: seq<real>, b: seq<real>): (r: seq<real>)
    requires |a| == |b|
    ensures |r| == |a|
  {
    seq(|a|, i requires 0 <= i < |a| => if a[i] >= b[i] then a[i] else b[i])
  }

  /** The flux is what the spectrum adds to the one before, where it rises above it, over the sixteen bands: falling
      bands count nothing. */
  lemma FluxIsRise(current: seq<real>, previous: seq<real>)
    requires |current| == |previous| == 16
    ensures 16.0 * Flux(current, previous) == Total(Upper(current, previous)) - Total(previous)
  {
    hide Rises;
    RisesAre(current, previous, 16);
    assert current[..16] == current && previous[..16] == previous;
  }

  lemma {:induction false} RisesAre(current: seq<real>, previous: seq<real>, n: nat)
    requires n <= |current| && n <= |previous|
    ensures Rises(current, previous, n) == Total(Upper(current[..n], previous[..n])) - Total(previous[..n])
  {
    if n > 0 {
      RisesAre(current, previous, n - 1);
      var c, q := current[..n], previous[..n];
      assert c[..n - 1] == current[..n - 1] && q[..n - 1] == previous[..n - 1];
      assert Upper(c, q)[..n - 1] == Upper(current[..n - 1], previous[..n - 1]);
    }
  }

  // --- the packet, byte by byte ------------------------------------------------------------------

  /** Which datagrams are packets. */
  predicate IsPacket(u: Setup, d: Bytes) {
    && |d| == 44 && d[..6] == [0x30, 0x30, 0x30, 0x30, 0x32, 0x00]
    && u.float32(d[8..12]).Legal() && u.float32(d[12..16]).Legal()
    && u.float32(d[36..40]).Legal() && u.float32(d[40..44]).Legal()
    && forall i :: 18 <= i < 34 ==> d[i] <= 254
  }

  /** A datagram decodes exactly if it is a packet; what each field then is. */
  lemma DecodedFields(u: Setup, d: Bytes)
    ensures Decode(u, d).Some? <==> IsPacket(u, d)
    ensures Decode(u, d).Some? ==>
      var p := Decode(u, d).value; var smoothed := u.float32(d[12..16]).value;
      && Finite(p.raw) == u.float32(d[8..12]) && p.loudness * 255.0 == (if smoothed <= 255.0 then smoothed else 255.0)
      && (p.peak <==> d[16] != 0) && |p.spectrum| == 16
      && (forall i :: 0 <= i < 16 ==> p.spectrum[i] * 254.0 == (d[18 + i] as int) as real)
      && Finite(p.magnitude) == u.float32(d[36..40]) && Finite(p.frequency) == u.float32(d[40..44])
  {
    if |d| == 44 {
      var bands := d[18..34];
      assert forall i :: 18 <= i < 34 ==> d[i] == bands[i - 18];
      if b :| b in bands && b as int > 254 {
        var k :| 0 <= k < |bands| && bands[k] == b;
        assert d[18 + k] > 254;
      }
      if i :| 18 <= i < 34 && d[i] > 254 {
        assert bands[i - 18] in bands;
      }
    }
  }

  // --- draining ----------------------------------------------------------------------------------

  /** The receiver's fields as a value. */
  datatype State = State(
    isOpen: bool, hasSocket: bool, latest: Option<Packet>, previous: Option<seq<real>>, lastTime: Option<real>,
    stale: bool, received: nat, valid: nat, invalid: nat, staleTransitions: nat, resets: nat)

  /** A new receiver, with or without a socket of its user. */
  function Initial(injectedSocket: bool): State {
    State(false, injectedSocket, None, None, None, true, 0, 0, 0, 0, 0)
  }

  /** What one poll has gathered so far. */
  datatype Drained = Drained(latest: Option<Packet>, peak: bool, flux: real)

  const NOTHING: Drained := Drained(None, false, 0.0)

  function Receive(u: Setup, st: State, d: Drained, data: Bytes): (State, Drained) {
    var counted := st.(received := st.received + 1);
    match Decode(u, data)
    case None => (counted.(invalid := st.invalid + 1), d)
    case Some(p) =>
      var flux := if st.previous.Some? then RMax(d.flux, Flux(p.spectrum, st.previous.value)) else d.flux;
      (counted.(valid := st.valid + 1, previous := Some(p.spectrum)), Drained(Some(p), d.peak || p.peak, flux))
  }

  function Drain(u: Setup, st: State, queue: seq<Bytes>): (State, Drained) {
    if queue == [] then (st, NOTHING)
    else
      var (before, d) := Drain(u, st, queue[..|queue| - 1]);
      Receive(u, before, d, queue[|queue| - 1])
  }

  datatype Features = Features(
    timestamp: real, raw: real, loudness: real, spectrum: seq<real>, peak: bool, flux: real, onset: real, silence: bool,
    frequency: real, magnitude: real)
  {
    /** What the constructor of the features checks. */
    predicate Legal() {
      && raw >= 0.0 && 0.0 <= loudness <= 1.0 && IsSpectrum(spectrum) && 0.0 <= flux <= 1.0 && 0.0 <= onset <= 1.0
      && frequency >= 0.0 && magnitude >= 0.0
    }
  }

  function Silent(timestamp: real): Features {
    Features(timestamp, 0.0, 0.0, seq(BANDS, i => 0.0), false, 0.0, 0.0, true, 0.0, 0.0)
  }

  function FeaturesOf(u: Setup, timestamp: real, p: Packet, peak: bool, flux: real): Features {
    var silence := p.loudness <= u.silenceThreshold && forall v <- p.spectrum :: v <= u.silenceThreshold;
    Features(timestamp, p.raw, p.loudness, p.spectrum, peak, flux, flux, silence, p.frequency, p.magnitude)
  }

  datatype Error = NotOpen | SocketError | AssertionFailed

  predicate Expired(u: Setup, st: State, now: real) {
    st.lastTime.None? || now - st.lastTime.value >= u.staleAfter
  }

  /** The end of a poll, after the socket has nothing more. */
  function Settled(u: Setup, st: State, d: Drained, now: real, timestamp: real): (State, Result<Features, Error>) {
    if d.latest.Some? then
      (st.(latest := d.latest, lastTime := Some(now), stale := false),
       Ok(FeaturesOf(u, timestamp, d.latest.value, d.peak, d.flux)))
    else if Expired(u, st, now) then
      (if st.stale then st
       else st.(staleTransitions := st.staleTransitions + 1, previous := None, latest := None, stale := true),
       Ok(Silent(timestamp)))
    else if st.latest.None? then (st, Err(AssertionFailed))
    else (st, Ok(FeaturesOf(u, timestamp, st.latest.value, false, 0.0)))
  }

  /** `broken`: the socket raises something other than "would block" once the queue is empty. */
  function Polled(u: Setup, st: State, now: real, timestamp: real, queue: seq<Bytes>, broken: bool)
    : (State, Result<Features, Error>)
  {
    if !st.isOpen || !st.hasSocket then (st, Err(NotOpen))
    else
      var (drained, d) := Drain(u, st, queue);
      if broken then (drained, Err(SocketError)) else Settled(u, drained, d, now, timestamp)
  }

  function Opened(st: State, works: bool): State {
    if st.isOpen then st else if works then st.(hasSocket := true, isOpen := true) else st.(hasSocket := false)
  }

  function Reset(st: State): State {
    st.(latest := None, previous := None, lastTime := None, stale := true, resets := st.resets + 1)
  }

  function Closed(st: State): State { if !st.hasSocket then st else Reset(st.(hasSocket := false, isOpen := false)) }

  // --- the receiver ------------------------------------------------------------------------------

  class Source {
    const setup: Setup
    var isOpen: bool
    var hasSocket: bool
    var latest: Option<Packet>
    var previous: Option<seq<real>>
    var lastTime: Option<real>
    var stale: bool
    var received: nat
    var valid: nat
    var invalid: nat
    var staleTransitions: nat
    var resets: nat

    ghost function Now(): State
      reads this
    {
      State(isOpen, hasSocket, latest, previous, lastTime, stale, received, valid, invalid, staleTransitions, resets)
    }

    constructor (setup: Setup, injectedSocket: bool)
      ensures this.setup == setup && Now() == Initial(injectedSocket)
    {
      this.setup := setup;
      isOpen, hasSocket, latest, previous, lastTime, stale := false, injectedSocket, None, None, None, true;
      received, valid, invalid, staleTransitions, resets := 0, 0, 0, 0, 0;
    }

    method Open(works: bool)
      modifies this
      ensures Now() == Opened(old(Now()), works)
    {
      if isOpen {
        return;
      }
      hasSocket := works;
      isOpen := works;
    }

    method Poll(now: real, timestamp: real, queue: seq<Bytes>, broken: bool) returns (r: Result<Features, Error>)
      modifies this
      ensures (Now(), r) == Polled(setup, old(Now()), now, timestamp, queue, broken)
    {
      if !isOpen || !hasSocket {
        return Err(NotOpen);
      }
      hide Drain, Settled;
      var newest, peak, maxFlux := DrainSocket(queue);
      if broken {
        return Err(SocketError);
      }
      r := Settle(newest, peak, maxFlux, now, timestamp);
    }

    /** The receive loop of a poll. */
    method DrainSocket(queue: seq<Bytes>) returns (newest: Option<Packet>, peak: bool, maxFlux: real)
      modifies this
      ensures (Now(), Drained(newest, peak, maxFlux)) == Drain(setup, old(Now()), queue)
    {
      hide Decode, Flux, Drain;
      ghost var start := Now();
      DrainNext(setup, start, queue, 0);
      newest, peak, maxFlux := None, false, 0.0;
      for k := 0 to |queue|
        invariant (Now(), Drained(newest, peak, maxFlux)) == Drain(setup, start, queue[..k])
      {
        DrainNext(setup, start, queue, k);
        received := received + 1;
        var packet := Decode(setup, queue[k]);
        if packet.None? {
          invalid := invalid + 1;
        } else {
          valid := valid + 1;
          if previous.Some? {
            maxFlux := RMax(maxFlux, Flux(packet.value.spectrum, previous.value));
          }
          previous := Some(packet.value.spectrum);
          newest := packet;
          peak := peak || packet.value.peak;
        }
      }
      assert queue[..|queue|] == queue;
    }

    method Settle(newest: Option<Packet>, peak: bool, maxFlux: real, now: real, timestamp: real)
      returns (r: Result<Features, Error>)
      modifies this
      ensures (Now(), r) == Settled(setup, old(Now()), Drained(newest, peak, maxFlux), now, timestamp)
    {
      if newest.Some? {
        latest := newest;
        lastTime := Some(now);
        stale := false;
        return Ok(FeaturesOf(setup, timestamp, newest.value, peak, maxFlux));
      }
      if lastTime.None? || now - lastTime.value >= setup.staleAfter {
        if !stale {
          staleTransitions := staleTransitions + 1;
          previous := None;
          latest := None;
        }
        stale := true;
        return Ok(Silent(timestamp));
      }
      if latest.None? {
        return Err(AssertionFailed);
      }
      return Ok(FeaturesOf(setup, timestamp, latest.value, false, 0.0));
    }

    method ResetAll()
      modifies this
      ensures Now() == Reset(old(Now()))
    {
      latest := None;
      previous := None;
      lastTime := None;
      stale := true;
      resets := resets + 1;
    }

    method Close()
      modifies this
      ensures Now() == Closed(old(Now()))
    {
      if !hasSocket {
        return;
      }
      hasSocket := false;
      isOpen := false;
      ResetAll();
    }
  }

  lemma DrainNext(u: Setup, st: State, queue: seq<Bytes>, k: nat)
    requires k <= |queue|
    ensures Drain(u, st, queue[..0]) == (st, NOTHING)
    ensures k < |queue| ==>
      Drain(u, st, queue[..k + 1]) == (var (before, d) := Drain(u, st, queue[..k]); Receive(u, before, d, queue[k]))
  {
    if k < |queue| {
      assert queue[..k + 1][..k] == queue[..k];
    }
  }

  // --- what a drain gathers ----------------------------------------------------------------------

  /** The last legal packet of a queue. */
  function LastLegal(u: Setup, queue: seq<Bytes>): Option<Packet> {
    if queue == [] then None
    else if Decode(u, queue[|queue| - 1]).Some? then Decode(u, queue[|queue| - 1])
    else LastLegal(u, queue[..|queue| - 1])
  }

  /** A drain touches the flux history and the packet counters only, and keeps the last legal packet. */
  lemma {:induction false} DrainEffect(u: Setup, st: State, queue: seq<Bytes>)
    requires st.previous.Some? ==> IsSpectrum(st.previous.value)
    ensures var (after, d) := Drain(u, st, queue);
      && after == st.(
           previous := after.previous, received := after.received, valid := after.valid, invalid := after.invalid)
      && d.latest == LastLegal(u, queue)
      && after.previous == (if d.latest.Some? then Some(d.latest.value.spectrum) else st.previous)
      && (d.latest.Some? ==> d.latest.value.InRange())
      && 0.0 <= d.flux <= 1.0
      && after.received == st.received + |queue|
      && after.received - st.received == (after.valid - st.valid) + (after.invalid - st.invalid)
      && (d.latest.None? ==> d == NOTHING && after.valid == st.valid)
  {
    hide Decode, Flux;
    if queue != [] {
      var init, data := queue[..|queue| - 1], queue[|queue| - 1];
      DrainEffect(u, st, init);
      if Decode(u, data).Some? {
        DecodedIsInRange(u, data);
        var before := Drain(u, st, init).0;
        if before.previous.Some? {
          FluxIsInUnit(Decode(u, data).value.spectrum, before.previous.value);
        }
      }
    }
  }

  /** The spectra that a drain compares, in receive order, the remembered one first. */
  function Spectra(u: Setup, previous: Option<seq<real>>, queue: seq<Bytes>): seq<seq<real>> {
    if queue == [] then (if previous.Some? then [previous.value] else [])
    else
      var before, p := Spectra(u, previous, queue[..|queue| - 1]), Decode(u, queue[|queue| - 1]);
      if p.Some? then before + [p.value.spectrum] else before
  }

  /** The flux of a drain is the largest rise from one spectrum to the next, and zero if there is none. */
  predicate LargestRise(spectra: seq<seq<real>>, flux: real) {
    && flux >= 0.0
    && (forall i :: 0 < i < |spectra| ==> Flux(spectra[i], spectra[i - 1]) <= flux)
    && (flux == 0.0 || exists i :: 0 < i < |spectra| && flux == Flux(spectra[i], spectra[i - 1]))
  }

  /** The transients of a drain: a peak if any legal packet has one, and the largest rise over all of them. */
  lemma {:induction false} DrainTransients(u: Setup, st: State, queue: seq<Bytes>)
    ensures var (after, d) := Drain(u, st, queue); var spectra := Spectra(u, st.previous, queue);
      && (d.peak <==> exists data <- queue :: Decode(u, data).Some? && Decode(u, data).value.peak)
      && LargestRise(spectra, d.flux)
      && after.previous == (if spectra == [] then None else Some(spectra[|spectra| - 1]))
  {
    hide Decode, Flux;
    if queue != [] {
      var init, data := queue[..|queue| - 1], queue[|queue| - 1];
      DrainTransients(u, st, init);
      assert forall x :: x in queue <==> x in init || x == data;
      var (before, d) := Drain(u, st, init);
      var spectra, p := Spectra(u, st.previous, init), Decode(u, data);
      if p.Some? {
        OneMoreRise(spectra, p.value.spectrum, d.flux);
      }
    }
  }

  lemma OneMoreRise(spectra: seq<seq<real>>, next: seq<real>, flux: real)
    requires LargestRise(spectra, flux)
    ensures LargestRise(
      spectra + [next], if spectra == [] then flux else RMax(flux, Flux(next, spectra[|spectra| - 1])))
  {
    hide Flux;
    if flux != 0.0 {
      var i :| 0 < i < |spectra| && flux == Flux(spectra[i], spectra[i - 1]);
      assert (spectra + [next])[i] == spectra[i] && (spectra + [next])[i - 1] == spectra[i - 1];
    }
    if spectra != [] {
      var n := |spectra|;
      assert (spectra + [next])[n] == next && (spectra + [next])[n - 1] == spectra[n - 1];
    }
  }

  /** Draining two queues one after the other is draining both at once; peaks are or-ed, the larger flux wins. */
  lemma {:induction false} DrainInTwo(u: Setup, st: State, a: seq<Bytes>, b: seq<Bytes>)
    requires st.previous.Some? ==> IsSpectrum(st.previous.value)
    ensures var (whole, d) := Drain(u, st, a + b);
      var (half, first) := Drain(u, st, a);
      var (rest, second) := Drain(u, half, b);
      && whole == rest
      && d == Drained(if second.latest.Some? then second.latest else first.latest, first.peak || second.peak,
                      RMax(first.flux, second.flux))
    decreases |b|
  {
    hide Decode, Flux;
    DrainEffect(u, st, a);
    if b == [] {
      assert a + b == a;
    } else {
      assert (a + b)[..|a + b| - 1] == a + b[..|b| - 1];
      DrainInTwo(u, st, a, b[..|b| - 1]);
    }
  }

  // --- when the assertion fails ------------------------------------------------------------------

  /** The poll reaches its end, with no legal packet on the way. */
  predicate EndsEmpty(u: Setup, st: State, queue: seq<Bytes>, broken: bool) {
    st.isOpen && st.hasSocket && !broken && LastLegal(u, queue).None?
  }

  /** In every state where the retained packet is there exactly while the source is fresh: the assertion fails if and
      only if the poll ends empty, the source is stale, and the clock reads less than the limit after the last legal
      packet. */
  lemma AssertionFailsIff(u: Setup, st: State, now: real, timestamp: real, queue: seq<Bytes>, broken: bool)
    requires (st.stale <==> st.latest.None?) && (st.previous.Some? ==> IsSpectrum(st.previous.value))
    ensures Polled(u, st, now, timestamp, queue, broken).1 == Err(AssertionFailed)
       <==> && EndsEmpty(u, st, queue, broken) && st.stale
            && st.lastTime.Some? && now - st.lastTime.value < u.staleAfter
  {
    hide Drain, LastLegal, IsSpectrum;
    DrainEffect(u, st, queue);
  }

  // --- whole runs --------------------------------------------------------------------------------

  datatype Op =
    | OpenOp(works: bool)
    | PollOp(now: real, timestamp: real, queue: seq<Bytes>, broken: bool)
    | ResetOp
    | CloseOp

  function Step(u: Setup, st: State, op: Op): State {
    match op
    case OpenOp(works) => Opened(st, works)
    case PollOp(now, timestamp, queue, broken) => Polled(u, st, now, timestamp, queue, broken).0
    case ResetOp => Reset(st)
    case CloseOp => Closed(st)
  }

  function Run(u: Setup, injectedSocket: bool, ops: seq<Op>): State {
    if ops == [] then Initial(injectedSocket)
    else Step(u, Run(u, injectedSocket, ops[..|ops| - 1]), ops[|ops| - 1])
  }

  datatype Seen = Seen(packet: Packet, time: real)

  /** Read off a run: the last legal packet since the last reset, with the clock of the poll that drained it, and
      whether a later poll that ended empty read a clock at or past the limit. */
  datatype History = Nothing | Last(seen: Seen, outlived: bool)

  function After(u: Setup, st: State, h: History, op: Op): History {
    match op
    case OpenOp(_) => h
    case ResetOp => Nothing
    case CloseOp => if st.hasSocket then Nothing else h
    case PollOp(now, _, queue, broken) =>
      if broken || !st.isOpen || !st.hasSocket then h
      else if LastLegal(u, queue).Some? then Last(Seen(LastLegal(u, queue).value, now), false)
      else if h.Last? && now - h.seen.time >= u.staleAfter then h.(outlived := true)
      else h
  }

  function HistoryOf(u: Setup, injectedSocket: bool, ops: seq<Op>): History {
    if ops == [] then Nothing
    else
      var init := ops[..|ops| - 1];
      After(u, Run(u, injectedSocket, init), HistoryOf(u, injectedSocket, init), ops[|ops| - 1])
  }

  /** What every run keeps, whatever its clock does. */
  predicate Inv(st: State, h: History) {
    && (st.isOpen ==> st.hasSocket)
    && st.received == st.valid + st.invalid
    && (st.previous.Some? ==> IsSpectrum(st.previous.value))
    && (st.stale <==> h.Nothing? || h.outlived)
    && st.latest == (if st.stale then None else Some(h.seen.packet))
    && (!st.stale ==> st.previous.Some?)
    && st.lastTime == (if h.Last? then Some(h.seen.time) else None)
    && (h.Last? ==> h.seen.packet.InRange())
  }

  lemma PollKeepsInv(u: Setup, st: State, h: History, now: real, timestamp: real, queue: seq<Bytes>, broken: bool)
    requires Inv(st, h)
    ensures var (after, r) := Polled(u, st, now, timestamp, queue, broken);
      && Inv(after, After(u, st, h, PollOp(now, timestamp, queue, broken)))
      && (r.Ok? ==> r.value.Legal())
  {
    hide Drain, LastLegal;
    DrainEffect(u, st, queue);
  }

  lemma {:induction false} EveryRunKeepsInv(u: Setup, injectedSocket: bool, ops: seq<Op>)
    ensures Inv(Run(u, injectedSocket, ops), HistoryOf(u, injectedSocket, ops))
  {
    hide Step, After, Inv;
    if ops == [] {
      assert Inv(Initial(injectedSocket), Nothing) by { NewKeepsInv(injectedSocket); }
    } else {
      var init := ops[..|ops| - 1];
      EveryRunKeepsInv(u, injectedSocket, init);
      StepKeepsInv(u, Run(u, injectedSocket, init), HistoryOf(u, injectedSocket, init), ops[|ops| - 1]);
    }
  }

  lemma NewKeepsInv(injectedSocket: bool)
    ensures Inv(Initial(injectedSocket), Nothing)
  {
  }

  lemma StepKeepsInv(u: Setup, st: State, h: History, op: Op)
    requires Inv(st, h)
    ensures Inv(Step(u, st, op), After(u, st, h, op))
  {
    hide Polled, IsSpectrum, LastLegal;
    if op.PollOp? {
      PollKeepsInv(u, st, h, op.now, op.timestamp, op.queue, op.broken);
    }
  }

  /** After any run, on any clock: the assertion of a poll fails if and only if the poll ends empty, an earlier poll
      since the last legal packet read a clock at or past that packet's limit, and this one reads below it. */
  lemma AssertionFailsAfterRunIff(
      u: Setup, injectedSocket: bool, ops: seq<Op>, now: real, timestamp: real, queue: seq<Bytes>, broken: bool)
    ensures var st, h := Run(u, injectedSocket, ops), HistoryOf(u, injectedSocket, ops);
      Polled(u, st, now, timestamp, queue, broken).1 == Err(AssertionFailed)
      <==> EndsEmpty(u, st, queue, broken) && h.Last? && h.outlived && now - h.seen.time < u.staleAfter
  {
    hide Polled, LastLegal, Run, IsSpectrum, HistoryOf;
    EveryRunKeepsInv(u, injectedSocket, ops);
    AssertionFailsIff(u, Run(u, injectedSocket, ops), now, timestamp, queue, broken);
  }

  /** An outlived packet was outlived by a poll of the run: one that reads a clock at or past the limit. */
  lemma {:induction false} OutlivedByAPoll(u: Setup, injectedSocket: bool, ops: seq<Op>) returns (k: nat)
    requires HistoryOf(u, injectedSocket, ops).Last? && HistoryOf(u, injectedSocket, ops).outlived
    ensures k < |ops| && ops[k].PollOp?
    ensures ops[k].now - HistoryOf(u, injectedSocket, ops).seen.time >= u.staleAfter
  {
    hide Run, LastLegal;
    var init := ops[..|ops| - 1];
    if HistoryOf(u, injectedSocket, init).Last? && HistoryOf(u, injectedSocket, init).outlived
       && HistoryOf(u, injectedSocket, init).seen == HistoryOf(u, injectedSocket, ops).seen {
      k := OutlivedByAPoll(u, injectedSocket, init);
    } else {
      k := |ops| - 1;
    }
  }

  /** So on a clock that never reads less than it has read before, no poll of any run fails its assertion. */
  lemma ForwardClockNeverFails(
      u: Setup, injectedSocket: bool, ops: seq<Op>, now: real, timestamp: real, queue: seq<Bytes>, broken: bool)
    requires forall k :: 0 <= k < |ops| && ops[k].PollOp? ==> ops[k].now <= now
    ensures Polled(u, Run(u, injectedSocket, ops), now, timestamp, queue, broken).1 != Err(AssertionFailed)
  {
    hide Polled, Run, HistoryOf;
    AssertionFailsAfterRunIff(u, injectedSocket, ops, now, timestamp, queue, broken);
    var h := HistoryOf(u, injectedSocket, ops);
    if h.Last? && h.outlived {
      var k := OutlivedByAPoll(u, injectedSocket, ops);
    }
  }

  /** The last legal packet of a queue is the packet behind which no datagram decodes. */
  lemma {:induction false} LastLegalIs(u: Setup, queue: seq<Bytes>, k: nat)
    requires k <= |queue| && forall j :: k <= j < |queue| ==> Decode(u, queue[j]).None?
    ensures k == 0 ==> LastLegal(u, queue) == None
    ensures k > 0 && Decode(u, queue[k - 1]).Some? ==> LastLegal(u, queue) == Decode(u, queue[k - 1])
  {
    hide Decode;
    if k < |queue| {
      assert Decode(u, queue[|queue| - 1]).None?;
      LastLegalIs(u, queue[..|queue| - 1], k);
    }
  }

  /** A poll counts a transition to stale exactly when it makes a fresh source stale, and nothing else does. */
  lemma PollCountsTransitions(
      u: Setup, st: State, now: real, timestamp: real, queue: seq<Bytes>, broken: bool)
    requires st.previous.Some? ==> IsSpectrum(st.previous.value)
    ensures var after := Polled(u, st, now, timestamp, queue, broken).0;
      after.staleTransitions == st.staleTransitions + (if !st.stale && after.stale then 1 else 0)
      && after.resets == st.resets
  {
    hide Drain, LastLegal, IsSpectrum;
    DrainEffect(u, st, queue);
  }

  /** The features of one packet, with the transients of a poll; silence is a quiet packet with quiet bands. */
  predicate ShowsPacket(f: Features, u: Setup, timestamp: real, p: Packet) {
    && f.timestamp == timestamp && f.raw == p.raw && f.loudness == p.loudness && f.spectrum == p.spectrum
    && f.onset == f.flux && f.frequency == p.frequency && f.magnitude == p.magnitude
    && (f.silence <==>
          p.loudness <= u.silenceThreshold
          && forall i :: 0 <= i < |p.spectrum| ==> p.spectrum[i] <= u.silenceThreshold)
  }

  predicate ShowsNothing(f: Features, timestamp: real) {
    && f.timestamp == timestamp && f.raw == 0.0 && f.loudness == 0.0 && !f.peak && f.flux == 0.0 && f.onset == 0.0
    && f.silence && f.frequency == 0.0 && f.magnitude == 0.0
    && |f.spectrum| == 16 && forall i :: 0 <= i < 16 ==> f.spectrum[i] == 0.0
  }

  lemma FeaturesShow(u: Setup, timestamp: real, p: Packet, peak: bool, flux: real)
    ensures var f := FeaturesOf(u, timestamp, p, peak, flux);
      ShowsPacket(f, u, timestamp, p) && f.peak == peak && f.flux == flux
  {
    if forall i :: 0 <= i < |p.spectrum| ==> p.spectrum[i] <= u.silenceThreshold {
      assert forall v <- p.spectrum :: v <= u.silenceThreshold;
    } else {
      var i :| 0 <= i < |p.spectrum| && p.spectrum[i] > u.silenceThreshold;
      assert p.spectrum[i] in p.spectrum;
    }
  }

  lemma SilentShows(timestamp: real)
    ensures ShowsNothing(Silent(timestamp), timestamp)
  {
  }

  /** Whatever the run, an open poll that does not fail its assertion shows the last legal packet: its own, or the
      retained one while that is younger than the limit, and silence otherwise; always in range, with every datagram
      counted once. */
  lemma PollShowsTheRun(u: Setup, injectedSocket: bool, ops: seq<Op>, now: real, timestamp: real, queue: seq<Bytes>)
    requires Run(u, injectedSocket, ops).isOpen
    ensures var st, h := Run(u, injectedSocket, ops), HistoryOf(u, injectedSocket, ops);
      var (after, r) := Polled(u, st, now, timestamp, queue, false);
      r != Err(AssertionFailed) ==>
        && r.Ok? && r.value.Legal() && st.received == st.valid + st.invalid
        && (LastLegal(u, queue).None? ==>
              && (if h.Last? && now - h.seen.time < u.staleAfter
                  then ShowsPacket(r.value, u, timestamp, h.seen.packet) && !r.value.peak && r.value.flux == 0.0
                  else ShowsNothing(r.value, timestamp))
              && (after.stale <==> h.Nothing? || now - h.seen.time >= u.staleAfter))
        && (LastLegal(u, queue).Some? ==>
              && !after.stale
              && ShowsPacket(r.value, u, timestamp, LastLegal(u, queue).value)
              && r.value.peak == Drain(u, st, queue).1.peak && r.value.flux == Drain(u, st, queue).1.flux)
  {
    hide Drain, LastLegal, Run, IsSpectrum, HistoryOf, FeaturesOf, Silent, ShowsPacket, ShowsNothing;
    EveryRunKeepsInv(u, injectedSocket, ops);
    var st, h := Run(u, injectedSocket, ops), HistoryOf(u, injectedSocket, ops);
    DrainEffect(u, st, queue);
    PollKeepsInv(u, st, h, now, timestamp, queue, false);
    var (drained, d) := Drain(u, st, queue);
    SilentShows(timestamp);
    if d.latest.Some? {
      FeaturesShow(u, timestamp, d.latest.value, d.peak, d.flux);
    }
    if h.Last? {
      FeaturesShow(u, timestamp, h.seen.packet, false, 0.0);
    }
  }

  /** A clock that runs backwards does make the assertion fail. */
  lemma BackwardClockFails(u: Setup, data: Bytes)
    requires u.Valid() && Decode(u, data).Some?
    ensures
      var ops := [OpenOp(true), PollOp(0.0, 0.0, [data], false), PollOp(u.staleAfter, 0.0, [], false)];
      Polled(u, Run(u, false, ops), 0.0, 0.0, [], false).1 == Err(AssertionFailed)
  {
    hide Decode, Polled, Drain;
    var o1: seq<Op> := [OpenOp(true)];
    var o2: seq<Op> := [OpenOp(true), PollOp(0.0, 0.0, [data], false)];
    var o3: seq<Op> := [OpenOp(true), PollOp(0.0, 0.0, [data], false), PollOp(u.staleAfter, 0.0, [], false)];
    assert o3[..|o3| - 1] == o2 && o2[..|o2| - 1] == o1 && o1[..|o1| - 1] == [];
    assert Run(u, false, []) == Initial(false);
    var s1 := Run(u, false, o1);
    assert s1 == Initial(false).(isOpen := true, hasSocket := true);
    assert LastLegal(u, [data]) == Decode(u, data);
    var p := LastLegal(u, [data]).value;
    PollKeepsSocket(u, s1, 0.0, [data]);
    PollKeepsSocket(u, Run(u, false, o2), u.staleAfter, []);
    assert HistoryOf(u, false, o2) == Last(Seen(p, 0.0), false);
    assert HistoryOf(u, false, o3) == Last(Seen(p, 0.0), true);
    AssertionFailsAfterRunIff(u, false, o3, 0.0, 0.0, [], false);
  }

  lemma PollKeepsSocket(u: Setup, st: State, now: real, queue: seq<Bytes>)
    requires st.isOpen && st.hasSocket && (st.previous.Some? ==> IsSpectrum(st.previous.value))
    ensures var after := Polled(u, st, now, 0.0, queue, false).0;
      && after.isOpen && after.hasSocket && (after.previous.Some? ==> IsSpectrum(after.previous.value))
  {
    hide Drain, IsSpectrum;
    DrainEffect(u, st, queue);
  }

  // --- one drain in two polls --------------------------------------------------------------------

  /** The poll finds no legal packet and lets the retained one go. */
  predicate GoesStale(u: Setup, st: State, now: real, queue: seq<Bytes>) {
    LastLegal(u, queue).None? && Expired(u, st, now) && !st.stale
  }

  /** When two polls leave what one poll of all their datagrams leaves. */
  predicate SplitAgrees(u: Setup, st: State, a: seq<Bytes>, b: seq<Bytes>, t1: real, t2: real) {
    if LastLegal(u, b).Some? then !GoesStale(u, st, t1, a)
    else if LastLegal(u, a).Some? then t1 == t2
    else GoesStale(u, st, t1, a) ==> Expired(u, st, t2)
  }

  /** Two polls end in the state of one poll of all their datagrams exactly in these cases: the second has a legal
      packet and the first does not let the retained one go; or only the first has one, and the clock has not moved; or
      neither has, and if the first lets the retained packet go, the second would have too. */
  lemma SplitPollsAgreeIff(
      u: Setup, st: State, a: seq<Bytes>, b: seq<Bytes>, t1: real, t2: real, ts1: real, ts2: real)
    requires u.Valid() && st.isOpen && st.hasSocket && (st.previous.Some? ==> IsSpectrum(st.previous.value))
    requires st.stale <==> st.latest.None?
    ensures var half := Polled(u, st, t1, ts1, a, false).0; var rest := Polled(u, half, t2, ts2, b, false).0;
      Polled(u, st, t2, ts2, a + b, false).0 == rest <==> SplitAgrees(u, st, a, b, t1, t2)
  {
    hide Drain, LastLegal, IsSpectrum, Decode;
    DrainInTwo(u, st, a, b);
    DrainEffect(u, st, a);
    SettledFirst(u, st, a, t1, ts1, b);
    var (half, first) := Drain(u, st, a);
    var settled := Settled(u, half, first, t1, ts1).0;
    DrainEffect(u, half, b);
    DrainEffect(u, settled, b);
  }

  /** And when the second poll has a legal packet, the one poll shows the continuous values of the second, either
      peak, and the larger flux. */
  lemma SplitPollsShowTheSame(
      u: Setup, st: State, a: seq<Bytes>, b: seq<Bytes>, t1: real, t2: real, ts1: real, ts2: real)
    requires st.isOpen && st.hasSocket && (st.previous.Some? ==> IsSpectrum(st.previous.value))
    requires LastLegal(u, b).Some? && !GoesStale(u, st, t1, a)
    ensures var (half, f1) := Polled(u, st, t1, ts1, a, false); var (rest, f2) := Polled(u, half, t2, ts2, b, false);
      var f := Polled(u, st, t2, ts2, a + b, false).1;
      && f.Ok? && f2.Ok?
      && (f1.Ok? ==>
            f.value == f2.value.(peak := f1.value.peak || f2.value.peak, flux := RMax(f1.value.flux, f2.value.flux),
                                 onset := RMax(f1.value.flux, f2.value.flux)))
  {
    hide Drain, LastLegal, IsSpectrum, Decode;
    DrainInTwo(u, st, a, b);
    DrainEffect(u, st, a);
    SettledFirst(u, st, a, t1, ts1, b);
    var (half, first) := Drain(u, st, a);
    var settled := Settled(u, half, first, t1, ts1).0;
    DrainEffect(u, half, b);
    DrainEffect(u, settled, b);
  }

  /** What the end of the first poll leaves for the second. */
  lemma SettledFirst(u: Setup, st: State, a: seq<Bytes>, t1: real, ts1: real, b: seq<Bytes>)
    requires st.previous.Some? ==> IsSpectrum(st.previous.value)
    ensures var (half, first) := Drain(u, st, a); var (settled, f1) := Settled(u, half, first, t1, ts1);
      && (settled.previous.Some? ==> IsSpectrum(settled.previous.value))
      && settled.isOpen == st.isOpen && settled.hasSocket == st.hasSocket
      && (!GoesStale(u, st, t1, a) ==>
            && settled == half.(latest := settled.latest, lastTime := settled.lastTime, stale := settled.stale)
            && Drain(u, settled, b) == (var (rest, second) := Drain(u, half, b);
                 (rest.(latest := settled.latest, lastTime := settled.lastTime, stale := settled.stale), second))
            && (f1.Ok? ==> f1.value.peak == first.peak && f1.value.flux == first.flux))
      && (GoesStale(u, st, t1, a) ==> settled.staleTransitions == half.staleTransitions + 1)
  {
    hide Drain, LastLegal, IsSpectrum, Decode;
    DrainEffect(u, st, a);
    var (half, first) := Drain(u, st, a);
    var (settled, f1) := Settled(u, half, first, t1, ts1);
    if !GoesStale(u, st, t1, a) {
      DrainIgnores(u, half, settled.latest, settled.lastTime, settled.stale, b);
    } else {
      DrainEffect(u, settled, b);
    }
  }

  lemma {:induction false} DrainIgnores(
      u: Setup, st: State, latest: Option<Packet>, lastTime: Option<real>, stale: bool, queue: seq<Bytes>)
    ensures Drain(u, st.(latest := latest, lastTime := lastTime, stale := stale), queue)
         == (var (rest, d) := Drain(u, st, queue);
             (rest.(latest := latest, lastTime := lastTime, stale := stale), d))
  {
    hide Receive;
    if queue != [] {
      var init, data := queue[..|queue| - 1], queue[|queue| - 1];
      DrainIgnores(u, st, latest, lastTime, stale, init);
      var (rest, d) := Drain(u, st, init);
      ReceiveIgnores(u, rest, d, latest, lastTime, stale, data);
    }
  }

  lemma ReceiveIgnores(
      u: Setup, st: State, d: Drained, latest: Option<Packet>, lastTime: Option<real>, stale: bool, data: Bytes)
    ensures Receive(u, st.(latest := latest, lastTime := lastTime, stale := stale), d, data)
         == (var (rest, e) := Receive(u, st, d, data);
             (rest.(latest := latest, lastTime := lastTime, stale := stale), e))
  {
    hide Decode, Flux;
  }
}
