/** The cue-scoped motion clock: integrated speed against cue time, in exact reals. */
module Motion {
  import opened Util
  import opened Reals

  datatype RawInterval = Interval(previousMotion: real, motion: real, previousCue: real, cue: real) {
    predicate Ordered() { 0.0 <= previousMotion <= motion && 0.0 <= previousCue <= cue }

    function MotionDelta(): real { motion - previousMotion }

    function CueDelta(): real { cue - previousCue }
  }

  /** An interval that its constructor accepts. */
  type MotionInterval = i: RawInterval | i.Ordered() witness Interval(0.0, 0.0, 0.0, 0.0)

  datatype MotionError = NegativeInput | BackwardTimestamp

  /** The clock's fields as a value. */
  datatype ClockState = ClockState(motionTime: real, lastCueTime: Option<real>, current: Option<MotionInterval>) {
    /** The fields agree with the interval handed out last. */
    predicate Consistent() {
      && 0.0 <= motionTime
      && match current
         case None => lastCueTime.None? && motionTime == 0.0
         case Some(i) => lastCueTime == Some(i.cue) && motionTime == i.motion
    }
  }

  const RESET: ClockState := ClockState(0.0, None, None)

  class CueMotionClock {
    var motionTime: real
    var lastCueTime: Option<real>
    var current: Option<MotionInterval>

    ghost function Now(): ClockState
      reads this
    {
      ClockState(motionTime, lastCueTime, current)
    }

    constructor ()
      ensures Now() == RESET
    {
      motionTime, lastCueTime, current := 0.0, None, None;
    }

    method Reset()
      modifies this
      ensures Now() == RESET
    {
      motionTime, lastCueTime, current := 0.0, None, None;
    }

    /** Integrate `speed` over the time since the last render; a repeated timestamp returns the same interval,
        and a refused call changes nothing. */
    method Advance(cueTime: real, speed: real) returns (r: Result<MotionInterval, MotionError>)
      requires Now().Consistent()
      modifies this
      ensures Now().Consistent()
      ensures (Now(), r) == Advanced(old(Now()), cueTime, speed)
    {
      if cueTime < 0.0 || speed < 0.0 {
        return Err(NegativeInput);
      }
      var previousCueTime := 0.0;
      if lastCueTime.Some? {
        if cueTime < lastCueTime.value {
          return Err(BackwardTimestamp);
        }
        if cueTime == lastCueTime.value {
          return Ok(current.value);
        }
        previousCueTime := lastCueTime.value;
      }
      var previousMotionTime := motionTime;
      var increment := Product(cueTime - previousCueTime, speed);
      ProductNonNegative(cueTime - previousCueTime, speed);
      var interval := Interval(previousMotionTime, previousMotionTime + increment, previousCueTime, cueTime);
      motionTime := interval.motion;
      lastCueTime := Some(cueTime);
      current := Some(interval);
      return Ok(interval);
    }
  }

  function PreviousCue(st: ClockState): real {
    if st.lastCueTime.Some? then st.lastCueTime.value else 0.0
  }

  /** What one call does to the clock. */
  function Advanced(st: ClockState, cueTime: real, speed: real): (r: (ClockState, Result<MotionInterval, MotionError>))
    requires st.Consistent()
    ensures r.0.Consistent()
  {
    if cueTime < 0.0 || speed < 0.0 then (st, Err(NegativeInput))
    else if cueTime < PreviousCue(st) then (st, Err(BackwardTimestamp))
    else if st.lastCueTime == Some(cueTime) then (st, Ok(st.current.value))
    else
      var increment := Product(cueTime - PreviousCue(st), speed);
      ProductNonNegative(cueTime - PreviousCue(st), speed);
      var i := Interval(st.motionTime, st.motionTime + increment, PreviousCue(st), cueTime);
      (ClockState(i.motion, Some(cueTime), Some(i)), Ok(i))
  }

  // --- whole runs --------------------------------------------------------------------------------

  datatype Tick = Tick(cueTime: real, speed: real)

  function Run(st: ClockState, ticks: seq<Tick>): (r: ClockState)
    requires st.Consistent()
    ensures r.Consistent()
  {
    if ticks == [] then st
    else
      var last := ticks[|ticks| - 1];
      Advanced(Run(st, ticks[..|ticks| - 1]), last.cueTime, last.speed).0
  }

  /** The cue time of the last tick, or cue start. */
  function LastCue(ticks: seq<Tick>): real {
    if ticks == [] then 0.0 else ticks[|ticks| - 1].cueTime
  }

  /** Timestamps that never go back, at speeds that are never negative. */
  predicate Admissible(ticks: seq<Tick>) {
    ticks == [] ||
    var init, last := ticks[..|ticks| - 1], ticks[|ticks| - 1];
    Admissible(init) && 0.0 <= last.speed && LastCue(init) <= last.cueTime
  }

  /** Speed integrated over a run from cue start, each speed over the gap before its own tick. */
  function Integral(ticks: seq<Tick>): real {
    if ticks == [] then 0.0
    else
      var init, last := ticks[..|ticks| - 1], ticks[|ticks| - 1];
      Integral(init) + Product(last.cueTime - LastCue(init), last.speed)
  }

  /** Over every admissible run the clock accepts each tick and holds the integral of speed. */
  lemma {:induction false} ClockIntegratesSpeed(ticks: seq<Tick>)
    requires Admissible(ticks)
    ensures Run(RESET, ticks).motionTime == Integral(ticks)
    ensures PreviousCue(Run(RESET, ticks)) == LastCue(ticks)
    ensures ticks != [] ==>
      var n := |ticks| - 1; Advanced(Run(RESET, ticks[..n]), ticks[n].cueTime, ticks[n].speed).1.Ok?
  {
    hide Product;
    if ticks != [] {
      var init, last := ticks[..|ticks| - 1], ticks[|ticks| - 1];
      ClockIntegratesSpeed(init);
      ProductOverGap(LastCue(init), last.cueTime, last.speed);
      LastCueNonNegative(ticks);
    }
  }

  lemma {:induction false} LastCueNonNegative(ticks: seq<Tick>)
    requires Admissible(ticks)
    ensures 0.0 <= LastCue(ticks)
  {
    if ticks != [] {
      LastCueNonNegative(ticks[..|ticks| - 1]);
    }
  }

  /** At one speed the integral is the closed form, whatever the timestamps in between. */
  lemma {:induction false} ConstantSpeedIntegral(ticks: seq<Tick>, speed: real)
    requires forall i :: 0 <= i < |ticks| ==> ticks[i].speed == speed
    ensures Integral(ticks) == Product(LastCue(ticks), speed)
  {
    hide Product;
    ProductOverGap(0.0, 0.0, speed);
    if ticks != [] {
      var init := ticks[..|ticks| - 1];
      ConstantSpeedIntegral(init, speed);
      ProductOverGap(LastCue(init), LastCue(ticks), speed);
    }
  }

  /** The interval built for a caller without a clock. */
  function ConstantSpeedInterval(cueTime: real, speed: real): Result<MotionInterval, MotionError> {
    if cueTime < 0.0 || speed < 0.0 then Err(NegativeInput)
    else
      ProductNonNegative(cueTime, speed);
      Ok(Interval(0.0, Product(cueTime, speed), 0.0, cueTime))
  }

  /** The interval lies on the line motion = speed * cue at both ends. */
  predicate OnLine(i: MotionInterval, speed: real) {
    i.motion == Product(i.cue, speed) && i.previousMotion == Product(i.previousCue, speed)
  }

  /** Every interval a clock hands out at one speed lies on the line, starts where the last one ended, and a repeated
      timestamp hands out the same one; so does the interval built without a clock. */
  lemma ConstantSpeedStaysOnLine(st: ClockState, cueTime: real, speed: real)
    requires st.Consistent() && 0.0 <= speed && PreviousCue(st) <= cueTime
    requires st.current.Some? ==> OnLine(st.current.value, speed)
    ensures var (st', r) := Advanced(st, cueTime, speed);
      && r.Ok? && OnLine(r.value, speed) && r.value.cue == cueTime
      && st'.current == Some(r.value)
      && (r.value.previousCue == PreviousCue(st) || Some(r.value) == st.current)
    ensures ConstantSpeedInterval(cueTime, speed).Ok? && OnLine(ConstantSpeedInterval(cueTime, speed).value, speed)
  {
    hide Product;
    ProductOverGap(PreviousCue(st), cueTime, speed);
  }

  // --- one tick in plain numbers -----------------------------------------------------------------

  /** After any admissible run, one more tick: refused exactly for a negative input or a cue time before the last one;
      at the last cue time again it hands out the last interval; otherwise an interval from the last cue time and
      motion, in which motion grows by speed times cue time, and which the clock then holds. */
  lemma TickIs(ticks: seq<Tick>, cueTime: real, speed: real)
    requires Admissible(ticks)
    ensures var st := Run(RESET, ticks); var (after, r) := Advanced(st, cueTime, speed);
      && (r.Err? <==> cueTime < 0.0 || speed < 0.0 || cueTime < LastCue(ticks))
      && (r.Err? ==> after == st)
      && (r.Ok? && ticks != [] && cueTime == LastCue(ticks) ==> after == st && Some(r.value) == st.current)
      && (r.Ok? && (ticks == [] || cueTime > LastCue(ticks)) ==>
            && r.value.previousCue == LastCue(ticks) && r.value.cue == cueTime
            && r.value.previousMotion == st.motionTime
            && r.value.motion - r.value.previousMotion == (cueTime - LastCue(ticks)) * speed
            && after.motionTime == r.value.motion && after.lastCueTime == Some(cueTime)
            && after.current == Some(r.value))
  {
    hide Run, Admissible, Integral;
    ClockIntegratesSpeed(ticks);
    if ticks != [] {
      LastCueIsKnown(ticks);
    } else {
      NothingKnown();
    }
    var st := Run(RESET, ticks);
    if cueTime >= LastCue(ticks) && speed >= 0.0 && cueTime >= 0.0 {
      ProductIs(cueTime - LastCue(ticks), speed);
    }
  }

  lemma NothingKnown()
    ensures Run(RESET, []) == ClockState(0.0, None, None) && LastCue([]) == 0.0
  {
  }

  lemma LastCueIsKnown(ticks: seq<Tick>)
    requires Admissible(ticks) && ticks != []
    ensures Run(RESET, ticks).lastCueTime == Some(LastCue(ticks))
  {
    hide Integral, Run;
    var init, last := ticks[..|ticks| - 1], ticks[|ticks| - 1];
    ClockIntegratesSpeed(ticks);
    RunUnfolds(ticks);
    assert Advanced(Run(RESET, init), last.cueTime, last.speed).1.Ok?;
  }

  lemma RunUnfolds(ticks: seq<Tick>)
    requires ticks != []
    ensures var n := |ticks| - 1;
      Run(RESET, ticks) == Advanced(Run(RESET, ticks[..n]), ticks[n].cueTime, ticks[n].speed).0
  {
  }
}
