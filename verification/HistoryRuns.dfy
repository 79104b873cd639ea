/** Whole runs of the history effect: however the run is cut into renders, a path is a function of what was rendered
    when. */
module HistoryRuns {
  import opened Util
  import opened Reals
  import opened Motion
  import opened Rgb
  import opened HistoryStream

  /** The render is in order and draws path `id`, of `n` pixels, once. */
  predicate Draws(ctx: Context, id: string, n: nat, direction: string, at: nat) {
    && ctx.ParametersOk() && ctx.direction == direction && ctx.MotionNow().Ok?
    && (forall i :: 0 <= i < |ctx.strips| ==> ctx.strips[i].pixelCount > 0)
    && at < |ctx.strips| && ctx.strips[at] == StripDef(id, n)
    && (forall i :: 0 <= i < |ctx.strips| && i != at ==> ctx.strips[i].id != id)
  }

  function Start(st: State, ctx: Context): State {
    if st.lastCueTime.Some? && ctx.CueTime() < st.lastCueTime.value then CLEARED else st
  }

  lemma {:induction false} OtherStripsDoNotMatter(
      st: State, ctx: Context, motion: MotionInterval, k: nat, id: string, n: nat, direction: string, at: nat)
    requires Draws(ctx, id, n, direction, at) && k <= |ctx.strips|
    ensures var (after, r) := RenderAll(st, ctx.strips[..k], ctx, motion);
      && r.Ok? && |r.value| == k && after.lastCueTime == st.lastCueTime
      && (if k <= at then after.HistoryOf(id) == st.HistoryOf(id) && after.StepOf(id) == st.StepOf(id)
          else && (after.HistoryOf(id), after.StepOf(id))
                  == RenderPath(st.HistoryOf(id), st.StepOf(id), ctx, motion, n)
               && id in after.histories && r.value[at] == DigitalStrip(id, after.HistoryOf(id)))
  {
    hide RenderPath, Render;
    if k > 0 {
      OtherStripsDoNotMatter(st, ctx, motion, k - 1, id, n, direction, at);
      var s := ctx.strips[..k];
      assert s[..k - 1] == ctx.strips[..k - 1] && s[k - 1] == ctx.strips[k - 1];
      OneStrip(RenderAll(st, s[..k - 1], ctx, motion).0, s[k - 1], ctx, motion, id);
    }
  }

  /** Rendering one strip changes the path of that strip and of no other. */
  lemma OneStrip(st: State, strip: StripDef, ctx: Context, motion: MotionInterval, id: string)
    requires ctx.ParametersOk() && strip.pixelCount > 0
    ensures var (after, drawn) := Render(st, strip, ctx, motion);
      && after.lastCueTime == st.lastCueTime && (id in st.histories ==> id in after.histories)
      && (if strip.id == id then
            && id in after.histories && drawn == DigitalStrip(id, after.HistoryOf(id))
            && (after.HistoryOf(id), after.StepOf(id))
               == RenderPath(st.HistoryOf(id), st.StepOf(id), ctx, motion, strip.pixelCount)
          else after.HistoryOf(id) == st.HistoryOf(id) && after.StepOf(id) == st.StepOf(id))
  {
    hide RenderPath;
    StepNeverFalls(st, strip, ctx, motion);
  }

  lemma StepNeverFalls(st: State, strip: StripDef, ctx: Context, motion: MotionInterval)
    requires ctx.ParametersOk() && strip.pixelCount > 0
    ensures RenderPath(st.HistoryOf(strip.id), st.StepOf(strip.id), ctx, motion, strip.pixelCount).1
         >= st.StepOf(strip.id)
  {
    hide StepAt;
  }

  /** One call does to a path what `RenderPath` says, whatever other strips are drawn, after clearing on a backward
      seek. */
  lemma ProcessedPath(st: State, ctx: Context, id: string, n: nat, direction: string, at: nat)
    requires Draws(ctx, id, n, direction, at)
    ensures var (after, r) := Processed(st, ctx);
      && r.Ok? && after.lastCueTime == Some(ctx.CueTime())
      && (after.HistoryOf(id), after.StepOf(id))
         == RenderPath(Start(st, ctx).HistoryOf(id), Start(st, ctx).StepOf(id), ctx, ctx.MotionNow().value, n)
      && |r.value| == |ctx.strips| && r.value[at] == DigitalStrip(id, after.HistoryOf(id))
  {
    hide RenderPath, RenderAll;
    OtherStripsDoNotMatter(Start(st, ctx), ctx, ctx.MotionNow().value, |ctx.strips|, id, n, direction, at);
    assert ctx.strips[..|ctx.strips|] == ctx.strips;
    assert id in Ids(ctx.strips);
  }

  /** A backward seek forgets everything: the call behaves as on a new effect. */
  lemma SeekRestarts(st: State, ctx: Context)
    requires ctx.ParametersOk() && st.lastCueTime.Some? && ctx.CueTime() < st.lastCueTime.value
    ensures Processed(st, ctx) == Processed(CLEARED, ctx)
  {
    hide RenderAll;
  }

  // --- runs --------------------------------------------------------------------------------------

  /** A render together with the position of the path among its strips. */
  datatype Shot = Shot(ctx: Context, at: nat)

  function Run(shots: seq<Shot>): State {
    if shots == [] then CLEARED
    else Processed(Run(shots[..|shots| - 1]), shots[|shots| - 1].ctx).0
  }

  lemma {:induction false} StepsHaveHistories(st: State, strips: seq<StripDef>, ctx: Context, motion: MotionInterval)
    requires ctx.ParametersOk() && st.lastSteps.Keys <= st.histories.Keys
    ensures var after := RenderAll(st, strips, ctx, motion).0; after.lastSteps.Keys <= after.histories.Keys
  {
    hide RenderPath;
    if strips != [] {
      StepsHaveHistories(st, strips[..|strips| - 1], ctx, motion);
    }
  }

  lemma {:induction false} RunStepsHaveHistories(shots: seq<Shot>)
    ensures Run(shots).lastSteps.Keys <= Run(shots).histories.Keys
  {
    hide RenderAll;
    if shots != [] {
      var init, ctx := shots[..|shots| - 1], shots[|shots| - 1].ctx;
      RunStepsHaveHistories(init);
      if ctx.ParametersOk() && ctx.MotionNow().Ok? {
        StepsHaveHistories(Start(Run(init), ctx), ctx.strips, ctx, ctx.MotionNow().value);
      }
    }
  }

  /** After any run, a strip that the last render does not draw is as if it had never been drawn, once that render
      returns: it starts afresh when it comes back. */
  lemma DroppedStripStartsAfresh(shots: seq<Shot>, ctx: Context, id: string)
    requires Processed(Run(shots), ctx).1.Ok? && forall s <- ctx.strips :: s.id != id
    ensures Processed(Run(shots), ctx).0.HistoryOf(id) == [] && Processed(Run(shots), ctx).0.StepOf(id) == -1
  {
    hide Processed, Run;
    RunStepsHaveHistories(shots);
    AbsentIsForgotten(Run(shots), ctx, id);
  }

  /** Every render draws the path, and cue time never goes back. */
  predicate Steady(shots: seq<Shot>, id: string, n: nat, direction: string) {
    shots == [] ||
    var init, last := shots[..|shots| - 1], shots[|shots| - 1];
    && Steady(init, id, n, direction)
    && Draws(last.ctx, id, n, direction, last.at)
    && (init != [] ==> init[|init| - 1].ctx.CueTime() <= last.ctx.CueTime())
  }

  /** The fixed step a render stands at. */
  function StepOf(ctx: Context): int
    requires ctx.MotionNow().Ok?
  {
    StepAt(ctx.MotionNow().value, ctx.stepsPerSecond)
  }

  predicate AllInOrder(shots: seq<Shot>) {
    forall k :: 0 <= k < |shots| ==> shots[k].ctx.ParametersOk() && shots[k].ctx.MotionNow().Ok?
  }

  /** The furthest step reached, -1 before any render. */
  function Furthest(shots: seq<Shot>): (m: int)
    requires AllInOrder(shots)
    ensures m >= -1
    ensures forall k :: 0 <= k < |shots| ==> StepOf(shots[k].ctx) <= m
  {
    if shots == [] then -1 else Max(Furthest(shots[..|shots| - 1]), StepOf(shots[|shots| - 1].ctx))
  }

  /** The first render that reached a step. */
  function FirstReaching(shots: seq<Shot>, step: int): (k: nat)
    requires AllInOrder(shots) && 0 <= step <= Furthest(shots)
    ensures k < |shots| && StepOf(shots[k].ctx) >= step
    ensures forall j :: 0 <= j < k ==> StepOf(shots[j].ctx) < step
  {
    var init := shots[..|shots| - 1];
    if step <= Furthest(init) then FirstReaching(init, step) else |init|
  }

  /** The colour that stands for a step: what the first render that reached it inserted, or black before step 0. */
  function ColourOf(shots: seq<Shot>, step: int): RGB
    requires AllInOrder(shots)
  {
    if 0 <= step <= Furthest(shots) then
      var ctx := shots[FirstReaching(shots, step)].ctx;
      Emit(ctx, ctx.MotionNow().value, step)
    else BLACK
  }

  lemma {:induction false} SteadyIsInOrder(shots: seq<Shot>, id: string, n: nat, direction: string)
    requires Steady(shots, id, n, direction)
    ensures AllInOrder(shots)
  {
    if shots != [] {
      SteadyIsInOrder(shots[..|shots| - 1], id, n, direction);
    }
  }

  /** After any steady run, pixel i of the path, counted from its newest end, is the colour of the i-th step before
      the furthest one reached; speeds, gains, colours, timelines, rates and the other strips may change at every
      render. */
  lemma {:induction false} PathAfterRun(shots: seq<Shot>, id: string, n: nat, direction: string)
    requires n > 0 && Steady(shots, id, n, direction)
    ensures AllInOrder(shots) && Run(shots).StepOf(id) == Furthest(shots)
    ensures shots != [] ==> Run(shots).lastCueTime == Some(shots[|shots| - 1].ctx.CueTime())
    ensures shots == [] ==> Run(shots).HistoryOf(id) == [] && Run(shots).lastCueTime.None?
    ensures var path := NewestFirst(Run(shots).HistoryOf(id), direction);
      && (shots != [] ==> |path| == n)
      && forall i :: 0 <= i < |path| ==> path[i] == ColourOf(shots, Furthest(shots) - i)
  {
    hide Processed, RenderPath, NewestFirst, ResizeHistory, InsertAll, Emit, StepAt, ColourOf;
    SteadyIsInOrder(shots, id, n, direction);
    if shots == [] {
      EmptyPaths(direction);
    } else {
      var init, last := shots[..|shots| - 1], shots[|shots| - 1];
      var ctx, motion := last.ctx, last.ctx.MotionNow().value;
      PathAfterRun(init, id, n, direction);
      var st := Run(init);
      ProcessedPath(st, ctx, id, n, direction, last.at);
      assert Start(st, ctx) == st;
      RenderInsertsEveryDueStep(st.HistoryOf(id), st.StepOf(id), ctx, motion, n);
      var before := NewestFirst(ResizeHistory(st.HistoryOf(id), n, direction), direction);
      var due := Emitted(ctx, motion, Furthest(init) + 1, Furthest(shots));
      forall i | 0 <= i < n
        ensures InsertAll(before, due)[i] == ColourOf(shots, Furthest(shots) - i)
      {
        NextPixel(shots, st.HistoryOf(id), n, direction, i);
      }
    }
  }

  lemma NextPixel(shots: seq<Shot>, history: Path, n: nat, direction: string, i: nat)
    requires shots != [] && AllInOrder(shots) && i < n
    requires var init := shots[..|shots| - 1];
      && (init != [] ==> |history| == n) && (init == [] ==> history == [])
      && forall j :: 0 <= j < |history| ==> NewestFirst(history, direction)[j] == ColourOf(init, Furthest(init) - j)
    ensures var init, ctx := shots[..|shots| - 1], shots[|shots| - 1].ctx;
      InsertAll(NewestFirst(ResizeHistory(history, n, direction), direction),
                Emitted(ctx, ctx.MotionNow().value, Furthest(init) + 1, Furthest(shots)))[i]
      == ColourOf(shots, Furthest(shots) - i)
  {
    hide NewestFirst, ResizeHistory, InsertAll, Emit, StepAt, ColourOf;
    var init, ctx := shots[..|shots| - 1], shots[|shots| - 1].ctx;
    var before := NewestFirst(ResizeHistory(history, n, direction), direction);
    var due := Emitted(ctx, ctx.MotionNow().value, Furthest(init) + 1, Furthest(shots));
    InsertAllByIndex(before, due, i);
    if i >= |due| {
      ResizeByIndex(history, n, direction, i - |due|);
      if init == [] {
        BlackBeforeFirst(Furthest(shots) - i);
      }
    }
    ColourOfGrows(shots, Furthest(shots) - i);
  }

  lemma EmptyPaths(direction: string)
    ensures NewestFirst([], direction) == []
  {
  }

  lemma BlackBeforeFirst(step: int)
    ensures ColourOf([], step) == BLACK
  {
  }

  lemma ColourOfGrows(shots: seq<Shot>, step: int)
    requires shots != [] && AllInOrder(shots)
    ensures var init, ctx := shots[..|shots| - 1], shots[|shots| - 1].ctx;
      ColourOf(shots, step)
      == if step <= Furthest(init) then ColourOf(init, step)
         else if step <= Furthest(shots) then Emit(ctx, ctx.MotionNow().value, step)
         else BLACK
  {
    hide Emit, StepAt;
    assert Furthest(shots[..|shots| - 1]) >= -1;
  }

  /** In pixels: the newest stands first in the forward direction and last in reverse. */
  lemma PixelsAfterRun(shots: seq<Shot>, id: string, n: nat, direction: string, i: nat)
    requires n > 0 && shots != [] && Steady(shots, id, n, direction) && i < n
    ensures AllInOrder(shots) && |Run(shots).HistoryOf(id)| == n
    ensures Run(shots).HistoryOf(id)[if direction == "forward" then i else n - 1 - i]
         == ColourOf(shots, Furthest(shots) - i)
  {
    hide Run, ColourOf, Furthest;
    PathAfterRun(shots, id, n, direction);
    assert IsDirection(direction) by { SteadyDirection(shots, id, n, direction); }
    NewestFirstIs(Run(shots).HistoryOf(id), direction, i);
  }

  lemma SteadyDirection(shots: seq<Shot>, id: string, n: nat, direction: string)
    requires shots != [] && Steady(shots, id, n, direction)
    ensures IsDirection(direction)
  {
  }

  // --- the closed form at constant speed ---------------------------------------------------------

  /** Every interval of the run lies on the line motion = speed * cue and starts no later than the last one ended
      (as a clock's do), or at cue start (as those built without a clock do). */
  predicate ConstantSpeed(shots: seq<Shot>, speed: real)
    requires AllInOrder(shots)
  {
    forall k :: 0 <= k < |shots| ==>
      var i := shots[k].ctx.MotionNow().value;
      && OnLine(i, speed)
      && (i.previousCue == 0.0 || ReachedBefore(shots, k, i.previousCue))
  }

  predicate ReachedBefore(shots: seq<Shot>, k: nat, cue: real)
    requires AllInOrder(shots)
  {
    exists j :: 0 <= j < k && j < |shots| && cue <= shots[j].ctx.MotionNow().value.cue
  }

  /** The ideal cue time of a step. */
  function StepTime(step: int, rate: real, speed: real): real
    requires rate > 0.0 && speed > 0.0
  {
    step as real / rate / speed
  }

  lemma DivideAcross(x: real, y: real, z: real)
    requires z > 0.0
    ensures x <= Product(y, z) <==> x / z <= y
    ensures x < Product(y, z) <==> x / z < y
    ensures Product(x / z, z) == x
  {
  }

  /** On the line, an interval that reaches past its start crosses a step at the step's ideal time, or at its own end
      if the tolerance counted the step a moment early. */
  lemma CrossingTime(i: MotionInterval, step: int, rate: real, speed: real)
    requires rate > 0.0 && speed > 0.0 && OnLine(i, speed) && i.previousCue < i.cue
    requires i.previousCue <= StepTime(step, rate, speed)
    ensures SampleTime(i, step, rate)
         == if StepTime(step, rate, speed) <= i.cue then StepTime(step, rate, speed) else i.cue
  {
    hide Product;
    var t, a, b := StepTime(step, rate, speed), i.previousCue, i.cue;
    var x := step as real / rate;
    assert x == Product(t, speed) by { DivideAcross(x, t, speed); }
    ProductOverGap(a, b, speed);
    ProductOverGap(a, t, speed);
    assert i.MotionDelta() == Product(b - a, speed) && x - i.previousMotion == Product(t - a, speed);
    Cancel(t - a, b - a, speed);
    Fraction(t - a, b - a);
  }

  lemma Cancel(x: real, y: real, z: real)
    requires y > 0.0 && z > 0.0
    ensures Product(y, z) > 0.0 && Product(x, z) / Product(y, z) == x / y
  {
    assert x / y * (y * z) == x * z;
  }

  lemma Fraction(x: real, y: real)
    requires x >= 0.0 && y > 0.0
    ensures x / y >= 0.0 && (x / y <= 1.0 <==> x <= y) && Product(x / y, y) == x && Product(1.0, y) == y
  {
  }

  /** A render of timeline `f` at one rate and speed, with no gain source. */
  ghost predicate Follows(ctx: Context, f: Timeline, rate: real, speed: real) {
    ctx.timeline == Some(f) && ctx.stepsPerSecond == rate && ctx.speed == speed && ctx.gain == 1.0
  }

  /** No render stands within the tolerance below a step boundary. */
  predicate ToleranceUnused(ctx: Context)
    requires ctx.MotionNow().Ok?
  {
    StepOf(ctx) == Product(ctx.MotionNow().value.motion, ctx.stepsPerSecond).Floor
  }

  lemma FloorReaches(x: real, step: int)
    ensures x.Floor >= step <==> x >= step as real
  {
  }

  lemma EndsBeforeStep(e: MotionInterval, step: int, rate: real, speed: real)
    requires rate > 0.0 && speed > 0.0 && OnLine(e, speed) && StepAt(e, rate) < step
    ensures e.cue < StepTime(step, rate, speed)
  {
    hide Product;
    FloorReaches(Product(e.motion, rate) + STEP_TOLERANCE, step);
    DivideAcross(step as real, e.motion, rate);
    DivideAcross(step as real / rate, e.cue, speed);
  }

  lemma StepGrowsWithCue(i: MotionInterval, e: MotionInterval, rate: real, speed: real)
    requires rate > 0.0 && speed > 0.0 && OnLine(i, speed) && OnLine(e, speed) && i.cue <= e.cue
    ensures StepAt(i, rate) <= StepAt(e, rate)
  {
    hide Product;
    ProductMonotone(i.cue, e.cue, speed);
    ProductMonotone(i.motion, e.motion, rate);
  }

  lemma AtCueStart(i: MotionInterval, step: int, rate: real, speed: real)
    requires i.cue == 0.0 && OnLine(i, speed) && rate > 0.0
    ensures StepAt(i, rate) == 0
  {
  }

  /** The first render to reach a step reaches it in its own interval. */
  lemma FirstReachingCrosses(shots: seq<Shot>, step: int, rate: real, speed: real)
    requires AllInOrder(shots) && 0 <= step <= Furthest(shots) && rate > 0.0 && speed > 0.0
    requires ConstantSpeed(shots, speed) && forall k :: 0 <= k < |shots| ==> shots[k].ctx.stepsPerSecond == rate
    ensures var i := shots[FirstReaching(shots, step)].ctx.MotionNow().value;
      && i.previousCue <= StepTime(step, rate, speed)
      && (i.previousCue == i.cue ==> step == 0 && i.cue == 0.0)
  {
    hide Product, Furthest, StepAt, StepTime;
    var k := FirstReaching(shots, step);
    var i := shots[k].ctx.MotionNow().value;
    StepTimeNonNegative(step, rate, speed);
    if i.previousCue == 0.0 {
      if i.cue == 0.0 {
        AtCueStart(i, step, rate, speed);
      }
    } else {
      var j :| 0 <= j < k && j < |shots| && i.previousCue <= shots[j].ctx.MotionNow().value.cue;
      var e := shots[j].ctx.MotionNow().value;
      assert StepOf(shots[j].ctx) < step <= StepOf(shots[k].ctx);
      EndsBeforeStep(e, step, rate, speed);
      if i.cue <= e.cue {
        StepGrowsWithCue(i, e, rate, speed);
      }
    }
  }

  lemma StepTimeNonNegative(step: int, rate: real, speed: real)
    requires 0 <= step && rate > 0.0 && speed > 0.0
    ensures 0.0 <= StepTime(step, rate, speed) && StepTime(0, rate, speed) == 0.0
  {
  }

  /** The cue time at which a step's colour is read: its ideal time, never later, and early by no more than the
      tolerance; exactly the ideal time when the render that reached it is not inside the tolerance. */
  lemma ReadingTime(shots: seq<Shot>, step: int, rate: real, speed: real)
    requires AllInOrder(shots) && 0 <= step <= Furthest(shots) && rate > 0.0 && speed > 0.0
    requires ConstantSpeed(shots, speed) && forall k :: 0 <= k < |shots| ==> shots[k].ctx.stepsPerSecond == rate
    ensures var ctx := shots[FirstReaching(shots, step)].ctx;
      var read, ideal := SampleTime(ctx.MotionNow().value, step, rate), StepTime(step, rate, speed);
      && ideal - STEP_TOLERANCE / rate / speed <= read <= ideal
      && (ToleranceUnused(ctx) ==> read == ideal)
  {
    hide Product, Furthest;
    var ctx := shots[FirstReaching(shots, step)].ctx;
    var i, ideal := ctx.MotionNow().value, StepTime(step, rate, speed);
    FirstReachingCrosses(shots, step, rate, speed);
    StepTimeNonNegative(step, rate, speed);
    StepTimeNonNegative(0, rate, speed);
    if i.previousCue < i.cue {
      CrossingTime(i, step, rate, speed);
      FloorReaches(Product(i.motion, rate) + STEP_TOLERANCE, step);
      FloorReaches(Product(i.motion, rate), step);
      DivideAcross(step as real, i.motion, rate);
      DivideAcross(step as real / rate, i.cue, speed);
      DivideAcross(step as real - STEP_TOLERANCE, i.motion, rate);
      DivideAcross((step as real - STEP_TOLERANCE) / rate, i.cue, speed);
      SplitQuotient(step as real, STEP_TOLERANCE, rate, speed);
      ToleranceQuotient(rate, speed);
    } else {
      ProductOverGap(0.0, 0.0, speed);
      ToleranceQuotient(rate, speed);
    }
  }

  lemma SplitQuotient(x: real, y: real, r: real, s: real)
    requires r > 0.0 && s > 0.0
    ensures (x - y) / r / s == x / r / s - y / r / s
  {
    assert (x - y) / r == x / r - y / r;
  }

  lemma ToleranceQuotient(rate: real, speed: real)
    requires rate > 0.0 && speed > 0.0
    ensures STEP_TOLERANCE / rate / speed >= 0.0
  {
    assert STEP_TOLERANCE / rate >= 0.0;
  }

  /** The cue time at which a step was read: that of the render that first reached it. */
  function ReadAt(shots: seq<Shot>, step: int): real
    requires AllInOrder(shots) && 0 <= step <= Furthest(shots)
  {
    var ctx := shots[FirstReaching(shots, step)].ctx;
    SampleTime(ctx.MotionNow().value, step, ctx.stepsPerSecond)
  }

  /** The closed form. After any run at one rate and positive speed, pixel i, counted from the newest end, shows the
      timeline at the time at which step `current - i` was read, or black before step 0; that time is the step's ideal
      time, never later, and early by no more than the tolerance. */
  lemma ClosedForm(shots: seq<Shot>, id: string, n: nat, direction: string, f: Timeline, rate: real, speed: real)
    requires n > 0 && shots != [] && Steady(shots, id, n, direction) && AllInOrder(shots) && speed > 0.0
    requires ConstantSpeed(shots, speed)
    requires forall k :: 0 <= k < |shots| ==> Follows(shots[k].ctx, f, rate, speed)
    ensures rate > 0.0
    ensures var path := NewestFirst(Run(shots).HistoryOf(id), direction);
      var current := Furthest(shots);
      && |path| == n && Run(shots).StepOf(id) == current
      && (forall i :: 0 <= i < n && i <= current ==>
            path[i] == f(ReadAt(shots, current - i)) && ReadAsIdeal(shots, current - i, rate, speed))
      && forall i :: 0 <= i < n && i > current ==> path[i] == BLACK
  {
    hide Product, Furthest, Steady, SampleTime, NewestFirst, ReadAsIdeal, ReadAt, ColourOf, ConstantSpeed;
    assert shots[0].ctx.ParametersOk() && shots[0].ctx.stepsPerSecond == rate;
    PathAfterRun(shots, id, n, direction);
    var current := Furthest(shots);
    var path := NewestFirst(Run(shots).HistoryOf(id), direction);
    assert |path| == n;
    forall i | 0 <= i < n
      ensures
        if i <= current then
          path[i] == f(ReadAt(shots, current - i)) && ReadAsIdeal(shots, current - i, rate, speed)
        else path[i] == BLACK
    {
      assert path[i] == ColourOf(shots, current - i);
      if i <= current {
        StepIsRead(shots, current - i, f, rate, speed);
      } else {
        BeforeTheRun(shots, current - i);
      }
    }
  }

  lemma BeforeTheRun(shots: seq<Shot>, step: int)
    requires AllInOrder(shots) && step < 0
    ensures ColourOf(shots, step) == BLACK
  {
  }

  /** A step was read at its ideal time, or early by no more than the tolerance. */
  predicate ReadAsIdeal(shots: seq<Shot>, step: int, rate: real, speed: real)
    requires AllInOrder(shots) && 0 <= step <= Furthest(shots) && rate > 0.0 && speed > 0.0
  {
    var ideal := StepTime(step, rate, speed);
    && ideal - STEP_TOLERANCE / rate / speed <= ReadAt(shots, step) <= ideal
    && (ToleranceUnused(shots[FirstReaching(shots, step)].ctx) ==> ReadAt(shots, step) == ideal)
  }

  lemma StepIsRead(shots: seq<Shot>, step: int, f: Timeline, rate: real, speed: real)
    requires AllInOrder(shots) && ConstantSpeed(shots, speed) && speed > 0.0 && rate > 0.0
    requires forall k :: 0 <= k < |shots| ==> Follows(shots[k].ctx, f, rate, speed)
    requires 0 <= step <= Furthest(shots)
    ensures ColourOf(shots, step) == f(ReadAt(shots, step)) && ReadAsIdeal(shots, step, rate, speed)
  {
    hide Product, Furthest, SampleTime;
    ReadingTime(shots, step, rate, speed);
    assert Follows(shots[FirstReaching(shots, step)].ctx, f, rate, speed);
    ScaledByOne(f(ReadAt(shots, step)));
  }

  /** When no render stands within the tolerance below a step boundary, the times are the ideal ones. */
  lemma ClosedFormExact(shots: seq<Shot>, id: string, n: nat, direction: string, f: Timeline, rate: real, speed: real)
    requires n > 0 && shots != [] && Steady(shots, id, n, direction) && AllInOrder(shots) && speed > 0.0
    requires ConstantSpeed(shots, speed)
    requires forall k :: 0 <= k < |shots| ==> Follows(shots[k].ctx, f, rate, speed) && ToleranceUnused(shots[k].ctx)
    ensures rate > 0.0
    ensures var path := NewestFirst(Run(shots).HistoryOf(id), direction);
      var current := Furthest(shots);
      && |path| == n && Run(shots).StepOf(id) == current
      && forall i :: 0 <= i < n ==> path[i] == if i <= current then f(StepTime(current - i, rate, speed)) else BLACK
  {
    hide Furthest, Steady, NewestFirst, ReadAt, ToleranceUnused, Run;
    ClosedForm(shots, id, n, direction, f, rate, speed);
  }

  lemma ScaledByOne(c: RGB)
    ensures c.Scaled(1.0) == c
  {
  }

  // --- where constant-speed runs come from -------------------------------------------------------

  /** The clock of a cue after its renders, all at one speed. */
  function ClockAfter(shots: seq<Shot>, speed: real): (st: ClockState)
    ensures st.Consistent()
  {
    if shots == [] then RESET
    else Advanced(ClockAfter(shots[..|shots| - 1], speed), shots[|shots| - 1].ctx.CueTime(), speed).0
  }

  /** Every render carries the interval its clock hands out, or builds its own. */
  predicate Driven(shots: seq<Shot>, speed: real) {
    shots == [] ||
    var init, ctx := shots[..|shots| - 1], shots[|shots| - 1].ctx;
    && Driven(init, speed)
    && ctx.ParametersOk()
    && (init != [] ==> init[|init| - 1].ctx.CueTime() <= ctx.CueTime())
    && (if ctx.motion.Some? then Advanced(ClockAfter(init, speed), ctx.CueTime(), speed).1 == Ok(ctx.motion.value)
        else ctx.speed == speed)
  }

  /** Runs driven by a clock at one speed, or by no clock, or by both in turn, are the runs of the closed form. */
  lemma {:induction false} DrivenRunsAreConstantSpeed(shots: seq<Shot>, speed: real)
    requires Driven(shots, speed) && 0.0 <= speed
    ensures AllInOrder(shots) && ConstantSpeed(shots, speed)
    ensures var st := ClockAfter(shots, speed);
      && (st.current.Some? ==> OnLine(st.current.value, speed))
      && PreviousCue(st) == (if shots == [] then 0.0 else shots[|shots| - 1].ctx.CueTime())
      && (st.current.Some? ==>
            (st.current.value.previousCue == 0.0 || ReachedBefore(shots, |shots| - 1, st.current.value.previousCue)))
    ensures forall k :: 0 <= k < |shots| ==> shots[k].ctx.MotionNow().value.cue == shots[k].ctx.CueTime()
  {
    hide OnLine, Product, Advanced, PreviousCue, Context.MotionNow, ReachedBefore;
    if shots != [] {
      var m := |shots| - 1;
      var init, ctx := shots[..m], shots[m].ctx;
      DrivenRunsAreConstantSpeed(init, speed);
      NextMotion(ClockAfter(init, speed), ctx, speed);
      LiftAll(shots, m);
    } else {
      NewClock();
    }
  }

  lemma NewClock()
    ensures PreviousCue(RESET) == 0.0
  {
  }

  /** The interval of one more render, from the clock or without it, and the clock after it. */
  lemma NextMotion(st: ClockState, ctx: Context, speed: real)
    requires st.Consistent() && 0.0 <= speed && ctx.ParametersOk() && PreviousCue(st) <= ctx.CueTime()
    requires st.current.Some? ==> OnLine(st.current.value, speed)
    requires
      if ctx.motion.Some? then Advanced(st, ctx.CueTime(), speed).1 == Ok(ctx.motion.value) else ctx.speed == speed
    ensures var (after, r) := Advanced(st, ctx.CueTime(), speed);
      && r.Ok? && after.current == Some(r.value) && OnLine(r.value, speed) && PreviousCue(after) == ctx.CueTime()
      && (r.value.previousCue == PreviousCue(st) || Some(r.value) == st.current)
      && ctx.MotionNow().Ok? && OnLine(ctx.MotionNow().value, speed) && ctx.MotionNow().value.cue == ctx.CueTime()
      && (ctx.MotionNow().value.previousCue == 0.0 || ctx.MotionNow() == r)
  {
    hide OnLine, Product;
    ConstantSpeedStaysOnLine(st, ctx.CueTime(), speed);
  }

  /** What was reached in the runs before is reached in the longer run, and the last render's own time after it. */
  lemma LiftAll(shots: seq<Shot>, m: nat)
    requires shots != [] && m == |shots| - 1 && AllInOrder(shots[..m]) && AllInOrder(shots)
    ensures forall k: nat, cue :: k < m && ReachedBefore(shots[..m], k, cue) ==> ReachedBefore(shots, k, cue)
    ensures forall cue :: m > 0 && ReachedBefore(shots[..m], m - 1, cue) ==> ReachedBefore(shots, m, cue)
    ensures m > 0 ==> ReachedBefore(shots, m, shots[m - 1].ctx.MotionNow().value.cue)
  {
    forall k: nat, cue | k < m && ReachedBefore(shots[..m], k, cue)
      ensures ReachedBefore(shots, k, cue) && ReachedBefore(shots, k + 1, cue)
    {
      Lifted(shots, k);
    }
    if m > 0 {
      ReachedByLast(shots, m);
    }
  }

  lemma Lifted(shots: seq<Shot>, k: nat)
    requires k < |shots| - 1 && AllInOrder(shots[..|shots| - 1]) && AllInOrder(shots)
    ensures forall cue :: ReachedBefore(shots[..|shots| - 1], k, cue) ==> ReachedBefore(shots, k, cue)
    ensures forall cue :: ReachedBefore(shots, k, cue) ==> ReachedBefore(shots, k + 1, cue)
  {
    var init := shots[..|shots| - 1];
    forall cue | ReachedBefore(init, k, cue)
      ensures ReachedBefore(shots, k, cue)
    {
      var j :| 0 <= j < k && j < |init| && cue <= init[j].ctx.MotionNow().value.cue;
      assert shots[j] == init[j];
    }
  }

  lemma ReachedByLast(shots: seq<Shot>, m: nat)
    requires 0 < m < |shots| && AllInOrder(shots)
    ensures ReachedBefore(shots, m, shots[m - 1].ctx.MotionNow().value.cue)
  {
  }
}
