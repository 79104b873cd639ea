/** Colour samples inserted at a fixed rate and moved along one-dimensional paths. */
module HistoryStream {
  import opened Util
  import opened Reals
  import opened Motion
  import opened Rgb

  type Path = Pixels
  type Timeline = real -> RGB

  const STEP_TOLERANCE: real := 0.000000000001

  // --- the three slice expressions ---------------------------------------------------------------

  /** Change the length of a path, keeping its newest end. */
  function ResizeHistory(history: Path, pixelCount: nat, direction: string): (r: Path)
    requires pixelCount > 0
    ensures |r| == pixelCount
  {
    if |history| == pixelCount then history
    else if direction == FORWARD then
      (history[..Min(pixelCount, |history|)] + Copies(BLACK, pixelCount))[..pixelCount]
    else
      var padded := Copies(BLACK, pixelCount) + history[Max(0, |history| - pixelCount)..];
      padded[|padded| - pixelCount..]
  }

  /** Insert one sample `due` times. */
  function Advance(history: Path, sample: RGB, due: nat, direction: string): (r: Path)
    ensures |r| == |history|
  {
    if due >= |history| then Copies(sample, |history|)
    else if direction == FORWARD then Copies(sample, due) + history[..|history| - due]
    else history[due..] + Copies(sample, due)
  }

  /** Insert a chronological list of samples. */
  function AdvanceSamples(history: Path, samples: Path, direction: string): Path {
    if |samples| >= |history| then (if direction == FORWARD then Reversed(samples) else samples)
    else if direction == FORWARD then Reversed(samples) + history[..|history| - |samples|]
    else history[|samples|..] + samples
  }

  // --- the reference: one insertion at a time, newest first --------------------------------------

  /** A path seen from its newest end. */
  function NewestFirst(p: Path, direction: string): (r: Path)
    ensures |r| == |p|
  {
    if direction == FORWARD then p else Reversed(p)
  }

  function Insert(p: Path, c: RGB): (r: Path)
    ensures |r| == |p|
  {
    if p == [] then [] else [c] + p[..|p| - 1]
  }

  function InsertAll(p: Path, samples: Path): (r: Path)
    ensures |r| == |p|
  {
    if samples == [] then p else Insert(InsertAll(p, samples[..|samples| - 1]), samples[|samples| - 1])
  }

  /** After many insertions, pixel i holds the i-th sample from the end, and then the old path moved along. */
  lemma {:induction false} InsertAllByIndex(p: Path, samples: Path, i: nat)
    requires i < |p|
    ensures InsertAll(p, samples)[i] == if i < |samples| then samples[|samples| - 1 - i] else p[i - |samples|]
  {
    if samples != [] && i > 0 {
      InsertAllByIndex(p, samples[..|samples| - 1], i - 1);
    }
  }

  /** Only the last `capacity` samples can be seen: leaving out the others changes nothing. */
  lemma LastSamplesSuffice(p: Path, samples: Path, skip: nat)
    requires skip <= |samples| && |p| <= |samples| - skip
    ensures InsertAll(p, samples) == InsertAll(p, samples[skip..])
  {
    hide InsertAll;
    forall i | 0 <= i < |p|
      ensures InsertAll(p, samples)[i] == InsertAll(p, samples[skip..])[i]
    {
      InsertAllByIndex(p, samples, i);
      InsertAllByIndex(p, samples[skip..], i);
    }
  }

  /** Where a pixel counted from the newest end stands in a path. */
  function Place(length: nat, direction: string, i: nat): nat
    requires i < length
  {
    if direction == FORWARD then i else length - 1 - i
  }

  lemma NewestFirstByIndex(p: Path, direction: string, i: nat)
    requires i < |p|
    ensures NewestFirst(p, direction)[i] == p[Place(|p|, direction, i)]
  {
  }

  lemma AdvanceByIndex(h: Path, sample: RGB, due: nat, direction: string, i: nat)
    requires i < |h|
    ensures Advance(h, sample, due, direction)[Place(|h|, direction, i)]
         == if i < due then sample else h[Place(|h|, direction, i - due)]
  {
  }

  lemma AdvanceSamplesByIndex(h: Path, samples: Path, direction: string, i: nat)
    requires |samples| <= |h| && i < |h|
    ensures |AdvanceSamples(h, samples, direction)| == |h|
    ensures AdvanceSamples(h, samples, direction)[Place(|h|, direction, i)]
         == if i < |samples| then samples[|samples| - 1 - i] else h[Place(|h|, direction, i - |samples|)]
  {
  }

  /** Advancing by n is n single insertions, in either direction. */
  lemma AdvanceIsRepeatedInsertion(h: Path, sample: RGB, due: nat, direction: string)
    ensures NewestFirst(Advance(h, sample, due, direction), direction)
         == InsertAll(NewestFirst(h, direction), Copies(sample, due))
  {
    hide InsertAll, Advance, NewestFirst, Place;
    var v, after := NewestFirst(h, direction), Advance(h, sample, due, direction);
    forall i | 0 <= i < |h|
      ensures NewestFirst(after, direction)[i] == InsertAll(v, Copies(sample, due))[i]
    {
      InsertAllByIndex(v, Copies(sample, due), i);
      NewestFirstByIndex(after, direction, i);
      AdvanceByIndex(h, sample, due, direction, i);
      if i >= due {
        NewestFirstByIndex(h, direction, i - due);
      }
    }
  }

  /** Inserting a list that fits the path is inserting its samples one by one, in either direction. */
  lemma AdvanceSamplesIsInsertion(h: Path, samples: Path, direction: string)
    requires |samples| <= |h|
    ensures NewestFirst(AdvanceSamples(h, samples, direction), direction)
         == InsertAll(NewestFirst(h, direction), samples)
    ensures |AdvanceSamples(h, samples, direction)| == |h|
  {
    hide InsertAll, NewestFirst, Place;
    var v, after := NewestFirst(h, direction), AdvanceSamples(h, samples, direction);
    assert |after| == |h|;
    hide AdvanceSamples;
    forall i | 0 <= i < |h|
      ensures NewestFirst(after, direction)[i] == InsertAll(v, samples)[i]
    {
      InsertAllByIndex(v, samples, i);
      NewestFirstByIndex(after, direction, i);
      AdvanceSamplesByIndex(h, samples, direction, i);
      if i >= |samples| {
        NewestFirstByIndex(h, direction, i - |samples|);
      }
    }
  }

  /** Reverse paths are mirror images of forward ones under all three operations. */
  lemma ReverseIsMirror(h: Path, sample: RGB, due: nat, samples: Path, n: nat)
    requires n > 0
    ensures Advance(Reversed(h), sample, due, REVERSE) == Reversed(Advance(h, sample, due, FORWARD))
    ensures AdvanceSamples(Reversed(h), samples, REVERSE) == Reversed(AdvanceSamples(h, samples, FORWARD))
    ensures ResizeHistory(Reversed(h), n, REVERSE) == Reversed(ResizeHistory(h, n, FORWARD))
  {
    AdvanceMirrors(h, sample, due);
    AdvanceSamplesMirrors(h, samples);
    ResizeMirrors(h, n);
  }

  lemma AdvanceMirrors(h: Path, sample: RGB, due: nat)
    ensures Advance(Reversed(h), sample, due, REVERSE) == Reversed(Advance(h, sample, due, FORWARD))
  {
  }

  lemma AdvanceSamplesMirrors(h: Path, samples: Path)
    ensures AdvanceSamples(Reversed(h), samples, REVERSE) == Reversed(AdvanceSamples(h, samples, FORWARD))
  {
  }

  lemma ResizeMirrors(h: Path, n: nat)
    requires n > 0
    ensures ResizeHistory(Reversed(h), n, REVERSE) == Reversed(ResizeHistory(h, n, FORWARD))
  {
  }

  lemma ResizePlaces(h: Path, n: nat, direction: string, i: nat)
    requires i < n
    ensures ResizeHistory(h, n, direction)[Place(n, direction, i)]
         == if i < |h| then h[Place(|h|, direction, i)] else BLACK
  {
  }

  /** Resizing keeps the newest pixels and fills with black. */
  lemma ResizeByIndex(h: Path, n: nat, direction: string, i: nat)
    requires i < n
    ensures NewestFirst(ResizeHistory(h, n, direction), direction)[i]
         == if i < |h| then NewestFirst(h, direction)[i] else BLACK
  {
    hide ResizeHistory, NewestFirst, Place;
    ResizePlaces(h, n, direction, i);
    NewestFirstByIndex(ResizeHistory(h, n, direction), direction, i);
    if i < |h| {
      NewestFirstByIndex(h, direction, i);
    }
  }

  // --- one render --------------------------------------------------------------------------------

  datatype DigitalStrip = DigitalStrip(id: string, pixels: Path)

  /** What one render is given. `gain` is the sampled scalar gain, 1 without a gain source. */
  datatype Context = Context(
    cueLocalTime: real, stepsPerSecond: real, direction: string, color: RGB, gain: real,
    timeline: Option<Timeline>, motion: Option<MotionInterval>, speed: real, strips: seq<StripDef>, intensity: real)
  {
    predicate ParametersOk() {
      && 0.001 <= stepsPerSecond <= 1000.0
      && IsDirection(direction)
      && color.InUnitCube()
    }

    function CueTime(): real { if cueLocalTime < 0.0 then 0.0 else cueLocalTime }

    function MotionNow(): Result<MotionInterval, MotionError> {
      if motion.Some? then Ok(motion.value) else ConstantSpeedInterval(CueTime(), speed)
    }

    /** No past colour can be reconstructed: the current one is inserted for every due step. */
    predicate InsertsCurrentColour() { timeline.None? || (motion.None? && speed == 0.0) }
  }

  datatype RenderError = BadParameter | BadMotion | EmptyPath

  /** `floor(motion_time * steps_per_second)`, with the source's tolerance. */
  function StepAt(motion: MotionInterval, rate: real): int {
    (Product(motion.motion, rate) + STEP_TOLERANCE).Floor
  }

  /** The cue time at which an interval crosses a step. */
  function SampleTime(motion: MotionInterval, step: int, rate: real): real
    requires rate > 0.0
  {
    if motion.MotionDelta() > 0.0 then
      motion.previousCue
      + Product(Clamp01((step as real / rate - motion.previousMotion) / motion.MotionDelta()), motion.CueDelta())
    else motion.previousCue
  }

  /** The colour that a render inserts for a step. */
  function Emit(ctx: Context, motion: MotionInterval, step: int): RGB
    requires ctx.ParametersOk()
  {
    if ctx.InsertsCurrentColour() then ctx.color.Scaled(ctx.gain)
    else ctx.timeline.value(SampleTime(motion, step, ctx.stepsPerSecond)).Scaled(ctx.gain)
  }

  /** The colours of steps `first` to `current`, oldest first. */
  function Emitted(ctx: Context, motion: MotionInterval, first: int, current: int): Path
    requires ctx.ParametersOk() && first <= current + 1
  {
    seq(current + 1 - first, i requires 0 <= i < current + 1 - first => Emit(ctx, motion, first + i))
  }

  /** Rebuild the colours of the due steps that the path can still hold. */
  method TimelineSamples(ctx: Context, motion: MotionInterval, lastStep: int, currentStep: int, capacity: nat)
    returns (samples: Path)
    requires ctx.ParametersOk() && !ctx.InsertsCurrentColour() && lastStep < currentStep
    ensures samples == DueSamples(ctx, motion, lastStep, currentStep, capacity)
  {
    var firstStep := Max(lastStep + 1, currentStep - capacity + 1);
    samples := [];
    for step := firstStep to currentStep + 1
      invariant samples == Emitted(ctx, motion, firstStep, step - 1)
    {
      var cueTime := motion.previousCue;
      if motion.MotionDelta() > 0.0 {
        var boundaryMotion := step as real / ctx.stepsPerSecond;
        var fraction := (boundaryMotion - motion.previousMotion) / motion.MotionDelta();
        fraction := Clamp01(fraction);
        cueTime := motion.previousCue + Product(fraction, motion.CueDelta());
      }
      var colour := ctx.timeline.value(cueTime);
      samples := samples + [colour.Scaled(ctx.gain)];
      EmittedGrows(ctx, motion, firstStep, step);
    }
  }

  lemma EmittedGrows(ctx: Context, motion: MotionInterval, first: int, step: int)
    requires ctx.ParametersOk() && first <= step
    ensures Emitted(ctx, motion, first, step) == Emitted(ctx, motion, first, step - 1) + [Emit(ctx, motion, step)]
  {
    hide Emit;
  }

  function DueSamples(ctx: Context, motion: MotionInterval, lastStep: int, currentStep: int, capacity: nat): Path
    requires ctx.ParametersOk() && lastStep < currentStep
  {
    Emitted(ctx, motion, Max(lastStep + 1, currentStep - capacity + 1), currentStep)
  }

  /** What one render does to one path and its step counter. */
  function RenderPath(history: Path, lastStep: int, ctx: Context, motion: MotionInterval, pixelCount: nat): (Path, int)
    requires ctx.ParametersOk() && pixelCount > 0
  {
    var resized := ResizeHistory(history, pixelCount, ctx.direction);
    var currentStep := StepAt(motion, ctx.stepsPerSecond);
    if currentStep <= lastStep then (resized, lastStep)
    else if ctx.InsertsCurrentColour() then
      (Advance(resized, ctx.color.Scaled(ctx.gain), currentStep - lastStep, ctx.direction), currentStep)
    else
      (AdvanceSamples(resized, DueSamples(ctx, motion, lastStep, currentStep, pixelCount), ctx.direction), currentStep)
  }

  /** Work bounded by the path is enough: a render inserts, one by one, the colour of every step that fell due. */
  lemma RenderInsertsEveryDueStep(history: Path, lastStep: int, ctx: Context, motion: MotionInterval, pixelCount: nat)
    requires ctx.ParametersOk() && pixelCount > 0
    ensures var (after, step) := RenderPath(history, lastStep, ctx, motion, pixelCount);
      var now := StepAt(motion, ctx.stepsPerSecond);
      && step == Max(lastStep, now)
      && NewestFirst(after, ctx.direction)
         == InsertAll(NewestFirst(ResizeHistory(history, pixelCount, ctx.direction), ctx.direction),
                      Emitted(ctx, motion, lastStep + 1, Max(lastStep, now)))
  {
    hide InsertAll, ResizeHistory, Advance, AdvanceSamples, NewestFirst, StepAt, Emit;
    var now, d := StepAt(motion, ctx.stepsPerSecond), ctx.direction;
    var resized := ResizeHistory(history, pixelCount, d);
    var all := Emitted(ctx, motion, lastStep + 1, Max(lastStep, now));
    if now <= lastStep {
      assert all == [];
      InsertNothing(NewestFirst(resized, d));
    } else if ctx.InsertsCurrentColour() {
      var colour := ctx.color.Scaled(ctx.gain);
      EmitsCurrentColour(ctx, motion, lastStep + 1, now);
      AdvanceIsRepeatedInsertion(resized, colour, now - lastStep, d);
    } else {
      var due := DueSamples(ctx, motion, lastStep, now, pixelCount);
      AdvanceSamplesIsInsertion(resized, due, d);
      var skip := Max(lastStep + 1, now - pixelCount + 1) - (lastStep + 1);
      assert all[skip..] == due;
      if skip == 0 {
        assert all == due;
      } else {
        LastSamplesSuffice(NewestFirst(resized, d), all, skip);
      }
    }
  }

  lemma InsertNothing(p: Path)
    ensures InsertAll(p, []) == p
  {
  }

  lemma EmitsCurrentColour(ctx: Context, motion: MotionInterval, first: int, last: int)
    requires ctx.ParametersOk() && ctx.InsertsCurrentColour() && first <= last + 1
    ensures Emitted(ctx, motion, first, last) == Copies(ctx.color.Scaled(ctx.gain), last + 1 - first)
  {
    forall i | 0 <= i < last + 1 - first
      ensures Emitted(ctx, motion, first, last)[i] == ctx.color.Scaled(ctx.gain)
    {
      assert Emit(ctx, motion, first + i) == ctx.color.Scaled(ctx.gain);
    }
  }

  /** `apply_common_intensity`: an intensity of 1 leaves the strips alone. */
  function WithIntensity(strips: seq<DigitalStrip>, intensity: real): (r: seq<DigitalStrip>)
    ensures |r| == |strips|
  {
    if intensity == 1.0 then strips
    else
      seq(|strips|, i requires 0 <= i < |strips| =>
        DigitalStrip(strips[i].id, Dimmed(strips[i].pixels, intensity)))
  }

  function Dimmed(pixels: Path, intensity: real): (r: Path)
    ensures |r| == |pixels|
  {
    seq(|pixels|, i requires 0 <= i < |pixels| =>
      RGB(Dim(pixels[i].r, intensity), Dim(pixels[i].g, intensity), Dim(pixels[i].b, intensity)))
  }

  // --- the effect --------------------------------------------------------------------------------

  /** The effect's fields as a value. */
  datatype State = State(histories: map<string, Path>, lastSteps: map<string, int>, lastCueTime: Option<real>) {
    function HistoryOf(id: string): Path { if id in histories then histories[id] else [] }

    function StepOf(id: string): int { if id in lastSteps then lastSteps[id] else -1 }
  }

  const CLEARED: State := State(map[], map[], None)

  function Render(st: State, strip: StripDef, ctx: Context, motion: MotionInterval): (State, DigitalStrip)
    requires ctx.ParametersOk() && strip.pixelCount > 0
  {
    var (after, step) := RenderPath(st.HistoryOf(strip.id), st.StepOf(strip.id), ctx, motion, strip.pixelCount);
    (State(st.histories[strip.id := after],
           if step > st.StepOf(strip.id) then st.lastSteps[strip.id := step] else st.lastSteps, st.lastCueTime),
     DigitalStrip(strip.id, after))
  }

  /** The strips of one render in order; an empty path stops it, and the strips before it stay rendered. */
  function RenderAll(st: State, strips: seq<StripDef>, ctx: Context, motion: MotionInterval)
    : (State, Result<seq<DigitalStrip>, RenderError>)
    requires ctx.ParametersOk()
  {
    if strips == [] then (st, Ok([]))
    else
      var (before, r) := RenderAll(st, strips[..|strips| - 1], ctx, motion);
      var strip := strips[|strips| - 1];
      if r.Err? then (before, r)
      else if strip.pixelCount <= 0 then (before, Err(EmptyPath))
      else
        var (after, drawn) := Render(before, strip, ctx, motion);
        (after, Ok(r.value + [drawn]))
  }

  function Ids(strips: seq<StripDef>): set<string> { set i | 0 <= i < |strips| :: strips[i].id }

  function Processed(st: State, ctx: Context): (State, Result<seq<DigitalStrip>, RenderError>) {
    if !ctx.ParametersOk() then (st, Err(BadParameter))
    else
      var cueTime := ctx.CueTime();
      var start := if st.lastCueTime.Some? && cueTime < st.lastCueTime.value then CLEARED else st;
      var motion := ctx.MotionNow();
      if motion.Err? then (start, Err(BadMotion))
      else
        var (after, r) := RenderAll(start, ctx.strips, ctx, motion.value);
        if r.Err? then (after, r)
        else
          var stale := after.histories.Keys - Ids(ctx.strips);
          (State(after.histories - stale, after.lastSteps - stale, Some(cueTime)), r)
  }

  class HistoryStreamEffect {
    var histories: map<string, Path>
    var lastSteps: map<string, int>
    var lastCueTime: Option<real>

    ghost function Now(): State
      reads this
    {
      State(histories, lastSteps, lastCueTime)
    }

    constructor ()
      ensures Now() == CLEARED
    {
      histories, lastSteps, lastCueTime := map[], map[], None;
    }

    method Reset()
      modifies this
      ensures Now() == CLEARED
    {
      histories, lastSteps, lastCueTime := map[], map[], None;
    }

    /** The loop body of the source: one strip of one render. */
    method RenderStrip(strip: StripDef, ctx: Context, motion: MotionInterval) returns (drawn: DigitalStrip)
      requires ctx.ParametersOk() && strip.pixelCount > 0
      modifies this
      ensures (Now(), drawn) == Render(old(Now()), strip, ctx, motion)
    {
      hide ResizeHistory, Advance, AdvanceSamples, StepAt, Emit, Emitted;
      var currentStep := StepAt(motion, ctx.stepsPerSecond);
      var history := ResizeHistory(
        if strip.id in histories then histories[strip.id] else [], strip.pixelCount, ctx.direction);
      var lastStep := if strip.id in lastSteps then lastSteps[strip.id] else -1;
      var dueSteps := Max(0, currentStep - lastStep);
      if dueSteps > 0 {
        if ctx.InsertsCurrentColour() {
          history := Advance(history, ctx.color.Scaled(ctx.gain), dueSteps, ctx.direction);
        } else {
          var samples := TimelineSamples(ctx, motion, lastStep, currentStep, strip.pixelCount);
          history := AdvanceSamples(history, samples, ctx.direction);
        }
        lastSteps := lastSteps[strip.id := currentStep];
      }
      histories := histories[strip.id := history];
      drawn := DigitalStrip(strip.id, history);
    }

    method Process(ctx: Context) returns (r: Result<seq<DigitalStrip>, RenderError>)
      modifies this
      ensures var (after, drawn) := Processed(old(Now()), ctx);
        && Now() == after
        && r == if drawn.Ok? then Ok(WithIntensity(drawn.value, ctx.intensity)) else drawn
    {
      hide Render, Ids;
      if !ctx.ParametersOk() {
        return Err(BadParameter);
      }
      var cueTime := ctx.CueTime();
      if lastCueTime.Some? && cueTime < lastCueTime.value {
        Reset();
      }
      ghost var start := Now();
      var motion := ctx.MotionNow();
      if motion.Err? {
        return Err(BadMotion);
      }
      var strips := [];
      for i := 0 to |ctx.strips|
        invariant (Now(), Ok(strips)) == RenderAll(start, ctx.strips[..i], ctx, motion.value)
      {
        assert ctx.strips[..i + 1][..i] == ctx.strips[..i];
        if ctx.strips[i].pixelCount <= 0 {
          RenderStops(start, ctx.strips, i + 1, ctx, motion.value);
          return Err(EmptyPath);
        }
        var drawn := RenderStrip(ctx.strips[i], ctx, motion.value);
        strips := strips + [drawn];
      }
      assert ctx.strips[..|ctx.strips|] == ctx.strips;
      var stale := histories.Keys - Ids(ctx.strips);
      histories, lastSteps, lastCueTime := histories - stale, lastSteps - stale, Some(cueTime);
      r := Ok(WithIntensity(strips, ctx.intensity));
    }
  }

  lemma {:induction false} RenderStops(st: State, strips: seq<StripDef>, n: nat, ctx: Context, motion: MotionInterval)
    requires ctx.ParametersOk() && n <= |strips|
    requires RenderAll(st, strips[..n], ctx, motion).1.Err?
    ensures RenderAll(st, strips, ctx, motion) == RenderAll(st, strips[..n], ctx, motion)
    decreases |strips|
  {
    hide Render;
    if n == |strips| {
      assert strips[..n] == strips;
    } else {
      var init := strips[..|strips| - 1];
      assert init[..n] == strips[..n];
      RenderStops(st, init, n, ctx, motion);
    }
  }

  // --- one render in plain numbers ---------------------------------------------------------------

  /** A path runs from its first pixel in the forward direction, and from its last in reverse. */
  lemma NewestFirstIs(p: Path, direction: string, i: nat)
    requires i < |p| && IsDirection(direction)
    ensures NewestFirst(p, direction)[i] == if direction == "forward" then p[i] else p[|p| - 1 - i]
  {
  }

  /** The step of a render: motion times rate, rounded down, with the tolerance. */
  lemma StepIs(motion: MotionInterval, rate: real)
    ensures (StepAt(motion, rate) as real) <= motion.motion * rate + 0.000000000001
                                           < (StepAt(motion, rate) as real) + 1.0
  {
  }

  /** The time at which a step is read lies as far into the interval of cue time as the step lies into that of motion,
      and not outside it. */
  predicate IsSampleTime(t: real, motion: MotionInterval, step: int, rate: real)
    requires rate > 0.0
  {
    var at, m0, m1, c0, c1 := step as real / rate, motion.previousMotion, motion.motion, motion.previousCue, motion.cue;
    if m1 <= m0 || at <= m0 then t == c0
    else if at >= m1 then t == c1
    else (t - c0) * (m1 - m0) == (at - m0) * (c1 - c0)
  }

  lemma SampleTimeIs(motion: MotionInterval, step: int, rate: real)
    requires rate > 0.0
    ensures IsSampleTime(SampleTime(motion, step, rate), motion, step, rate)
  {
    hide Product;
    var at, m0, m1, c0, c1 := step as real / rate, motion.previousMotion, motion.motion, motion.previousCue, motion.cue;
    if m1 > m0 {
      var u := (at - m0) / (m1 - m0);
      QuotientIs(at - m0, m1 - m0, c1 - c0);
      ProductIs(Clamp01(u), c1 - c0);
      ProductLaws(c1 - c0, 0.0, 0.0);
      Extremes(c1 - c0);
    }
  }

  lemma Extremes(x: real)
    ensures Product(0.0, x) == 0.0 && Product(1.0, x) == x
  {
  }

  lemma QuotientIs(x: real, span: real, y: real)
    requires span > 0.0
    ensures var u := x / span;
      && (x <= 0.0 ==> u <= 0.0) && (x >= span ==> u >= 1.0) && (0.0 < x < span ==> 0.0 <= u <= 1.0)
      && Product(u, y) * span == x * y
  {
    hide Product;
    var u := x / span;
    assert u * span == x;
    QuotientOrder(u, x, span);
    ProductIs(u, y);
    Regroup(u, y, span);
  }

  lemma QuotientOrder(u: real, x: real, span: real)
    requires span > 0.0 && u * span == x
    ensures x <= 0.0 ==> u <= 0.0
    ensures x >= span ==> u >= 1.0
    ensures 0.0 < x < span ==> 0.0 <= u <= 1.0
  {
    ScaleIsMonotone(u, 0.0, span);
    ScaleIsMonotone(0.0, u, span);
    ScaleIsMonotone(u, 1.0, span);
    ScaleIsMonotone(1.0, u, span);
  }

  lemma ScaleIsMonotone(a: real, b: real, span: real)
    requires span > 0.0
    ensures a > b ==> a * span > b * span
  {
  }

  lemma Regroup(u: real, y: real, span: real)
    ensures (u * y) * span == (u * span) * y
  {
  }

  /** The colour of a due step: the current colour when there is no timeline, or when no motion clock runs and the
      speed is zero; otherwise the timeline at the time the step is read. Either is scaled by the gain. */
  lemma EmitIs(ctx: Context, motion: MotionInterval, step: int) returns (c: RGB, t: real)
    requires ctx.ParametersOk()
    ensures Emit(ctx, motion, step) == RGB(c.r * ctx.gain, c.g * ctx.gain, c.b * ctx.gain)
    ensures ctx.timeline.None? || (ctx.motion.None? && ctx.speed == 0.0) ==> c == ctx.color
    ensures ctx.timeline.Some? && (ctx.motion.Some? || ctx.speed != 0.0) ==>
      c == ctx.timeline.value(t) && IsSampleTime(t, motion, step, ctx.stepsPerSecond)
  {
    hide SampleTime, IsSampleTime;
    t := SampleTime(motion, step, ctx.stepsPerSecond);
    SampleTimeIs(motion, step, ctx.stepsPerSecond);
    c := if ctx.InsertsCurrentColour() then ctx.color else ctx.timeline.value(t);
  }

  /** A channel at an intensity: their product, kept between 0 and 1. */
  predicate IsDimmed(x: real, channel: real, intensity: real) {
    if channel * intensity <= 0.0 then x == 0.0
    else if channel * intensity >= 1.0 then x == 1.0
    else x == channel * intensity
  }

  /** What a render draws: full intensity leaves the history as it is, any other dims each channel. */
  lemma IntensityIs(strips: seq<DigitalStrip>, intensity: real, k: nat, i: nat)
    requires k < |strips| && i < |strips[k].pixels|
    ensures var drawn, p := WithIntensity(strips, intensity)[k], strips[k].pixels[i];
      && drawn.id == strips[k].id && |drawn.pixels| == |strips[k].pixels|
      && if intensity == 1.0 then drawn.pixels[i] == p
         else && IsDimmed(drawn.pixels[i].r, p.r, intensity) && IsDimmed(drawn.pixels[i].g, p.g, intensity)
              && IsDimmed(drawn.pixels[i].b, p.b, intensity)
  {
    hide Dim, IsDimmed;
    var p := strips[k].pixels[i];
    DimIs(p.r, intensity);
    DimIs(p.g, intensity);
    DimIs(p.b, intensity);
  }

  lemma DimIs(channel: real, intensity: real)
    ensures IsDimmed(Dim(channel, intensity), channel, intensity)
  {
  }

  lemma {:induction false} RenderAllFails(st: State, strips: seq<StripDef>, ctx: Context, motion: MotionInterval)
    requires ctx.ParametersOk()
    ensures RenderAll(st, strips, ctx, motion).1.Err? <==> exists s <- strips :: s.pixelCount <= 0
  {
    hide Render;
    if strips != [] {
      var init, last := strips[..|strips| - 1], strips[|strips| - 1];
      assert forall s :: s in strips <==> s in init || s == last;
      RenderAllFails(st, init, ctx, motion);
    }
  }

  lemma {:induction false} AbsentIsUntouched(
      st: State, strips: seq<StripDef>, ctx: Context, motion: MotionInterval, id: string)
    requires ctx.ParametersOk() && forall s <- strips :: s.id != id
    ensures var after := RenderAll(st, strips, ctx, motion).0;
      && (id in after.histories <==> id in st.histories) && (id in after.lastSteps <==> id in st.lastSteps)
  {
    hide RenderPath;
    if strips != [] {
      assert forall s :: s in strips[..|strips| - 1] ==> s in strips;
      AbsentIsUntouched(st, strips[..|strips| - 1], ctx, motion, id);
    }
  }

  /** A render that returns forgets every strip that it does not draw. */
  lemma AbsentIsForgotten(st: State, ctx: Context, id: string)
    requires st.lastSteps.Keys <= st.histories.Keys
    requires Processed(st, ctx).1.Ok? && forall s <- ctx.strips :: s.id != id
    ensures Processed(st, ctx).0.HistoryOf(id) == [] && Processed(st, ctx).0.StepOf(id) == -1
  {
    hide RenderAll;
    var start := if st.lastCueTime.Some? && ctx.CueTime() < st.lastCueTime.value then CLEARED else st;
    AbsentIsUntouched(start, ctx.strips, ctx, ctx.MotionNow().value, id);
    assert id !in Ids(ctx.strips);
  }

  /** When a render raises, and what it remembers of the time otherwise. */
  lemma RendersIff(st: State, ctx: Context)
    ensures Processed(st, ctx).1.Ok? <==>
      && 0.001 <= ctx.stepsPerSecond <= 1000.0 && (ctx.direction == "forward" || ctx.direction == "reverse")
      && 0.0 <= ctx.color.r <= 1.0 && 0.0 <= ctx.color.g <= 1.0 && 0.0 <= ctx.color.b <= 1.0
      && (ctx.motion.None? ==> ctx.speed >= 0.0) && forall s <- ctx.strips :: s.pixelCount >= 1
    ensures Processed(st, ctx).1.Ok? ==>
      Processed(st, ctx).0.lastCueTime == Some(if ctx.cueLocalTime < 0.0 then 0.0 else ctx.cueLocalTime)
  {
    hide RenderAll, Ids;
    if ctx.ParametersOk() && ctx.MotionNow().Ok? {
      RenderAllFails(st, ctx.strips, ctx, ctx.MotionNow().value);
      RenderAllFails(CLEARED, ctx.strips, ctx, ctx.MotionNow().value);
    }
  }
}
