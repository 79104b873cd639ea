/** The 60 Hz heat simulation: state kept across renders against a pure replay of its ticks. */
module HeatFire {
  import opened Util
  import opened Reals
  import opened Rgb

  const STEP_HZ: real := 60.0
  const TICK_TOLERANCE: real := 0.000000001

  /** A draw of `random()`. */
  type Unit = x: real | 0.0 <= x < 1.0 witness 0.0

  /** The random source of one strip and tick: its draws in order, and its `randrange`. Both are arbitrary. */
  datatype Noise = Noise(draw: nat -> Unit, pick: nat -> nat)

  type NoiseOf = (string, nat) -> Noise

  datatype Params = Params(cooling: real, sparkRate: real, sparkStrength: real, diffusion: real, sparkZone: int) {
    /** The authored limits. */
    predicate Valid() {
      && 0.0 <= cooling <= 60.0 && 0.0 <= sparkRate <= 60.0
      && 0.0 <= sparkStrength <= 1.0 && 0.0 <= diffusion <= 1.0 && 1 <= sparkZone <= 10000
    }
  }

  type Heat = seq<real>

  /** Heat lost by one cell in one tick, and heat added by a spark. */
  function Loss(draw: Unit, p: Params): real { draw * p.cooling / 60.0 }

  function Boost(draw: Unit, p: Params): real { p.sparkStrength * (0.5 + 0.5 * draw) }

  // --- one tick ----------------------------------------------------------------------------------

  function Cooled(heat: Heat, noise: Noise, p: Params): (r: Heat)
    ensures |r| == |heat|
  {
    seq(|heat|, i requires 0 <= i < |heat| => RMax(0.0, heat[i] - Loss(noise.draw(i), p)))
  }

  function Mixed(own: real, below: real, diffusion: real): real {
    RMin(1.0, own * (1.0 - diffusion) + below * diffusion)
  }

  function DiffusedCell(heat: Heat, i: nat, p: Params): real
    requires i < |heat|
  {
    if i == 0 then heat[0] else Mixed(heat[i], heat[i - 1], p.diffusion)
  }

  function Diffused(heat: Heat, p: Params): (r: Heat)
    ensures |r| == |heat|
  {
    seq(|heat|, i requires 0 <= i < |heat| => DiffusedCell(heat, i, p))
  }

  predicate HasSpark(length: nat, noise: Noise, p: Params) {
    length > 0 && noise.draw(length) < p.sparkRate / 60.0
  }

  function SparkPosition(length: nat, noise: Noise, p: Params): (at: nat)
    requires length > 0 && p.sparkZone > 0
    ensures at < length && at < p.sparkZone
  {
    var zone := Min(length, p.sparkZone);
    noise.pick(zone) % zone
  }

  function Sparked(heat: Heat, noise: Noise, p: Params): (r: Heat)
    requires p.sparkZone > 0
    ensures |r| == |heat|
  {
    if HasSpark(|heat|, noise, p) then
      var at := SparkPosition(|heat|, noise, p);
      heat[at := RMin(1.0, heat[at] + Boost(noise.draw(|heat| + 1), p))]
    else heat
  }

  /** Every cell cools by its own draw, then takes heat from the cell below as it was, then one spark may fall. */
  function Tick(heat: Heat, noise: Noise, p: Params): (r: Heat)
    requires p.sparkZone > 0
    ensures |r| == |heat|
  {
    Sparked(Diffused(Cooled(heat, noise, p), p), noise, p)
  }

  // --- one tick, cell by cell --------------------------------------------------------------------

  predicate InUnit(heat: Heat) { forall i :: 0 <= i < |heat| ==> 0.0 <= heat[i] <= 1.0 }

  /** Each cell loses its draw times a sixtieth of the cooling, and not more than it has. */
  predicate IsCooled(before: Heat, after: Heat, noise: Noise, p: Params) {
    && |after| == |before|
    && forall i :: 0 <= i < |before| ==>
         if before[i] * 60.0 >= noise.draw(i) * p.cooling
         then (before[i] - after[i]) * 60.0 == noise.draw(i) * p.cooling
         else after[i] == 0.0
  }

  /** The first cell keeps its heat; every other one moves towards the cell below it, as it was, by the diffusion. */
  predicate IsDiffused(before: Heat, after: Heat, p: Params) {
    && |after| == |before| && (before != [] ==> after[0] == before[0])
    && forall i :: 0 < i < |before| ==> after[i] - before[i] == p.diffusion * (before[i - 1] - before[i])
  }

  /** When the draw after the cells' own is below a sixtieth of the rate, one cell of the zone gains between half the
      strength and the strength, as the next draw says, up to 1. */
  predicate IsSparked(before: Heat, after: Heat, noise: Noise, p: Params) {
    var n := |before|;
    && |after| == n
    && if n > 0 && p.sparkZone > 0 && noise.draw(n) * 60.0 < p.sparkRate then
         var zone := if n < p.sparkZone then n else p.sparkZone;
         var at, gain := noise.pick(zone) % zone, p.sparkStrength * (1.0 + noise.draw(n + 1)) / 2.0;
         && (if before[at] + gain <= 1.0 then after[at] == before[at] + gain else after[at] == 1.0)
         && forall i :: 0 <= i < n && i != at ==> after[i] == before[i]
       else after == before
  }

  /** Cooled, then diffused, then sparked. */
  ghost predicate IsTick(before: Heat, after: Heat, noise: Noise, p: Params) {
    exists cooled: Heat, diffused: Heat ::
      IsCooled(before, cooled, noise, p) && IsDiffused(cooled, diffused, p) && IsSparked(diffused, after, noise, p)
  }

  lemma CooledIs(heat: Heat, noise: Noise, p: Params)
    ensures IsCooled(heat, Cooled(heat, noise, p), noise, p)
  {
  }

  lemma DiffusedIs(heat: Heat, p: Params)
    requires InUnit(heat) && 0.0 <= p.diffusion <= 1.0
    ensures IsDiffused(heat, Diffused(heat, p), p)
  {
    hide Mixed;
    forall i | 0 < i < |heat|
      ensures Diffused(heat, p)[i] - heat[i] == p.diffusion * (heat[i - 1] - heat[i])
    {
      MixedIs(heat[i], heat[i - 1], p.diffusion);
    }
  }

  lemma MixedIs(own: real, below: real, diffusion: real)
    requires 0.0 <= own <= 1.0 && 0.0 <= below <= 1.0 && 0.0 <= diffusion <= 1.0
    ensures Mixed(own, below, diffusion) - own == diffusion * (below - own)
  {
    ConvexMix(own, below, diffusion, 1.0);
    var x, keep := own * (1.0 - diffusion) + below * diffusion, 1.0 - diffusion;
    Scaled(1.0 - own, keep);
    Scaled(1.0 - below, diffusion);
    assert 1.0 - x == (1.0 - own) * keep + (1.0 - below) * diffusion;
    assert x - own == diffusion * (below - own);
  }

  lemma SparkedIs(heat: Heat, noise: Noise, p: Params)
    requires p.sparkZone > 0
    ensures IsSparked(heat, Sparked(heat, noise, p), noise, p)
  {
    var n := |heat|;
    assert noise.draw(n) < p.sparkRate / 60.0 <==> noise.draw(n) * 60.0 < p.sparkRate;
    BoostIs(noise.draw(n + 1), p);
  }

  lemma BoostIs(draw: Unit, p: Params)
    ensures Boost(draw, p) == p.sparkStrength * (1.0 + draw) / 2.0
  {
  }

  /** What one tick does to cells in [0, 1]. */
  lemma TickIs(heat: Heat, noise: Noise, p: Params)
    requires p.Valid() && InUnit(heat)
    ensures IsTick(heat, Tick(heat, noise, p), noise, p)
  {
    hide Cooled, Diffused, Sparked, IsCooled, IsDiffused, IsSparked;
    CooledIs(heat, noise, p);
    forall i | 0 <= i < |heat|
      ensures 0.0 <= Cooled(heat, noise, p)[i] <= heat[i]
    {
      CoolingOnlyCools(heat, noise, p, i);
    }
    DiffusedIs(Cooled(heat, noise, p), p);
    SparkedIs(Diffused(Cooled(heat, noise, p), p), noise, p);
  }

  /** The source's in-place update of the heat list, its three phases one after the other. */
  method Step(heat: array<real>, noise: Noise, p: Params)
    requires p.sparkZone > 0
    modifies heat
    ensures heat[..] == Tick(old(heat[..]), noise, p)
    ensures p.Valid() && InUnit(old(heat[..])) ==> IsTick(old(heat[..]), heat[..], noise, p)
  {
    hide Cooled, Diffused, Sparked, IsTick;
    if p.Valid() && InUnit(heat[..]) {
      TickIs(heat[..], noise, p);
    }
    Cool(heat, noise, p);
    Diffuse(heat, p);
    Spark(heat, noise, p);
  }

  method Cool(heat: array<real>, noise: Noise, p: Params)
    modifies heat
    ensures heat[..] == Cooled(old(heat[..]), noise, p) && IsCooled(old(heat[..]), heat[..], noise, p)
  {
    hide RMax, Loss, IsCooled;
    CooledIs(heat[..], noise, p);
    for index := 0 to heat.Length
      invariant forall j :: 0 <= j < index ==> heat[j] == RMax(0.0, old(heat[j]) - Loss(noise.draw(j), p))
      invariant forall j :: index <= j < heat.Length ==> heat[j] == old(heat[j])
    {
      heat[index] := RMax(0.0, heat[index] - Loss(noise.draw(index), p));
    }
  }

  method Diffuse(heat: array<real>, p: Params)
    modifies heat
    ensures heat[..] == Diffused(old(heat[..]), p)
    ensures InUnit(old(heat[..])) && 0.0 <= p.diffusion <= 1.0 ==> IsDiffused(old(heat[..]), heat[..], p)
  {
    hide DiffusedCell, IsDiffused;
    var previous := heat[..];
    if InUnit(previous) && 0.0 <= p.diffusion <= 1.0 {
      DiffusedIs(previous, p);
    }
    if previous != [] {
      CellByCell(previous, 0, p);
    }
    for index := Min(1, heat.Length) to heat.Length
      invariant forall j: nat :: j < index ==> heat[j] == DiffusedCell(previous, j, p)
      invariant heat[index..] == previous[index..]
    {
      CellByCell(previous, index, p);
      heat[index] := Mixed(previous[index], previous[index - 1], p.diffusion);
    }
  }

  lemma CellByCell(heat: Heat, i: nat, p: Params)
    requires i < |heat|
    ensures DiffusedCell(heat, i, p) == if i == 0 then heat[0] else Mixed(heat[i], heat[i - 1], p.diffusion)
  {
  }

  method Spark(heat: array<real>, noise: Noise, p: Params)
    requires p.sparkZone > 0
    modifies heat
    ensures heat[..] == Sparked(old(heat[..]), noise, p) && IsSparked(old(heat[..]), heat[..], noise, p)
  {
    hide RMin, Boost, IsSparked;
    SparkedIs(heat[..], noise, p);
    var n := heat.Length;
    if n > 0 && noise.draw(n) < p.sparkRate / 60.0 {
      var position := SparkPosition(n, noise, p);
      heat[position] := RMin(1.0, heat[position] + Boost(noise.draw(n + 1), p));
    }
  }

  // --- physics -----------------------------------------------------------------------------------

  predicate AtMost(heat: Heat, bound: real) { forall i :: 0 <= i < |heat| ==> heat[i] <= bound }

  lemma ConvexMix(own: real, below: real, diffusion: real, bound: real)
    requires 0.0 <= own <= bound && 0.0 <= below <= bound && 0.0 <= diffusion <= 1.0
    ensures 0.0 <= Mixed(own, below, diffusion) <= bound && Mixed(own, below, diffusion) <= 1.0
  {
    var keep := 1.0 - diffusion;
    Scaled(own, keep);
    Scaled(below, diffusion);
    Scaled(bound - own, keep);
    Scaled(bound - below, diffusion);
    assert (bound - own) * keep + (bound - below) * diffusion == bound - (own * keep + below * diffusion);
  }

  lemma Scaled(x: real, y: real)
    requires 0.0 <= x && 0.0 <= y
    ensures 0.0 <= x * y
  {
  }

  lemma LossIsNonNegative(draw: Unit, p: Params)
    requires 0.0 <= p.cooling
    ensures 0.0 <= Loss(draw, p)
  {
    assert draw * p.cooling >= 0.0;
  }

  lemma CoolingOnlyCools(heat: Heat, noise: Noise, p: Params, i: nat)
    requires p.Valid() && InUnit(heat) && i < |heat|
    ensures 0.0 <= Cooled(heat, noise, p)[i] <= heat[i]
  {
    hide Loss;
    LossIsNonNegative(noise.draw(i), p);
  }

  lemma DiffusionStaysBelow(heat: Heat, p: Params, bound: real, i: nat)
    requires p.Valid() && InUnit(heat) && AtMost(heat, bound) && i < |heat|
    ensures 0.0 <= Diffused(heat, p)[i] <= bound && Diffused(heat, p)[i] <= 1.0
  {
    hide Mixed;
    if i > 0 {
      ConvexMix(heat[i], heat[i - 1], p.diffusion, bound);
    }
  }

  /** Cooling and diffusion keep heat in [0, 1] and never raise the maximum. */
  lemma WithoutSparkMaximumNeverRises(heat: Heat, noise: Noise, p: Params, bound: real)
    requires p.Valid() && InUnit(heat) && AtMost(heat, bound)
    ensures var r := Diffused(Cooled(heat, noise, p), p); InUnit(r) && AtMost(r, bound)
    ensures !HasSpark(|heat|, noise, p) ==> AtMost(Tick(heat, noise, p), bound)
  {
    hide Cooled, Diffused;
    var cooled := Cooled(heat, noise, p);
    forall i | 0 <= i < |heat|
      ensures 0.0 <= cooled[i] <= heat[i]
    {
      CoolingOnlyCools(heat, noise, p, i);
    }
    var r := Diffused(cooled, p);
    forall i | 0 <= i < |heat|
      ensures 0.0 <= r[i] <= 1.0 && r[i] <= bound
    {
      DiffusionStaysBelow(cooled, p, bound, i);
    }
  }

  /** A spark heats exactly one cell, inside the spark zone, and not beyond 1. */
  lemma SparkHeatsOneCell(heat: Heat, noise: Noise, p: Params)
    requires p.Valid() && InUnit(heat) && HasSpark(|heat|, noise, p)
    ensures var r, at := Sparked(heat, noise, p), SparkPosition(|heat|, noise, p);
      && at < p.sparkZone && heat[at] <= r[at] <= 1.0
      && r[at] <= heat[at] + p.sparkStrength
      && forall i :: 0 <= i < |heat| && i != at ==> r[i] == heat[i]
  {
    hide Boost;
    BoostIsBounded(noise.draw(|heat| + 1), p);
  }

  lemma BoostIsBounded(draw: Unit, p: Params)
    requires 0.0 <= p.sparkStrength
    ensures 0.0 <= Boost(draw, p) <= p.sparkStrength
  {
    var factor := 0.5 + 0.5 * draw;
    Scaled(p.sparkStrength, factor);
    Scaled(p.sparkStrength, 1.0 - factor);
    assert p.sparkStrength * factor + p.sparkStrength * (1.0 - factor) == p.sparkStrength;
  }

  lemma TickStaysInUnit(heat: Heat, noise: Noise, p: Params)
    requires p.Valid() && InUnit(heat)
    ensures InUnit(Tick(heat, noise, p))
  {
    hide Cooled, Diffused, HasSpark, Boost;
    WithoutSparkMaximumNeverRises(heat, noise, p, 1.0);
    var r := Diffused(Cooled(heat, noise, p), p);
    assert InUnit(r);
    assert Tick(heat, noise, p) == Sparked(r, noise, p);
    if HasSpark(|heat|, noise, p) {
      SparkHeatsOneCell(r, noise, p);
      var after, at := Sparked(r, noise, p), SparkPosition(|r|, noise, p);
      forall i | 0 <= i < |heat|
        ensures 0.0 <= after[i] <= 1.0
      {
        assert i == at || after[i] == r[i];
      }
    }
  }

  // --- the reference: replay from cold -----------------------------------------------------------

  function Cold(count: nat): Heat { seq(count, i => 0.0) }

  /** Ticks 0 to `ticks - 1` of one strip of one length, from cold. */
  function Replay(noise: NoiseOf, id: string, count: nat, p: Params, ticks: nat): (r: Heat)
    requires p.sparkZone > 0
    ensures |r| == count
  {
    if ticks == 0 then Cold(count)
    else Tick(Replay(noise, id, count, p, ticks - 1), noise(id, ticks - 1), p)
  }

  lemma {:induction false} ReplayStaysInUnit(noise: NoiseOf, id: string, count: nat, p: Params, ticks: nat)
    requires p.Valid()
    ensures InUnit(Replay(noise, id, count, p, ticks))
  {
    hide Tick;
    if ticks > 0 {
      ReplayStaysInUnit(noise, id, count, p, ticks - 1);
      TickStaysInUnit(Replay(noise, id, count, p, ticks - 1), noise(id, ticks - 1), p);
    }
  }

  /** A replay starts with every cell at zero, and goes on tick by tick with the strip's own noise. */
  lemma ReplayIs(noise: NoiseOf, id: string, count: nat, p: Params, ticks: nat)
    requires p.Valid()
    ensures |Replay(noise, id, count, p, 0)| == count && forall i :: 0 <= i < count ==>
      Replay(noise, id, count, p, 0)[i] == 0.0
    ensures IsTick(Replay(noise, id, count, p, ticks), Replay(noise, id, count, p, ticks + 1), noise(id, ticks), p)
  {
    hide Tick, IsTick;
    ReplayStaysInUnit(noise, id, count, p, ticks);
    TickIs(Replay(noise, id, count, p, ticks), noise(id, ticks), p);
  }

  // --- the effect --------------------------------------------------------------------------------

  datatype StripHeat = StripHeat(id: string, heat: Heat)

  /** What one render is given; `motionTime` is the cue's integrated motion time. */
  datatype Context = Context(
    motionTime: real, params: Params, strips: seq<StripDef>, colour: RGB, intensity: real)
  {
    predicate Usable() { 0.0 <= motionTime && params.sparkZone > 0 }

    function TargetTick(): int { (motionTime * STEP_HZ + TICK_TOLERANCE).Floor }
  }

  datatype LitStrip = LitStrip(id: string, pixels: Pixels)

  /** Heat as light: the colour, scaled by heat and intensity up to full glow. */
  function Lit(ctx: Context, strips: seq<StripHeat>): (r: seq<LitStrip>)
    ensures |r| == |strips|
  {
    seq(|strips|, i requires 0 <= i < |strips| => LitStrip(strips[i].id, Glow(ctx, strips[i].heat)))
  }

  function Glow(ctx: Context, heat: Heat): (r: Pixels)
    ensures |r| == |heat|
  {
    seq(|heat|, i requires 0 <= i < |heat| => ctx.colour.Scaled(RMin(1.0, Product(heat[i], ctx.intensity))))
  }

  /** A render at motion time t has done the ticks that are due: floor(60 t), with the tolerance. */
  lemma TargetTickIs(ctx: Context)
    ensures (ctx.TargetTick() as real) <= ctx.motionTime * 60.0 + 0.000000001 < (ctx.TargetTick() as real) + 1.0
  {
  }

  /** Each pixel is the colour times the cell's heat at the render's intensity, up to the full colour. */
  lemma LitIs(ctx: Context, strips: seq<StripHeat>, k: nat, i: nat)
    requires k < |strips| && i < |strips[k].heat|
    ensures var heat, lit := strips[k].heat[i], Lit(ctx, strips)[k];
      && lit.id == strips[k].id && |lit.pixels| == |strips[k].heat|
      && if heat * ctx.intensity >= 1.0 then lit.pixels[i] == ctx.colour
         else lit.pixels[i].r == ctx.colour.r * (heat * ctx.intensity)
              && lit.pixels[i].g == ctx.colour.g * (heat * ctx.intensity)
              && lit.pixels[i].b == ctx.colour.b * (heat * ctx.intensity)
  {
    hide RGB.Scaled, Product;
    var scaled := Product(strips[k].heat[i], ctx.intensity);
    ScaledByIs(ctx.colour, RMin(1.0, scaled));
    ProductIs(strips[k].heat[i], ctx.intensity);
  }

  lemma ScaledByIs(c: RGB, k: real)
    ensures c.Scaled(k) == RGB(c.r * k, c.g * k, c.b * k) && c.Scaled(1.0) == c
  {
  }

  /** The effect's fields as a value. */
  datatype State = State(heat: map<string, Heat>, ticks: map<string, int>, lastTarget: int) {
    /** Every strip with heat has a tick count. */
    predicate Settled() { forall id :: id in heat ==> id in ticks && ticks[id] >= 0 }
  }

  const CLEARED: State := State(map[], map[], 0)

  /** Ticks `first` to `end - 1` on top of what is there. */
  function CatchUp(heat: Heat, noise: NoiseOf, id: string, p: Params, first: nat, end: nat): (r: Heat)
    requires p.sparkZone > 0
    ensures |r| == |heat|
    decreases end
  {
    if end <= first then heat else Tick(CatchUp(heat, noise, id, p, first, end - 1), noise(id, end - 1), p)
  }

  /** The heat a strip starts this render from, and the tick it stands at. */
  function Current(st: State, strip: StripDef): (Heat, nat) {
    if strip.id in st.heat && |st.heat[strip.id]| == strip.pixelCount
    then (st.heat[strip.id], if strip.id in st.ticks then Max(0, st.ticks[strip.id]) else 0)
    else (Cold(Max(0, strip.pixelCount)), 0)
  }

  function Render(st: State, strip: StripDef, noise: NoiseOf, p: Params, target: nat): State
    requires p.sparkZone > 0
  {
    var (heat, tick) := Current(st, strip);
    st.(heat := st.heat[strip.id := CatchUp(heat, noise, strip.id, p, tick, target)],
        ticks := st.ticks[strip.id := target])
  }

  function RenderAll(st: State, strips: seq<StripDef>, noise: NoiseOf, p: Params, target: nat): (State, seq<StripHeat>)
    requires p.sparkZone > 0
  {
    if strips == [] then (st, [])
    else
      var strip := strips[|strips| - 1];
      var (before, drawn) := RenderAll(st, strips[..|strips| - 1], noise, p, target);
      var after := Render(before, strip, noise, p, target);
      (after, drawn + [StripHeat(strip.id, after.heat[strip.id])])
  }

  function Ids(strips: seq<StripDef>): set<string> { set i | 0 <= i < |strips| :: strips[i].id }

  lemma TargetIsNatural(ctx: Context)
    requires ctx.Usable()
    ensures ctx.TargetTick() >= 0
  {
  }

  function Processed(st: State, ctx: Context, noise: NoiseOf): (State, seq<StripHeat>)
    requires ctx.Usable()
  {
    TargetIsNatural(ctx);
    var target := ctx.TargetTick();
    var start := (if target < st.lastTarget then CLEARED else st).(lastTarget := target);
    var (after, drawn) := RenderAll(start, ctx.strips, noise, ctx.params, target);
    var stale := after.heat.Keys - Ids(ctx.strips);
    (after.(heat := after.heat - stale, ticks := after.ticks - stale), drawn)
  }

  class HeatFireEffect {
    const noise: NoiseOf
    var heat: map<string, Heat>
    var stripTicks: map<string, int>
    var lastTargetTick: int

    ghost function Now(): State
      reads this
    {
      State(heat, stripTicks, lastTargetTick)
    }

    constructor (noise: NoiseOf)
      ensures this.noise == noise && Now() == CLEARED
    {
      this.noise := noise;
      heat, stripTicks, lastTargetTick := map[], map[], 0;
    }

    method Reset()
      modifies this
      ensures Now() == CLEARED
    {
      heat, stripTicks, lastTargetTick := map[], map[], 0;
    }

    /** The due ticks of one strip, on a working copy of its cells. */
    method RunTicks(start: Heat, id: string, p: Params, first: nat, target: nat) returns (after: Heat)
      requires p.sparkZone > 0
      ensures after == CatchUp(start, noise, id, p, first, target)
    {
      hide Tick;
      if first >= target {
        return start;
      }
      var cells := new real[|start|](i requires 0 <= i < |start| => start[i]);
      assert cells[..] == start;
      for tick := first to target
        invariant cells[..] == CatchUp(start, noise, id, p, first, tick)
      {
        Step(cells, noise(id, tick), p);
      }
      after := cells[..];
    }

    /** The loop body of the source: one strip of one render. */
    method RenderStrip(strip: StripDef, p: Params, target: nat)
      requires p.sparkZone > 0
      requires strip.id in heat ==> strip.id in stripTicks && stripTicks[strip.id] >= 0
      modifies this
      ensures Now() == Render(old(Now()), strip, noise, p, target)
    {
      hide CatchUp;
      if strip.id !in heat || |heat[strip.id]| != strip.pixelCount {
        heat := heat[strip.id := Cold(Max(0, strip.pixelCount))];
        stripTicks := stripTicks[strip.id := 0];
      }
      var start, first := heat[strip.id], stripTicks[strip.id];
      assert Current(old(Now()), strip) == (start, first);
      var after := RunTicks(start, strip.id, p, first, target);
      heat := heat[strip.id := after];
      stripTicks := stripTicks[strip.id := target];
      assert heat == old(heat)[strip.id := after];
      assert stripTicks == old(stripTicks)[strip.id := target];
    }

    method Process(ctx: Context) returns (drawn: seq<LitStrip>)
      requires ctx.Usable() && Now().Settled()
      modifies this
      ensures var (after, heats) := Processed(old(Now()), ctx, noise); Now() == after && drawn == Lit(ctx, heats)
      ensures Now().Settled()
    {
      hide Render, Ids;
      TargetIsNatural(ctx);
      var targetTick := ctx.TargetTick();
      if targetTick < lastTargetTick {
        Reset();
      }
      lastTargetTick := targetTick;
      ghost var start := Now();
      ghost var heats: seq<StripHeat> := [];
      drawn := [];
      for i := 0 to |ctx.strips|
        invariant (Now(), heats) == RenderAll(start, ctx.strips[..i], noise, ctx.params, targetTick)
        invariant drawn == Lit(ctx, heats)
        invariant Now().Settled()
      {
        var strip := ctx.strips[i];
        assert ctx.strips[..i + 1][..i] == ctx.strips[..i];
        RenderKeepsSettled(Now(), strip, noise, ctx.params, targetTick);
        RenderStrip(strip, ctx.params, targetTick);
        heats := heats + [StripHeat(strip.id, heat[strip.id])];
        drawn := drawn + [LitStrip(strip.id, Glow(ctx, heat[strip.id]))];
      }
      assert ctx.strips[..|ctx.strips|] == ctx.strips;
      var stale := heat.Keys - Ids(ctx.strips);
      heat, stripTicks := heat - stale, stripTicks - stale;
    }
  }

  lemma RenderKeepsSettled(st: State, strip: StripDef, noise: NoiseOf, p: Params, target: nat)
    requires st.Settled() && p.sparkZone > 0
    ensures Render(st, strip, noise, p, target).Settled() && strip.id in Render(st, strip, noise, p, target).heat
  {
    hide CatchUp;
  }

  // --- any run is a replay -----------------------------------------------------------------------

  lemma {:induction false} CatchUpCompletesReplay(
      noise: NoiseOf, id: string, count: nat, p: Params, first: nat, end: nat)
    requires p.sparkZone > 0 && first <= end
    ensures CatchUp(Replay(noise, id, count, p, first), noise, id, p, first, end) == Replay(noise, id, count, p, end)
    decreases end
  {
    hide Tick;
    if first < end {
      CatchUpCompletesReplay(noise, id, count, p, first, end - 1);
    }
  }

  /** Every strip's heat is the replay of its ticks, and no strip is ahead of the last target. */
  predicate Faithful(st: State, noise: NoiseOf, p: Params)
    requires p.sparkZone > 0
  {
    && st.Settled() && st.lastTarget >= 0
    && forall id :: id in st.heat ==>
         && st.ticks[id] <= st.lastTarget
         && st.heat[id] == Replay(noise, id, |st.heat[id]|, p, st.ticks[id])
  }

  lemma RenderStaysFaithful(st: State, strip: StripDef, noise: NoiseOf, p: Params)
    requires p.sparkZone > 0 && Faithful(st, noise, p)
    ensures var after := Render(st, strip, noise, p, st.lastTarget);
      && Faithful(after, noise, p) && after.lastTarget == st.lastTarget
      && after.heat[strip.id] == Replay(noise, strip.id, Max(0, strip.pixelCount), p, st.lastTarget)
  {
    hide Tick, CatchUp, Replay;
    var (heat, tick) := Current(st, strip);
    ReplayFromCold(noise, strip.id, |heat|, p);
    CatchUpCompletesReplay(noise, strip.id, |heat|, p, tick, st.lastTarget);
  }

  lemma ReplayFromCold(noise: NoiseOf, id: string, count: nat, p: Params)
    requires p.sparkZone > 0
    ensures Replay(noise, id, count, p, 0) == Cold(count)
  {
  }

  lemma {:induction false} RenderAllStaysFaithful(st: State, strips: seq<StripDef>, noise: NoiseOf, p: Params)
    requires p.sparkZone > 0 && Faithful(st, noise, p) && st.lastTarget >= 0
    ensures var (after, drawn) := RenderAll(st, strips, noise, p, st.lastTarget);
      && Faithful(after, noise, p) && after.lastTarget == st.lastTarget && |drawn| == |strips|
      && forall i :: 0 <= i < |strips| ==>
           drawn[i] == StripHeat(strips[i].id,
                                 Replay(noise, strips[i].id, Max(0, strips[i].pixelCount), p, st.lastTarget))
  {
    hide Render, Replay, Faithful;
    if strips != [] {
      var init := strips[..|strips| - 1];
      RenderAllStaysFaithful(st, init, noise, p);
      RenderStaysFaithful(RenderAll(st, init, noise, p, st.lastTarget).0, strips[|strips| - 1], noise, p);
    }
  }

  /** Renders with one set of parameters. */
  function Run(contexts: seq<Context>, noise: NoiseOf, p: Params): State
    requires forall k :: 0 <= k < |contexts| ==> contexts[k].Usable() && contexts[k].params == p
  {
    if contexts == [] then CLEARED
    else Processed(Run(contexts[..|contexts| - 1], noise, p), contexts[|contexts| - 1], noise).0
  }

  lemma ProcessedIsReplay(st: State, ctx: Context, noise: NoiseOf)
    requires ctx.Usable() && Faithful(st, noise, ctx.params)
    ensures var (after, drawn) := Processed(st, ctx, noise);
      && Faithful(after, noise, ctx.params) && ctx.TargetTick() >= 0 && |drawn| == |ctx.strips|
      && forall i :: 0 <= i < |ctx.strips| ==>
           drawn[i] == StripHeat(ctx.strips[i].id,
                                 Replay(noise, ctx.strips[i].id, Max(0, ctx.strips[i].pixelCount), ctx.params,
                                        ctx.TargetTick()))
  {
    hide Replay, RenderAll, Ids;
    TargetIsNatural(ctx);
    var target := ctx.TargetTick();
    var start := (if target < st.lastTarget then CLEARED else st).(lastTarget := target);
    RenderAllStaysFaithful(start, ctx.strips, noise, ctx.params);
  }

  /** After any run with constant parameters, through backward seeks, strips that drop out and return, and changes of
      length, every strip drawn shows exactly the replay of ticks 0 to target - 1 for its identity and length, and
      every cell is in [0, 1]. */
  lemma {:induction false} AnyRunIsReplay(contexts: seq<Context>, next: Context, noise: NoiseOf, p: Params)
    requires p.Valid() && next.Usable() && next.params == p
    requires forall k :: 0 <= k < |contexts| ==> contexts[k].Usable() && contexts[k].params == p
    ensures Faithful(Run(contexts, noise, p), noise, p)
    ensures var drawn := Processed(Run(contexts, noise, p), next, noise).1;
      && next.TargetTick() >= 0 && |drawn| == |next.strips|
      && forall i :: 0 <= i < |next.strips| ==>
           && drawn[i].id == next.strips[i].id && InUnit(drawn[i].heat)
           && drawn[i].heat == Replay(noise, next.strips[i].id, Max(0, next.strips[i].pixelCount), p, next.TargetTick())
    decreases |contexts|
  {
    hide Replay, Processed, Faithful, InUnit;
    if contexts == [] {
      ClearedIsFaithful(noise, p);
    } else {
      var init, last := contexts[..|contexts| - 1], contexts[|contexts| - 1];
      AnyRunIsReplay(init, last, noise, p);
      ProcessedIsReplay(Run(init, noise, p), last, noise);
    }
    ProcessedIsReplay(Run(contexts, noise, p), next, noise);
    forall i | 0 <= i < |next.strips|
      ensures InUnit(Processed(Run(contexts, noise, p), next, noise).1[i].heat)
    {
      ReplayStaysInUnit(noise, next.strips[i].id, Max(0, next.strips[i].pixelCount), p, next.TargetTick());
    }
  }

  lemma ClearedIsFaithful(noise: NoiseOf, p: Params)
    requires p.sparkZone > 0
    ensures Faithful(CLEARED, noise, p)
  {
  }
}
