/** White extraction for RGB+CCT zones under a power limit, and linear colour timelines. */
module Colour {
  import opened Util
  import opened Reals
  import opened Rgb

  // --- arithmetic --------------------------------------------------------------------------------

  function Share(a: real, b: real): real
    requires b > 0.0
  {
    a / b
  }

  lemma ShareLaws(a: real, b: real)
    requires b > 0.0
    ensures 0.0 <= a <= b ==> 0.0 <= Share(a, b) <= 1.0
    ensures Product(b, Share(a, b)) == a
    ensures a > 0.0 ==> Share(a, b) > 0.0
  {
  }

  // --- RGB to RGB+CCT ----------------------------------------------------------------------------

  datatype Rgbcct = Rgbcct(r: real, g: real, b: real, warm: real, cool: real) {
    /** What the constructor checks. */
    predicate Legal() {
      && 0.0 <= r <= 1.0 && 0.0 <= g <= 1.0 && 0.0 <= b <= 1.0 && 0.0 <= warm <= 1.0 && 0.0 <= cool <= 1.0
    }

    function Total(): real { r + g + b + warm + cool }

    function Scaled(k: real): Rgbcct {
      Rgbcct(Product(r, k), Product(g, k), Product(b, k), Product(warm, k), Product(cool, k))
    }
  }

  const DARK: Rgbcct := Rgbcct(0.0, 0.0, 0.0, 0.0, 0.0)

  function Brightest(c: RGB): real { RMax(c.r, RMax(c.g, c.b)) }

  function Darkest(c: RGB): real { RMin(c.r, RMin(c.g, c.b)) }

  function WhiteOf(c: RGB, strength: real): real
    requires Brightest(c) > 0.0
  {
    var saturation := Share(Brightest(c) - Darkest(c), Brightest(c));
    Clamp01(Product(Product(Darkest(c), 1.0 - saturation), strength))
  }

  function CoolFraction(c: RGB): real { Clamp01(0.5 + (c.b - c.r) * 0.5) }

  /** The warm and the cool share of a white, weighted by biases that are not negative. */
  function SplitWhite(c: RGB, white: real, warmBias: real, coolBias: real): (real, real) {
    var warm, cool := Product(1.0 - CoolFraction(c), warmBias), Product(CoolFraction(c), coolBias);
    if warm + cool > 0.0 then (Share(Product(white, warm), warm + cool), Share(Product(white, cool), warm + cool))
    else (0.0, 0.0)
  }

  /** The five channels before the power limit. */
  function Extracted(c: RGB, strength: real, warmBias: real, coolBias: real): Rgbcct
    requires Brightest(c) > 0.0
  {
    var white := WhiteOf(c, strength);
    var (warm, cool) := SplitWhite(c, white, warmBias, coolBias);
    Rgbcct(RMax(0.0, c.r - white), RMax(0.0, c.g - white), RMax(0.0, c.b - white), warm, cool)
  }

  function Limited(x: Rgbcct, limit: real): Rgbcct
    requires limit > 0.0
  {
    if x.Total() > limit then x.Scaled(Share(limit, x.Total())) else x
  }

  /** The colour passes through as it is: nothing to extract. */
  predicate Bypassed(c: RGB, strength: real) { Brightest(c) <= 0.0 || strength <= 0.0 }

  datatype ColourError = ChannelOutOfRange | TooFewKeyframes | TimesDoNotIncrease

  function ToRgbcct(c: RGB, warmBias: real, coolBias: real, strength: real, limit: real): Result<Rgbcct, ColourError> {
    if !c.InUnitCube() then Err(ChannelOutOfRange)
    else if limit <= 0.0 then Ok(DARK)
    else if Bypassed(c, strength) then Ok(Rgbcct(c.r, c.g, c.b, 0.0, 0.0))
    else Ok(Limited(Extracted(c, RMin(1.0, strength), RMax(0.0, warmBias), RMax(0.0, coolBias)), limit))
  }

  /** The white is between nothing and the darkest channel, so taking it out is exact. */
  lemma WhiteIsCommon(c: RGB, strength: real)
    requires c.InUnitCube() && Brightest(c) > 0.0 && 0.0 <= strength <= 1.0
    ensures 0.0 <= WhiteOf(c, strength) <= Darkest(c)
  {
    hide Product, Share;
    var saturation := Share(Brightest(c) - Darkest(c), Brightest(c));
    ShareLaws(Brightest(c) - Darkest(c), Brightest(c));
    ProductLaws(Darkest(c), 0.0, 1.0 - saturation);
    ProductLaws(Product(Darkest(c), 1.0 - saturation), 0.0, strength);
  }

  /** Warm and cool white add up to the white, in the proportion of their weights, or there is none of either. */
  lemma SplitAddsUp(c: RGB, white: real, warmBias: real, coolBias: real)
    requires 0.0 <= white && warmBias >= 0.0 && coolBias >= 0.0
    ensures var (warm, cool) := SplitWhite(c, white, warmBias, coolBias);
      var warmWeight, coolWeight := Product(1.0 - CoolFraction(c), warmBias), Product(CoolFraction(c), coolBias);
      && 0.0 <= warm <= white && 0.0 <= cool <= white
      && warm + cool == (if warmWeight + coolWeight > 0.0 then white else 0.0)
      && warm * coolWeight == cool * warmWeight
  {
    hide Product, Share;
    var warmWeight, coolWeight := Product(1.0 - CoolFraction(c), warmBias), Product(CoolFraction(c), coolBias);
    ProductNonNegative(1.0 - CoolFraction(c), warmBias);
    ProductNonNegative(CoolFraction(c), coolBias);
    if warmWeight + coolWeight > 0.0 {
      Proportion(white, warmWeight, coolWeight);
    }
  }

  lemma Proportion(white: real, a: real, b: real)
    requires white >= 0.0 && a >= 0.0 && b >= 0.0 && a + b > 0.0
    ensures var warm, cool := Share(Product(white, a), a + b), Share(Product(white, b), a + b);
      warm >= 0.0 && cool >= 0.0 && warm + cool == white && warm * b == cool * a
  {
    var unit := white / (a + b);
    QuotientOfProduct(white, a, a + b);
    QuotientOfProduct(white, b, a + b);
    Scaling(unit, a, b);
    assert unit * (a + b) == white;
  }

  lemma QuotientOfProduct(w: real, a: real, s: real)
    requires s > 0.0
    ensures Share(Product(w, a), s) == (w / s) * a
  {
    var q, unit := Share(Product(w, a), s), w / s;
    assert q * s == w * a;
    calc {
      (unit * a) * s;
      (unit * s) * a;
      w * a;
    }
    Cancel(q, unit * a, s);
  }

  lemma Cancel(x: real, y: real, s: real)
    requires s > 0.0 && x * s == y * s
    ensures x == y
  {
  }

  lemma Scaling(unit: real, a: real, b: real)
    ensures unit * a + unit * b == unit * (a + b)
    ensures (unit * a) * b == (unit * b) * a
    ensures unit >= 0.0 && a >= 0.0 ==> unit * a >= 0.0
    ensures unit >= 0.0 && b >= 0.0 ==> unit * b >= 0.0
  {
  }

  /** The limit keeps legal channels legal, keeps their proportions, and is met exactly when it has to cut. */
  lemma LimitHolds(x: Rgbcct, limit: real)
    requires x.Legal() && limit > 0.0
    ensures Limited(x, limit).Legal()
    ensures Limited(x, limit).Total() == RMin(x.Total(), limit)
    ensures exists k: real :: 0.0 <= k <= 1.0 && Limited(x, limit) == x.Scaled(k)
  {
    hide Product, Share;
    if x.Total() > limit {
      ShareLaws(limit, x.Total());
      ScaledTotal(x, Share(limit, x.Total()));
      assert Limited(x, limit) == x.Scaled(Share(limit, x.Total()));
    } else {
      ScaledTotal(x, 1.0);
      assert x.Scaled(1.0) == x;
    }
  }

  lemma ScaledTotal(x: Rgbcct, k: real)
    requires x.Legal() && 0.0 <= k
    ensures x.Scaled(k).Total() == Product(x.Total(), k)
    ensures k <= 1.0 ==> x.Scaled(k).Legal()
    ensures k == 1.0 ==> x.Scaled(k) == x
  {
    hide Product;
    ProductLaws(x.r, x.g, k);
    ProductLaws(x.g, x.b, k);
    ProductLaws(x.b, x.warm, k);
    ProductLaws(x.warm, x.cool, k);
    ProductLaws(x.cool, 0.0, k);
    ProductLaws(x.r + x.g, x.b, k);
    ProductLaws(x.r + x.g + x.b, x.warm, k);
    ProductLaws(x.r + x.g + x.b + x.warm, x.cool, k);
    if k == 1.0 {
      Ones(x);
    }
  }

  lemma Ones(x: Rgbcct)
    ensures x.Scaled(1.0) == x
  {
  }

  /** The conversion raises exactly for a channel outside the unit interval; its result is always legal. For any other
      colour the channels before limiting are the colour minus its extracted white, and that white split in two, or
      lost when both weights are zero. */
  lemma ExtractionIsExact(c: RGB, warmBias: real, coolBias: real, strength: real, limit: real)
    ensures ToRgbcct(c, warmBias, coolBias, strength, limit).Ok? <==> c.InUnitCube()
    ensures c.InUnitCube() ==> ToRgbcct(c, warmBias, coolBias, strength, limit).value.Legal()
    ensures c.InUnitCube() && limit > 0.0 && !Bypassed(c, strength) ==>
      var x := Extracted(c, RMin(1.0, strength), RMax(0.0, warmBias), RMax(0.0, coolBias));
      var white := WhiteOf(c, RMin(1.0, strength));
      && 0.0 <= white <= Darkest(c)
      && x.r == c.r - white && x.g == c.g - white && x.b == c.b - white
      && (x.warm + x.cool == white || x.warm == x.cool == 0.0)
      && ToRgbcct(c, warmBias, coolBias, strength, limit) == Ok(Limited(x, limit))
      && Limited(x, limit).Total() == RMin(x.Total(), limit)
  {
    hide WhiteOf, SplitWhite, Limited;
    if c.InUnitCube() && limit > 0.0 && !Bypassed(c, strength) {
      var x := Extracted(c, RMin(1.0, strength), RMax(0.0, warmBias), RMax(0.0, coolBias));
      WhiteIsCommon(c, RMin(1.0, strength));
      SplitAddsUp(c, WhiteOf(c, RMin(1.0, strength)), RMax(0.0, warmBias), RMax(0.0, coolBias));
      LimitHolds(x, limit);
    }
  }

  // --- the extraction in plain numbers -----------------------------------------------------------

  predicate IsBrightest(m: real, c: RGB) { m >= c.r && m >= c.g && m >= c.b && (m == c.r || m == c.g || m == c.b) }

  predicate IsDarkest(m: real, c: RGB) { m <= c.r && m <= c.g && m <= c.b && (m == c.r || m == c.g || m == c.b) }

  /** The white taken out is the square of the darkest channel over the brightest, times the strength. */
  predicate IsWhite(white: real, bright: real, dark: real, strength: real) {
    white * bright == dark * dark * strength
  }

  /** The weights of warm and of cool white: more cool the more blue there is against red. */
  function WarmWeight(c: RGB, bias: real): real { (1.0 - c.b + c.r) * bias }

  function CoolWeight(c: RGB, bias: real): real { (1.0 + c.b - c.r) * bias }

  lemma WhiteIs(c: RGB, strength: real)
    requires c.InUnitCube() && Brightest(c) > 0.0 && 0.0 <= strength <= 1.0
    ensures IsWhite(WhiteOf(c, strength), Brightest(c), Darkest(c), strength)
  {
    hide Share, Product, Brightest, Darkest, Clamp01;
    var bright, dark := Brightest(c), Darkest(c);
    assert 0.0 <= dark <= bright <= 1.0 by { ChannelsInOrder(c); }
    var s := Share(bright - dark, bright);
    ShareLaws(bright - dark, bright);
    WhiteInNumbers(bright, dark, s, strength);
    ClampOfUnit(Product(Product(dark, 1.0 - s), strength));
  }

  lemma ChannelsInOrder(c: RGB)
    requires c.InUnitCube()
    ensures 0.0 <= Darkest(c) <= Brightest(c) <= 1.0 && IsBrightest(Brightest(c), c) && IsDarkest(Darkest(c), c)
  {
  }

  lemma ClampOfUnit(x: real)
    requires 0.0 <= x <= 1.0
    ensures Clamp01(x) == x
  {
  }

  lemma WhiteInNumbers(bright: real, dark: real, s: real, strength: real)
    requires 0.0 <= dark <= bright <= 1.0 && bright > 0.0 && 0.0 <= strength <= 1.0
    requires Product(bright, s) == bright - dark && 0.0 <= s <= 1.0
    ensures var w := Product(Product(dark, 1.0 - s), strength);
      w * bright == dark * dark * strength && 0.0 <= w <= 1.0
  {
    hide Product;
    var keep := 1.0 - s;
    var part := Product(dark, keep);
    ProductIs(bright, s);
    assert bright * keep == dark;
    ProductIs(dark, keep);
    ProductIs(part, strength);
    ProductLaws(dark, 0.0, keep);
    ProductLaws(part, 0.0, strength);
    Products(dark, keep, strength, bright);
  }

  lemma Products(dark: real, keep: real, strength: real, bright: real)
    requires bright * keep == dark
    ensures dark * keep * strength * bright == dark * dark * strength
  {
    FourFactors(dark, keep, strength, bright);
  }

  lemma FourFactors(a: real, b: real, c: real, d: real)
    ensures a * b * c * d == a * (d * b) * c
  {
  }

  /** Cool and warm share the white by how much blue there is against red: `1 + b - r` to `1 - b + r`. */
  lemma CoolIs(c: RGB)
    requires c.InUnitCube()
    ensures 2.0 * CoolFraction(c) == 1.0 + c.b - c.r
  {
  }

  /** Five channels are those of a colour less its white, and the white split by the weights, all cut alike so that
      their sum meets the limit if it would exceed it. */
  predicate IsExtraction(
      x: Rgbcct, c: RGB, white: real, k: real, warm: real, cool: real, warmWeight: real, coolWeight: real, limit: real)
  {
    var total := c.r + c.g + c.b - 3.0 * white + warm + cool;
    && x == Rgbcct((c.r - white) * k, (c.g - white) * k, (c.b - white) * k, warm * k, cool * k)
    && (if total <= limit then k == 1.0 else k * total == limit)
    && SplitHolds(white, warm, cool, warmWeight, coolWeight)
  }

  /** Warm and cool add up to the white, in the proportion of their weights, or there is none of either. */
  predicate SplitHolds(white: real, warm: real, cool: real, warmWeight: real, coolWeight: real) {
    if warmWeight + coolWeight > 0.0
    then warm + cool == white && warm * coolWeight == cool * warmWeight && warm >= 0.0 && cool >= 0.0
    else warm == cool == 0.0
  }

  /** What the conversion computes for a legal colour that is not passed through, in the numbers of the call alone. */
  lemma ExtractionIs(c: RGB, warmBias: real, coolBias: real, strength: real, limit: real)
    returns (bright: real, dark: real, s: real, wb: real, cb: real, white: real, k: real, warm: real, cool: real)
    requires c.InUnitCube() && limit > 0.0 && strength > 0.0 && (c.r > 0.0 || c.g > 0.0 || c.b > 0.0)
    ensures IsBrightest(bright, c) && IsDarkest(dark, c)
    ensures s == if strength < 1.0 then strength else 1.0
    ensures wb == if warmBias > 0.0 then warmBias else 0.0
    ensures cb == if coolBias > 0.0 then coolBias else 0.0
    ensures IsWhite(white, bright, dark, s)
    ensures ToRgbcct(c, warmBias, coolBias, strength, limit).Ok?
    ensures IsExtraction(ToRgbcct(c, warmBias, coolBias, strength, limit).value, c, white, k, warm, cool,
                         WarmWeight(c, wb), CoolWeight(c, cb), limit)
  {
    hide WhiteOf, SplitWhite, Limited, Extracted, Rgbcct.Total, IsExtraction, SplitHolds,
         IsWhite, WarmWeight, CoolWeight, IsLimited;
    s, wb, cb := RMin(1.0, strength), RMax(0.0, warmBias), RMax(0.0, coolBias);
    bright, dark, white := Brightest(c), Darkest(c), WhiteOf(c, s);
    ChannelsInOrder(c);
    WhiteIs(c, s);
    WhiteIsCommon(c, s);
    var split := SplitWhite(c, white, wb, cb);
    warm, cool := split.0, split.1;
    SplitIs(c, white, wb, cb);
    ExtractedIs(c, s, wb, cb, white, warm, cool);
    k := LimitedIs(Extracted(c, s, wb, cb), limit);
    ExtractionShown(Limited(Extracted(c, s, wb, cb), limit), Extracted(c, s, wb, cb), c, white, k, warm, cool,
                    WarmWeight(c, wb), CoolWeight(c, cb), limit);
  }

  lemma ExtractionShown(
      y: Rgbcct, x: Rgbcct, c: RGB, white: real, k: real, warm: real, cool: real, a: real, b: real, limit: real)
    requires x == Rgbcct(c.r - white, c.g - white, c.b - white, warm, cool) && IsLimited(y, x, k, limit)
    requires SplitHolds(white, warm, cool, a, b)
    ensures IsExtraction(y, c, white, k, warm, cool, a, b, limit)
  {
    hide SplitHolds;
    assert x.Total() == c.r + c.g + c.b - 3.0 * white + warm + cool;
  }

  lemma ExtractedIs(c: RGB, s: real, wb: real, cb: real, white: real, warm: real, cool: real)
    requires Brightest(c) > 0.0 && white == WhiteOf(c, s) && (warm, cool) == SplitWhite(c, white, wb, cb)
    requires white <= c.r && white <= c.g && white <= c.b
    ensures Extracted(c, s, wb, cb) == Rgbcct(c.r - white, c.g - white, c.b - white, warm, cool)
    ensures Extracted(c, s, wb, cb).Total() == c.r + c.g + c.b - 3.0 * white + warm + cool
  {
    hide WhiteOf, SplitWhite;
  }

  /** All channels cut alike, so that their sum meets the limit if it would exceed it. */
  predicate IsLimited(y: Rgbcct, x: Rgbcct, k: real, limit: real) {
    && y == Rgbcct(x.r * k, x.g * k, x.b * k, x.warm * k, x.cool * k)
    && if x.Total() <= limit then k == 1.0 else k * x.Total() == limit
  }

  lemma LimitedIs(x: Rgbcct, limit: real) returns (k: real)
    requires limit > 0.0
    ensures IsLimited(Limited(x, limit), x, k, limit)
  {
    hide Share, Product, Rgbcct.Total, Rgbcct.Scaled;
    k := if x.Total() > limit then Share(limit, x.Total()) else 1.0;
    ScaledIs(x, k);
    if x.Total() > limit {
      ShareLaws(limit, x.Total());
      ProductIs(x.Total(), k);
    } else {
      Ones(x);
    }
  }

  lemma ScaledIs(x: Rgbcct, k: real)
    ensures x.Scaled(k) == Rgbcct(x.r * k, x.g * k, x.b * k, x.warm * k, x.cool * k)
  {
  }

  lemma SplitIs(c: RGB, white: real, wb: real, cb: real)
    requires c.InUnitCube() && white >= 0.0 && wb >= 0.0 && cb >= 0.0
    ensures var (warm, cool) := SplitWhite(c, white, wb, cb);
      SplitHolds(white, warm, cool, WarmWeight(c, wb), CoolWeight(c, cb))
  {
    hide SplitWhite, Product, CoolFraction;
    SplitAddsUp(c, white, wb, cb);
    CoolIs(c);
    var f := CoolFraction(c);
    var a, b := Product(1.0 - f, wb), Product(f, cb);
    ProductNonNegative(1.0 - f, wb);
    ProductNonNegative(f, cb);
    ProductIs(1.0 - f, wb);
    ProductIs(f, cb);
    Doubled(f, c, wb, cb);
    var (warm, cool) := SplitWhite(c, white, wb, cb);
    ProportionDoubled(warm, cool, a, b);
  }

  lemma Doubled(f: real, c: RGB, wb: real, cb: real)
    requires 2.0 * f == 1.0 + c.b - c.r
    ensures WarmWeight(c, wb) == 2.0 * ((1.0 - f) * wb) && CoolWeight(c, cb) == 2.0 * (f * cb)
  {
    assert 1.0 - c.b + c.r == 2.0 * (1.0 - f);
  }

  lemma ProportionDoubled(warm: real, cool: real, a: real, b: real)
    requires warm * b == cool * a
    ensures warm * (2.0 * b) == cool * (2.0 * a)
  {
  }

  /** The two early returns: no light under no power, and the colour itself when nothing is to be taken out. */
  lemma PassedThrough(c: RGB, warmBias: real, coolBias: real, strength: real, limit: real)
    requires c.InUnitCube()
    ensures limit <= 0.0 ==>
      ToRgbcct(c, warmBias, coolBias, strength, limit) == Ok(Rgbcct(0.0, 0.0, 0.0, 0.0, 0.0))
    ensures limit > 0.0 && (strength <= 0.0 || (c.r == 0.0 && c.g == 0.0 && c.b == 0.0)) ==>
      ToRgbcct(c, warmBias, coolBias, strength, limit) == Ok(Rgbcct(c.r, c.g, c.b, 0.0, 0.0))
  {
  }

  /** The five channels keep within the power limit, unless the colour was passed through although it is brighter than
      that: the early return comes before the limit. */
  lemma PowerLimitHoldsIff(c: RGB, warmBias: real, coolBias: real, strength: real, limit: real)
    requires c.InUnitCube() && limit >= 0.0
    ensures ToRgbcct(c, warmBias, coolBias, strength, limit).Ok?
    ensures ToRgbcct(c, warmBias, coolBias, strength, limit).value.Total() <= limit
            <==> !(limit > 0.0 && strength <= 0.0 && c.r + c.g + c.b > limit)
  {
    hide Extracted, Limited;
    ExtractionIsExact(c, warmBias, coolBias, strength, limit);
  }

  /** Such a colour: white, without extraction, under the default limit. */
  lemma PassedThroughAboveTheLimit()
    ensures ToRgbcct(RGB(1.0, 1.0, 1.0), 1.0, 1.0, 0.0, 1.0) == Ok(Rgbcct(1.0, 1.0, 1.0, 0.0, 0.0))
  {
  }

  // --- timelines ---------------------------------------------------------------------------------

  datatype Keyframe = Keyframe(time: real, colour: RGB)

  function Mix(a: real, b: real, t: real): real { a + Product(b - a, t) }

  function Lerp(a: RGB, b: RGB, t: real): RGB {
    var u := Clamp01(t);
    RGB(Mix(a.r, b.r, u), Mix(a.g, b.g, u), Mix(a.b, b.b, u))
  }

  /** The loop over the intervals from `index` on; nothing when it runs off the end. */
  function Search(k: seq<Keyframe>, index: nat, t: real): Option<Result<RGB, ColourError>>
    requires 1 <= index <= |k|
    decreases |k| - index
  {
    if index == |k| then None
    else if t <= k[index].time then
      var span := k[index].time - k[index - 1].time;
      if span <= 0.0 then Some(Err(TimesDoNotIncrease))
      else Some(Ok(Lerp(k[index - 1].colour, k[index].colour, Share(t - k[index - 1].time, span))))
    else Search(k, index + 1, t)
  }

  function Evaluate(k: seq<Keyframe>, t: real): Result<RGB, ColourError> {
    if |k| < 2 then Err(TooFewKeyframes)
    else if t <= k[0].time then Ok(k[0].colour)
    else if t >= k[|k| - 1].time then Ok(k[|k| - 1].colour)
    else
      var found := Search(k, 1, t);
      if found.Some? then found.value else Ok(k[|k| - 1].colour)
  }

  predicate Increasing(k: seq<Keyframe>) { forall i, j :: 0 <= i < j < |k| ==> k[i].time < k[j].time }

  /** Whatever the times are, the loop finds an interval, and the interval it finds has a positive span. */
  lemma {:induction false} SearchSucceeds(k: seq<Keyframe>, index: nat, t: real)
    requires 1 <= index < |k| && k[index - 1].time < t < k[|k| - 1].time
    ensures Search(k, index, t).Some? && Search(k, index, t).value.Ok?
    decreases |k| - index
  {
    if t > k[index].time {
      SearchSucceeds(k, index + 1, t);
    }
  }

  /** With two keyframes or more neither the final fallback nor the error about times is ever reached, even when the
      times do not increase. */
  lemma TimelineNeverFails(k: seq<Keyframe>, t: real)
    ensures Evaluate(k, t).Ok? <==> |k| >= 2
    ensures |k| >= 2 && k[0].time < t < k[|k| - 1].time ==> Search(k, 1, t).Some?
  {
    if |k| >= 2 && k[0].time < t < k[|k| - 1].time {
      SearchSucceeds(k, 1, t);
    }
  }

  lemma LerpEnds(a: RGB, b: RGB)
    ensures Lerp(a, b, 0.0) == a && Lerp(a, b, 1.0) == b
  {
    hide Product;
    ProductLaws(b.r - a.r, 0.0, 0.0);
    ProductLaws(b.g - a.g, 0.0, 0.0);
    ProductLaws(b.b - a.b, 0.0, 0.0);
  }

  /** The value between two channels. */
  predicate Between(x: real, a: real, b: real) { RMin(a, b) <= x <= RMax(a, b) }

  lemma MixIsBetween(a: real, b: real, t: real)
    requires 0.0 <= t <= 1.0
    ensures Between(Mix(a, b, t), a, b)
  {
    hide Product;
    ProductLaws(b - a, a - b, t);
    ProductLaws(a - b, b - a, t);
  }

  /** Each channel of `c` stands at time `t` on the straight line between two keyframes. */
  predicate OnTheLine(c: RGB, a: Keyframe, b: Keyframe, t: real) {
    && (c.r - a.colour.r) * (b.time - a.time) == (b.colour.r - a.colour.r) * (t - a.time)
    && (c.g - a.colour.g) * (b.time - a.time) == (b.colour.g - a.colour.g) * (t - a.time)
    && (c.b - a.colour.b) * (b.time - a.time) == (b.colour.b - a.colour.b) * (t - a.time)
  }

  lemma MixIsLinear(a: real, b: real, x: real, span: real)
    requires span > 0.0 && 0.0 <= x <= span
    ensures Clamp01(Share(x, span)) == Share(x, span)
    ensures (Mix(a, b, Share(x, span)) - a) * span == (b - a) * x
  {
    var u := x / span;
    assert u * span == x;
    assert 0.0 <= u <= 1.0;
    assert Product(b - a, u) == (b - a) * u;
    Regroup(b - a, u, span);
  }

  lemma Regroup(x: real, y: real, z: real)
    ensures (x * y) * z == x * (y * z)
  {
  }

  lemma LerpIsLinear(a: Keyframe, b: Keyframe, t: real)
    requires a.time <= t <= b.time && a.time < b.time
    ensures OnTheLine(Lerp(a.colour, b.colour, Share(t - a.time, b.time - a.time)), a, b, t)
  {
    hide Mix, Share, Clamp01;
    var x, span := t - a.time, b.time - a.time;
    MixIsLinear(a.colour.r, b.colour.r, x, span);
    MixIsLinear(a.colour.g, b.colour.g, x, span);
    MixIsLinear(a.colour.b, b.colour.b, x, span);
  }

  /** Whatever the times are: between its ends a timeline stands on the line that leads to the first keyframe that is
      not earlier, from the one before it. */
  lemma TimelineIsLinear(k: seq<Keyframe>, i: nat, t: real)
    requires 1 <= i < |k| && k[0].time < t < k[|k| - 1].time
    requires t <= k[i].time && forall j :: 0 <= j < i ==> k[j].time < t
    ensures Evaluate(k, t).Ok? && OnTheLine(Evaluate(k, t).value, k[i - 1], k[i], t)
  {
    hide Share, Lerp, OnTheLine;
    SearchStops(k, 1, i, t);
    LerpIsLinear(k[i - 1], k[i], t);
  }

  lemma {:induction false} SearchStops(k: seq<Keyframe>, index: nat, i: nat, t: real)
    requires 1 <= index <= i < |k| && t <= k[i].time && forall j :: 0 <= j < i ==> k[j].time < t
    ensures Search(k, index, t)
            == Some(Ok(Lerp(k[i - 1].colour, k[i].colour, Share(t - k[i - 1].time, k[i].time - k[i - 1].time))))
    decreases i - index
  {
    hide Share, Lerp;
    if index < i {
      SearchStops(k, index + 1, i, t);
    }
  }

  /** On a timeline whose times increase, the whole closed interval between two keyframes is their linear blend: both
      keyframes are hit exactly, from either side, and in between every channel stays between the two. */
  lemma TimelineIsPiecewiseLinear(k: seq<Keyframe>, i: nat, t: real)
    requires Increasing(k) && 1 <= i < |k| && k[i - 1].time <= t <= k[i].time
    ensures var a, b := k[i - 1], k[i]; var c := Evaluate(k, t);
      && c == Ok(Lerp(a.colour, b.colour, Share(t - a.time, b.time - a.time)))
      && OnTheLine(c.value, a, b, t)
      && (t == a.time ==> c == Ok(a.colour)) && (t == b.time ==> c == Ok(b.colour))
      && Between(c.value.r, a.colour.r, b.colour.r)
      && Between(c.value.g, a.colour.g, b.colour.g)
      && Between(c.value.b, a.colour.b, b.colour.b)
  {
    hide Share, Search, Lerp, OnTheLine;
    var a, b := k[i - 1], k[i];
    LerpEnds(a.colour, b.colour);
    ShareEnds(b.time - a.time);
    if t > a.time {
      SearchStops(k, 1, i, t);
    } else if i > 1 {
      SearchStops(k, 1, i - 1, t);
      LerpEnds(k[i - 2].colour, a.colour);
      ShareEnds(a.time - k[i - 2].time);
    }
    ShareLaws(t - a.time, b.time - a.time);
    LerpIsBetween(a.colour, b.colour, Share(t - a.time, b.time - a.time));
    LerpIsLinear(a, b, t);
  }

  lemma ShareEnds(span: real)
    requires span > 0.0
    ensures Share(0.0, span) == 0.0 && Share(span, span) == 1.0
  {
  }

  lemma LerpIsBetween(a: RGB, b: RGB, t: real)
    ensures var c := Lerp(a, b, t); Between(c.r, a.r, b.r) && Between(c.g, a.g, b.g) && Between(c.b, a.b, b.b)
  {
    hide Mix, Between;
    var u := Clamp01(t);
    MixIsBetween(a.r, b.r, u);
    MixIsBetween(a.g, b.g, u);
    MixIsBetween(a.b, b.b, u);
  }

  /** Outside the authored range the timeline holds its ends. */
  lemma TimelineHoldsItsEnds(k: seq<Keyframe>, t: real)
    requires |k| >= 2 && Increasing(k)
    ensures t <= k[0].time ==> Evaluate(k, t) == Ok(k[0].colour)
    ensures t >= k[|k| - 1].time ==> Evaluate(k, t) == Ok(k[|k| - 1].colour)
  {
  }

  /** A timeline whose keyframes are legal colours never leaves the legal colours, whatever its times. */
  lemma {:induction false} SearchStaysLegal(k: seq<Keyframe>, index: nat, t: real)
    requires 1 <= index <= |k| && forall f <- k :: f.colour.InUnitCube()
    ensures var found := Search(k, index, t); found.Some? && found.value.Ok? ==> found.value.value.InUnitCube()
    decreases |k| - index
  {
    hide Lerp, Share;
    if index < |k| {
      if t <= k[index].time {
        if k[index].time - k[index - 1].time > 0.0 {
          LerpIsBetween(k[index - 1].colour, k[index].colour,
                        Share(t - k[index - 1].time, k[index].time - k[index - 1].time));
        }
      } else {
        SearchStaysLegal(k, index + 1, t);
      }
    }
  }

  lemma TimelineStaysLegal(k: seq<Keyframe>, t: real)
    requires |k| >= 2 && forall f <- k :: f.colour.InUnitCube()
    ensures Evaluate(k, t).Ok? && Evaluate(k, t).value.InUnitCube()
  {
    hide Search;
    TimelineNeverFails(k, t);
    SearchStaysLegal(k, 1, t);
  }

  /** The evaluation as the loop it is. */
  method EvaluateTimeline(k: seq<Keyframe>, t: real) returns (r: Result<RGB, ColourError>)
    ensures r == Evaluate(k, t)
  {
    if |k| < 2 {
      return Err(TooFewKeyframes);
    }
    if t <= k[0].time {
      return Ok(k[0].colour);
    }
    if t >= k[|k| - 1].time {
      return Ok(k[|k| - 1].colour);
    }
    for index := 1 to |k|
      invariant Search(k, 1, t) == Search(k, index, t)
    {
      if t <= k[index].time {
        var span := k[index].time - k[index - 1].time;
        if span <= 0.0 {
          return Err(TimesDoNotIncrease);
        }
        return Ok(Lerp(k[index - 1].colour, k[index].colour, Share(t - k[index - 1].time, span)));
      }
    }
    return Ok(k[|k| - 1].colour);
  }
}
