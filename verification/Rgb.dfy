/** Linear colours, runs of them, and the strips they are drawn on. */
module Rgb {
  import opened Reals

  datatype RGB = RGB(r: real, g: real, b: real) {
    function Scaled(gain: real): RGB { RGB(r * gain, g * gain, b * gain) }

    predicate InUnitCube() { 0.0 <= r <= 1.0 && 0.0 <= g <= 1.0 && 0.0 <= b <= 1.0 }
  }

  /** A channel scaled by an effect's intensity, kept within [0, 1]. */
  function Dim(channel: real, intensity: real): real { Clamp01(channel * intensity) }

  const BLACK: RGB := RGB(0.0, 0.0, 0.0)

  type Pixels = seq<RGB>

  function Copies(c: RGB, n: nat): Pixels { seq(n, i => c) }

  /** A strip as an effect is told of it. */
  datatype StripDef = StripDef(id: string, pixelCount: int)
}
