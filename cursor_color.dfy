// The cursor's colour system (components/GPUCursor.tsx): perceptual
// luminance, the two appearance modes, the hysteresis that chooses between
// them and the colour-interpolation scalar that is smoothed toward the
// chosen mode every frame. Numbers are `real`; no IEEE rounding is modelled.

module CursorColor {
  import opened Common

  // Luma weights. The source's comments name ITU-R BT.709, but the numbers
  // it uses are the luma weights of section 2.5.1 of ITU-R BT.601-7.
  const RedWeight: real := 0.299
  const GreenWeight: real := 0.587
  const BlueWeight: real := 0.114

  const DarkThreshold: real := 0.45
  const HysteresisBand: real := 0.08
  const TransitionSpeed: real := 0.35
  /** Minimum alpha for a pixel or a layer to count in a luminance sample. */
  const MinAlpha: real := 0.1
  /** Alpha from which a background layer stops the walk down the hit stack. */
  const OpaqueThreshold: real := 0.95
  /** The sampler's answer when nothing measurable lies under the point. */
  const DefaultLuminance: real := 0.9

  /** Perceptual luminance of an RGB triple, scaled so that white is 1. */
  function Luminance(r: nat, g: nat, b: nat): (l: real)
    ensures 0.0 <= l
    ensures r <= 255 && g <= 255 && b <= 255 ==> l <= 1.0
    ensures r == g == b ==> l == r as real / 255.0
    ensures r == 0 && g == 0 && b == 0 ==> l == 0.0
  {
    (RedWeight * r as real + GreenWeight * g as real + BlueWeight * b as real) / 255.0
  }

  /** Linear interpolation a + (b - a) * t. */
  function Lerp(a: real, b: real, t: real): (r: real)
    ensures t == 0.0 ==> r == a
    ensures t == 1.0 ==> r == b
    ensures 0.0 <= t <= 1.0 ==> Min(a, b) <= r <= Max(a, b)
  {
    LerpBetween(a, b, t);
    a + (b - a) * t
  }

  /** For t in [0, 1], a + (b - a) * t lies between a and b. */
  lemma LerpBetween(a: real, b: real, t: real)
    ensures 0.0 <= t <= 1.0 ==> Min(a, b) <= a + (b - a) * t <= Max(a, b)
  {
    if 0.0 <= t <= 1.0 {
      if b >= a {
        MulNonNeg(b - a, t);
        MulNonNeg(b - a, 1.0 - t);
      } else {
        MulNonNeg(a - b, t);
        MulNonNeg(a - b, 1.0 - t);
      }
    }
  }

  /** What is left of the way to b after a lerp by t is the fraction 1 - t. */
  lemma LerpDistance(a: real, b: real, t: real)
    requires t <= 1.0
    ensures Abs(b - Lerp(a, b, t)) == (1.0 - t) * Abs(b - a)
  {
    assert b - Lerp(a, b, t) == (b - a) * (1.0 - t);
    AbsOfProduct(b - a, 1.0 - t);
  }

  /** For 0 <= t <= 1, x * t lies between 0 and x. */
  lemma ScaledBetween(x: real, t: real)
    ensures 0.0 <= t <= 1.0 && x >= 0.0 ==> 0.0 <= x * t <= x
    ensures 0.0 <= t <= 1.0 && x <= 0.0 ==> x <= x * t <= 0.0
  {
    if 0.0 <= t <= 1.0 && x >= 0.0 {
      MulNonNeg(x, t);
      MulNonNeg(x, 1.0 - t);
    }
    if 0.0 <= t <= 1.0 && x <= 0.0 {
      MulNonNeg(-x, t);
      MulNonNeg(-x, 1.0 - t);
    }
  }

  lemma AbsOfProduct(x: real, k: real)
    ensures k >= 0.0 ==> Abs(x * k) == k * Abs(x)
  {
    if x < 0.0 {
      assert x * k == -((-x) * k);
    }
  }

  /** Math.min(hi, Math.max(lo, v)). */
  function Clamp(v: real, lo: real, hi: real): (r: real)
    ensures r <= hi
    ensures lo <= hi ==> lo <= r
    ensures lo <= v <= hi ==> r == v
    ensures lo <= hi && v < lo ==> r == lo
    ensures v > hi ==> r == hi
  {
    Min(hi, Max(lo, v))
  }

  /** Math.round for the values it is applied to here: halves round up. */
  function Round(x: real): (n: int)
    ensures n as real <= x + 0.5 < n as real + 1.0
  {
    (x + 0.5).Floor
  }

  /** A cursor appearance: one RGB colour and an opacity for dot and ring. */
  datatype Appearance = Appearance(r: int, g: int, b: int, dot: real, ring: real)

  /** Light mode: a dark cursor on light backgrounds. */
  const LightMode := Appearance(0, 0, 0, 0.85, 0.5)
  /** Dark mode: a light cursor on dark backgrounds. */
  const DarkMode := Appearance(255, 255, 255, 0.95, 0.7)

  /** The appearance between the two modes for t in [0, 1] (0 = light mode, 1 = dark mode). */
  function InterpolateColor(t: real): (c: Appearance)
    ensures c.r == c.g == c.b
    ensures 0.0 <= t <= 1.0 ==> 0 <= c.r <= 255
    ensures 0.0 <= t <= 1.0 ==> 0.85 <= c.dot <= 0.95 && 0.5 <= c.ring <= 0.7
    ensures t == 0.0 ==> c == LightMode
    ensures t == 1.0 ==> c == DarkMode
  {
    var ch := Round(Lerp(LightMode.r as real, DarkMode.r as real, t));
    Appearance(ch, Round(Lerp(LightMode.g as real, DarkMode.g as real, t)),
               Round(Lerp(LightMode.b as real, DarkMode.b as real, t)),
               Lerp(LightMode.dot, DarkMode.dot, t), Lerp(LightMode.ring, DarkMode.ring, t))
  }

  /**
   * The colour mode after one luminance sample. A light-mode cursor turns
   * dark only below threshold - band; a dark-mode cursor turns back only
   * above threshold + band.
   */
  function NextDarkMode(isDark: bool, luminance: real): (dark: bool)
    ensures !isDark ==> (dark <==> luminance < DarkThreshold - HysteresisBand)
    ensures isDark ==> (!dark <==> luminance > DarkThreshold + HysteresisBand)
  {
    if isDark then !(luminance > DarkThreshold + HysteresisBand)
    else luminance < DarkThreshold - HysteresisBand
  }

  /** A sample inside the hysteresis band never changes the mode. */
  lemma DeadBand(isDark: bool, luminance: real)
    requires 0.37 <= luminance <= 0.53
    ensures NextDarkMode(isDark, luminance) == isDark
  {
  }

  /** The mode after a whole sequence of samples, one per frame. */
  function ModeAfter(isDark: bool, samples: seq<real>): bool
    decreases |samples|
  {
    if samples == [] then isDark else ModeAfter(NextDarkMode(isDark, samples[0]), samples[1..])
  }

  /** Samples that all stay inside the band, however many, never flip the mode. */
  lemma {:induction false} NoFlickerInsideBand(isDark: bool, samples: seq<real>)
    requires forall i :: 0 <= i < |samples| ==> 0.37 <= samples[i] <= 0.53
    ensures ModeAfter(isDark, samples) == isDark
  {
    if samples != [] {
      DeadBand(isDark, samples[0]);
      NoFlickerInsideBand(isDark, samples[1..]);
    }
  }

  /** Once in a mode, the mode only changes on a sample outside the band. */
  lemma {:induction false} FlipNeedsSampleOutsideBand(isDark: bool, samples: seq<real>)
    requires ModeAfter(isDark, samples) != isDark
    ensures exists i :: 0 <= i < |samples| && (samples[i] < 0.37 || samples[i] > 0.53)
  {
    if samples != [] {
      if 0.37 <= samples[0] <= 0.53 {
        DeadBand(isDark, samples[0]);
        FlipNeedsSampleOutsideBand(isDark, samples[1..]);
        var i :| 0 <= i < |samples[1..]| && (samples[1..][i] < 0.37 || samples[1..][i] > 0.53);
        assert samples[i + 1] == samples[1..][i];
      }
    }
  }

  /** The interpolation scalar's target: 1 in dark mode, 0 in light mode. */
  function ColorTarget(isDark: bool): real { if isDark then 1.0 else 0.0 }

  /** One frame of colour smoothing: 0.35 of the way toward the mode's value. */
  function ColorStep(t: real, isDark: bool): (t': real)
    ensures 0.0 <= t <= 1.0 ==> 0.0 <= t' <= 1.0
    ensures Abs(ColorTarget(isDark) - t') == 0.65 * Abs(ColorTarget(isDark) - t)
    ensures t != ColorTarget(isDark) ==> t' != ColorTarget(isDark)
  {
    LerpDistance(t, ColorTarget(isDark), TransitionSpeed);
    Lerp(t, ColorTarget(isDark), TransitionSpeed)
  }

  /** d shrunk n times by the factor 0.65 (that is, 0.65^n * d). */
  function Shrunk(d: real, n: nat): real
  {
    if n == 0 then d else 0.65 * Shrunk(d, n - 1)
  }

  /** The scalar after n frames in one mode, starting from t. */
  function ColorAfter(t: real, isDark: bool, n: nat): real
  {
    if n == 0 then t else ColorStep(ColorAfter(t, isDark, n - 1), isDark)
  }

  /** Approach is geometric: after n frames the distance to the target is 0.65^n of what it was. */
  lemma {:induction false} ColorConvergence(t: real, isDark: bool, n: nat)
    ensures Abs(ColorTarget(isDark) - ColorAfter(t, isDark, n))
         == Shrunk(Abs(ColorTarget(isDark) - t), n)
  {
    if n > 0 {
      ColorConvergence(t, isDark, n - 1);
    }
  }
}
