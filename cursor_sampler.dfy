// Luminance sampling under the pointer (components/GPUCursor.tsx,
// sampleLuminance and sampleMediaElement). The browser is replaced by its
// answers: the hit stack of elementsFromPoint becomes a list of layers, each
// with its computed background colour already classified by the two
// patterns the source matches it against, and each media element with the
// 5x5 RGBA read-back of its canvas copy (or the failure of that read-back).

module CursorSampler {
  import opened Common
  import opened CursorColor

  type Byte = x: int | 0 <= x < 256

  /**
   * A computed background-color string, as far as the source's patterns see it:
   * "rgb(r, g, b)", "rgba(r, g, b, a)", or anything else. The patterns
   * accept only digits and dots, so every number is non-negative.
   */
  datatype CssColor =
    | Rgb(r: nat, g: nat, b: nat)
    | Rgba(r: nat, g: nat, b: nat, a: real)
    | Unmatched

  /** What the canvas read-back of a media element produced. */
  datatype ReadBack =
    | Pixels(data: seq<Byte>)   // getImageData's RGBA bytes
    | ReadFailed                // drawImage or getImageData threw (cross-origin, ...)

  /** An image, video or canvas element: its bounding box and its read-back. */
  datatype Media = Media(rect: Rect, readBack: ReadBack)

  /** One element of the hit stack, front-most first. */
  datatype Layer = Layer(isCursorPart: bool, media: Option<Media>, background: CssColor)

  /** The running weighted sum of the walk: Σ luminance·alpha and Σ alpha. */
  datatype Acc = Acc(total: real, weight: real)

  // ---------------------------------------------------------------- media

  /** Pixel i (a byte offset) counts: its alpha byte exists and alpha/255 > 0.1. */
  predicate PixelCounts(data: seq<Byte>, i: nat)
  {
    i + 3 < |data| && data[i + 3] as real / 255.0 > MinAlpha
  }

  /** Sum of the luminances of the counting pixels at offsets i, i+4, ... */
  function PixelSum(data: seq<Byte>, i: nat): (s: real)
    ensures 0.0 <= s <= PixelCount(data, i) as real
    decreases |data| - i
  {
    if i >= |data| then 0.0
    else (if PixelCounts(data, i) then Luminance(data[i], data[i + 1], data[i + 2]) else 0.0)
         + PixelSum(data, i + 4)
  }

  /** Number of counting pixels at offsets i, i+4, ... */
  function PixelCount(data: seq<Byte>, i: nat): nat
    decreases |data| - i
  {
    if i >= |data| then 0 else (if PixelCounts(data, i) then 1 else 0) + PixelCount(data, i + 4)
  }

  /** The count is zero exactly when no pixel from offset i on counts. */
  lemma {:induction false} PixelCountZero(data: seq<Byte>, i: nat)
    ensures PixelCount(data, i) == 0 <==> forall k: nat :: i <= k < |data| && (k - i) % 4 == 0 ==> !PixelCounts(data, k)
    decreases |data| - i
  {
    if i < |data| {
      PixelCountZero(data, i + 4);
    }
  }

  /** A sum between 0 and a positive count, divided by that count, lies in [0, 1]. */
  lemma MeanInUnit(sum: real, count: nat)
    requires 0.0 <= sum <= count as real && count > 0
    ensures 0.0 <= sum / count as real <= 1.0
  {
  }

  /**
   * The specification of sampleMediaElement: null without a 2-D context,
   * outside the element's box, when the read-back fails, or when no pixel
   * is opaque enough; otherwise the unweighted mean pixel luminance.
   */
  function MediaLuminance(m: Media, x: real, y: real, hasContext: bool): (r: Option<real>)
    ensures r.Some? ==> 0.0 <= r.value <= 1.0
  {
    if !hasContext then None
    else if x < m.rect.left || x > m.rect.right || y < m.rect.top || y > m.rect.bottom then None
    else match m.readBack
      case ReadFailed => None
      case Pixels(data) =>
        var n := PixelCount(data, 0);
        if n > 0 then MeanInUnit(PixelSum(data, 0), n); Some(PixelSum(data, 0) / n as real)
        else None
  }

  /** The loop over the RGBA bytes of one read-back, four at a time. */
  method MeanPixelLuminance(data: seq<Byte>) returns (r: Option<real>)
    ensures r.None? <==> forall k: nat :: k < |data| && k % 4 == 0 ==> !PixelCounts(data, k)
    ensures r.None? <==> PixelCount(data, 0) == 0
    ensures r.Some? ==> PixelCount(data, 0) > 0 && r.value == PixelSum(data, 0) / PixelCount(data, 0) as real
    ensures r.Some? ==> 0.0 <= r.value <= 1.0
  {
    var total := 0.0;
    var count: nat := 0;
    var i: nat := 0;
    while i < |data|
      invariant total + PixelSum(data, i) == PixelSum(data, 0)
      invariant count + PixelCount(data, i) == PixelCount(data, 0)
      decreases |data| - i
    {
      if PixelCounts(data, i) {
        total := total + Luminance(data[i], data[i + 1], data[i + 2]);
        count := count + 1;
      }
      i := i + 4;
    }
    PixelCountZero(data, 0);
    if count > 0 {
      MeanInUnit(PixelSum(data, 0), count);
      r := Some(total / count as real);
    } else {
      r := None;
    }
  }

  /** sampleMediaElement: the guards, then the pixel loop. */
  method SampleMedia(m: Media, x: real, y: real, hasContext: bool) returns (r: Option<real>)
    ensures r == MediaLuminance(m, x, y, hasContext)
  {
    if !hasContext {
      return None;
    }
    if x < m.rect.left || x > m.rect.right || y < m.rect.top || y > m.rect.bottom {
      return None;
    }
    match m.readBack {
      case ReadFailed => r := None;
      case Pixels(data) => r := MeanPixelLuminance(data);
    }
  }

  // ---------------------------------------------------------------- backgrounds

  /** The first pattern: channels and alpha (1 when the alpha group is absent). */
  function Channels(c: CssColor): Option<(nat, nat, nat, real)>
  {
    match c
    case Rgb(r, g, b) => Some((r, g, b, 1.0))
    case Rgba(r, g, b, a) => Some((r, g, b, a))
    case Unmatched => None
  }

  /**
   * The second pattern takes the last number before ")" as the alpha: for
   * "rgb(r, g, b)" that is the blue channel; without a match the alpha is 1.
   */
  function StopAlpha(c: CssColor): (a: real)
    // rgba() and unmatched colours: the same alpha the accumulation uses
    ensures c.Rgba? ==> a == Channels(c).value.3
    ensures c.Unmatched? ==> a >= OpaqueThreshold
    // rgb(): opaque for the stop check exactly when its blue channel is not 0
    ensures c.Rgb? ==> (a >= OpaqueThreshold <==> c.b >= 1)
  {
    match c
    case Rgb(_, _, b) => b as real
    case Rgba(_, _, _, a) => a
    case Unmatched => 1.0
  }

  /** A layer adds luminance·alpha and alpha when its alpha exceeds 0.1. */
  function Accumulate(acc: Acc, c: CssColor): (acc': Acc)
    ensures Channels(c).Some? && Channels(c).value.3 > MinAlpha ==>
      acc'.weight == acc.weight + Channels(c).value.3 && acc'.weight > acc.weight
    ensures !(Channels(c).Some? && Channels(c).value.3 > MinAlpha) ==> acc' == acc
  {
    match Channels(c)
    case Some((r, g, b, a)) =>
      if a > MinAlpha then Acc(acc.total + Luminance(r, g, b) * a, acc.weight + a) else acc
    case None => acc
  }

  /** The walk stops after a layer whose second-pattern alpha is at least 0.95, once something was sampled. */
  predicate Stops(c: CssColor, acc: Acc): (s: bool)
    ensures s ==> acc.weight > 0.0
    ensures c.Rgb? && c.b == 0 ==> !s
  {
    StopAlpha(c) >= OpaqueThreshold && acc.weight > 0.0
  }

  /** The weighted mean, or 0.9 when nothing was sampled. */
  function Finish(acc: Acc): (r: real)
    ensures acc.weight <= 0.0 ==> r == DefaultLuminance
    // the mean of all-black samples is 0 and of all-white samples 1
    ensures acc.weight > 0.0 && acc.total == 0.0 ==> r == 0.0
    ensures acc.weight > 0.0 && acc.total == acc.weight ==> r == 1.0
  {
    if acc.weight > 0.0 then assert acc.weight / acc.weight == 1.0; acc.total / acc.weight else DefaultLuminance
  }

  /** The media reading of a layer, if it is a media element. */
  function MediaOf(l: Layer, x: real, y: real, hasContext: bool): Option<real>
  {
    if l.media.Some? then MediaLuminance(l.media.value, x, y, hasContext) else None
  }

  /** Every layer of the stack is one of the cursor's own elements. */
  predicate AllCursorParts(layers: seq<Layer>)
  {
    forall i :: 0 <= i < |layers| ==> layers[i].isCursorPart
  }

  /** The specification of sampleLuminance, walking the hit stack from the front. */
  function Walk(layers: seq<Layer>, x: real, y: real, hasContext: bool, acc: Acc): real
    decreases |layers|
  {
    if layers == [] then Finish(acc)
    else
      var l := layers[0];
      if l.isCursorPart then Walk(layers[1..], x, y, hasContext, acc)
      else
        var m := MediaOf(l, x, y, hasContext);
        if m.Some? then m.value
        else
          var acc' := Accumulate(acc, l.background);
          if Stops(l.background, acc') then Finish(acc')
          else Walk(layers[1..], x, y, hasContext, acc')
  }

  function SampledLuminance(layers: seq<Layer>, x: real, y: real, hasContext: bool): real
  {
    Walk(layers, x, y, hasContext, Acc(0.0, 0.0))
  }

  /** sampleLuminance: the loop over the hit stack with its early exits. */
  method SampleLuminance(layers: seq<Layer>, x: real, y: real, hasContext: bool) returns (lum: real)
    ensures lum == SampledLuminance(layers, x, y, hasContext)
  {
    var total := 0.0;
    var weight := 0.0;
    var i := 0;
    while i < |layers|
      invariant 0 <= i <= |layers|
      invariant Walk(layers[i..], x, y, hasContext, Acc(total, weight)) == SampledLuminance(layers, x, y, hasContext)
    {
      var l := layers[i];
      assert layers[i..][1..] == layers[i + 1..];
      if l.isCursorPart {
        i := i + 1;
        continue;
      }
      if l.media.Some? {
        var m := SampleMedia(l.media.value, x, y, hasContext);
        if m.Some? {
          return m.value;
        }
      }
      ghost var before := Acc(total, weight);
      match Channels(l.background) {
        case Some((r, g, b, a)) =>
          if a > MinAlpha {
            var lumLayer := Luminance(r, g, b);
            total := total + lumLayer * a;
            weight := weight + a;
          }
        case None =>
      }
      assert Acc(total, weight) == Accumulate(before, l.background);
      if StopAlpha(l.background) >= OpaqueThreshold && weight > 0.0 {
        break;
      }
      i := i + 1;
    }
    lum := if weight > 0.0 then total / weight else DefaultLuminance;
  }

  /** A stack of nothing but the cursor's own elements reads as the running mean. */
  lemma {:induction false} CursorPartsOnly(layers: seq<Layer>, x: real, y: real, hasContext: bool, acc: Acc)
    requires AllCursorParts(layers)
    ensures Walk(layers, x, y, hasContext, acc) == Finish(acc)
    decreases |layers|
  {
    if layers != [] {
      assert AllCursorParts(layers[1..]) by {
        forall i | 0 <= i < |layers[1..]|
          ensures layers[1..][i].isCursorPart
        {
          assert layers[1..][i] == layers[i + 1];
        }
      }
      CursorPartsOnly(layers[1..], x, y, hasContext, acc);
    }
  }

  // ---------------------------------------------------------------- properties

  /** A background the source can actually see: channels 0..255. */
  predicate WellFormedColor(c: CssColor)
  {
    match c
    case Rgb(r, g, b) => r <= 255 && g <= 255 && b <= 255
    case Rgba(r, g, b, a) => r <= 255 && g <= 255 && b <= 255 && a >= 0.0
    case Unmatched => true
  }

  /** 0 <= total <= weight: the running sum is a weighted sum of values in [0, 1]. */
  predicate Bounded(acc: Acc)
  {
    0.0 <= acc.total <= acc.weight
  }

  /** A value in [0, 1] weighted by a >= 0 lies in [0, a]. */
  lemma WeightedBetween(lum: real, a: real)
    requires 0.0 <= lum <= 1.0 && a >= 0.0
    ensures 0.0 <= lum * a <= a
  {
    MulNonNeg(lum, a);
    MulNonNeg(1.0 - lum, a);
  }

  lemma AccumulateBounded(acc: Acc, c: CssColor)
    requires Bounded(acc) && WellFormedColor(c)
    ensures Bounded(Accumulate(acc, c))
  {
    match c
    case Rgb(r, g, b) =>
      var lum := Luminance(r, g, b);
      assert Bounded(Acc(acc.total + lum * 1.0, acc.weight + 1.0)) by { AddWeighted(acc, lum, 1.0); }
      assert Accumulate(acc, c) == Acc(acc.total + lum * 1.0, acc.weight + 1.0);
    case Rgba(r, g, b, a) =>
      if a > MinAlpha {
        var lum := Luminance(r, g, b);
        assert Bounded(Acc(acc.total + lum * a, acc.weight + a)) by { AddWeighted(acc, lum, a); }
        assert Accumulate(acc, c) == Acc(acc.total + lum * a, acc.weight + a);
      }
    case Unmatched =>
  }

  /** Adding a weighted value in [0, 1] keeps the running sum bounded. */
  lemma AddWeighted(acc: Acc, lum: real, a: real)
    requires Bounded(acc) && 0.0 <= lum <= 1.0 && a >= 0.0
    ensures Bounded(Acc(acc.total + lum * a, acc.weight + a))
  {
    WeightedBetween(lum, a);
  }

  lemma FinishInUnit(acc: Acc)
    requires Bounded(acc)
    ensures 0.0 <= Finish(acc) <= 1.0
  {
    if acc.weight > 0.0 {
      assert acc.total / acc.weight <= acc.weight / acc.weight;
    }
  }

  /** The sample always lies in [0, 1], whether it comes from media, a weighted mean or the default. */
  lemma {:induction false} WalkInUnit(layers: seq<Layer>, x: real, y: real, hasContext: bool, acc: Acc)
    requires Bounded(acc)
    requires forall i :: 0 <= i < |layers| ==> WellFormedColor(layers[i].background)
    ensures 0.0 <= Walk(layers, x, y, hasContext, acc) <= 1.0
    decreases |layers|
  {
    if layers == [] {
      FinishInUnit(acc);
    } else {
      var l := layers[0];
      if l.isCursorPart {
        WalkInUnit(layers[1..], x, y, hasContext, acc);
      } else if MediaOf(l, x, y, hasContext).None? {
        var acc' := Accumulate(acc, l.background);
        AccumulateBounded(acc, l.background);
        FinishInUnit(acc');
        WalkInUnit(layers[1..], x, y, hasContext, acc');
      }
    }
  }

  lemma SampledInUnit(layers: seq<Layer>, x: real, y: real, hasContext: bool)
    requires forall i :: 0 <= i < |layers| ==> WellFormedColor(layers[i].background)
    ensures 0.0 <= SampledLuminance(layers, x, y, hasContext) <= 1.0
  {
    WalkInUnit(layers, x, y, hasContext, Acc(0.0, 0.0));
  }

  /** A layer that contributes nothing: a cursor part, or no media reading and a background of alpha <= 0.1. */
  predicate Silent(l: Layer, x: real, y: real, hasContext: bool)
  {
    l.isCursorPart ||
    (MediaOf(l, x, y, hasContext).None? &&
     (Channels(l.background).None? || Channels(l.background).value.3 <= MinAlpha))
  }

  /** When no layer contributes, the sampler answers the light-background default 0.9. */
  lemma {:induction false} SilentStackGivesDefault(layers: seq<Layer>, x: real, y: real, hasContext: bool)
    requires forall i :: 0 <= i < |layers| ==> Silent(layers[i], x, y, hasContext)
    ensures SampledLuminance(layers, x, y, hasContext) == DefaultLuminance
    decreases |layers|
  {
    if layers != [] {
      assert Silent(layers[0], x, y, hasContext);
      SilentStackGivesDefault(layers[1..], x, y, hasContext);
    }
  }

  /** The hit stack without the cursor's own dot and ring. */
  function WithoutCursor(layers: seq<Layer>): (r: seq<Layer>)
    ensures |r| <= |layers|
    ensures forall i :: 0 <= i < |r| ==> !r[i].isCursorPart
  {
    if layers == [] then []
    else if layers[0].isCursorPart then WithoutCursor(layers[1..])
    else [layers[0]] + WithoutCursor(layers[1..])
  }

  /** The cursor's own elements have no effect on the sample: it is as if they were absent. */
  lemma {:induction false} CursorIsTransparent(layers: seq<Layer>, x: real, y: real, hasContext: bool, acc: Acc)
    ensures Walk(layers, x, y, hasContext, acc) == Walk(WithoutCursor(layers), x, y, hasContext, acc)
    decreases |layers|
  {
    if layers != [] {
      var rest := WithoutCursor(layers[1..]);
      if !layers[0].isCursorPart {
        assert ([layers[0]] + rest)[1..] == rest;
        var m := MediaOf(layers[0], x, y, hasContext);
        if m.None? {
          CursorIsTransparent(layers[1..], x, y, hasContext, Accumulate(acc, layers[0].background));
        }
      } else {
        CursorIsTransparent(layers[1..], x, y, hasContext, acc);
      }
    }
  }

  /**
   * A decisive layer ends the walk: a media element that yields a reading,
   * or a background that is sampled (alpha > 0.1) and whose stop alpha is
   * at least 0.95.
   */
  predicate Decisive(l: Layer, x: real, y: real, hasContext: bool)
  {
    !l.isCursorPart &&
    (MediaOf(l, x, y, hasContext).Some? ||
     (Channels(l.background).Some? && Channels(l.background).value.3 > MinAlpha &&
      StopAlpha(l.background) >= OpaqueThreshold))
  }

  /** Whatever lies below a decisive layer is never consulted. */
  lemma {:induction false} BelowDecisiveIgnored(above: seq<Layer>, l: Layer, below1: seq<Layer>, below2: seq<Layer>,
                                                x: real, y: real, hasContext: bool, acc: Acc)
    requires Decisive(l, x, y, hasContext) && acc.weight >= 0.0
    requires forall i :: 0 <= i < |above| ==> WellFormedColor(above[i].background)
    ensures Walk(above + [l] + below1, x, y, hasContext, acc) == Walk(above + [l] + below2, x, y, hasContext, acc)
    decreases |above|
  {
    if above == [] {
      assert ([l] + below1)[1..] == below1;
      assert ([l] + below2)[1..] == below2;
    } else {
      var s1 := above + [l] + below1;
      var s2 := above + [l] + below2;
      assert s1[0] == above[0] && s2[0] == above[0];
      assert s1[1..] == above[1..] + [l] + below1;
      assert s2[1..] == above[1..] + [l] + below2;
      if above[0].isCursorPart {
        BelowDecisiveIgnored(above[1..], l, below1, below2, x, y, hasContext, acc);
      } else if MediaOf(above[0], x, y, hasContext).None? {
        var acc' := Accumulate(acc, above[0].background);
        BelowDecisiveIgnored(above[1..], l, below1, below2, x, y, hasContext, acc');
      }
    }
  }

  /** An opaque "rgb(r, g, b)" background stops the walk exactly when its blue channel is not 0. */
  lemma OpaqueRgbStopsIffBlue(r: nat, g: nat, b: nat, acc: Acc)
    requires acc.weight >= 0.0
    ensures Stops(Rgb(r, g, b), Accumulate(acc, Rgb(r, g, b))) <==> b >= 1
  {
  }

  /** An opaque black layer alone samples as black. */
  lemma OpaqueBlackAlone()
    ensures SampledLuminance([Layer(false, None, Rgb(0, 0, 0))], 0.0, 0.0, true) == 0.0
  {
    var black := Layer(false, None, Rgb(0, 0, 0));
    assert Luminance(0, 0, 0) == 0.0;
    var acc := Accumulate(Acc(0.0, 0.0), black.background);
    assert acc == Acc(0.0, 1.0);
    assert !Stops(black.background, acc);
    assert Walk([black], 0.0, 0.0, true, Acc(0.0, 0.0)) == Walk([], 0.0, 0.0, true, acc);
  }

  /**
   * Consequence of the stop rule: an opaque black layer does not hide a
   * white one below it, and the pair samples 0.5.
   */
  lemma OpaqueBlackLetsWhiteThrough()
    ensures SampledLuminance([Layer(false, None, Rgb(0, 0, 0)), Layer(false, None, Rgb(255, 255, 255))], 0.0, 0.0, true) == 0.5
  {
    var black := Layer(false, None, Rgb(0, 0, 0));
    var white := Layer(false, None, Rgb(255, 255, 255));
    assert [black, white][1..] == [white];
    var acc1 := Accumulate(Acc(0.0, 0.0), black.background);
    assert acc1 == Acc(0.0, 1.0);
    assert !Stops(black.background, acc1);
    var acc2 := Accumulate(acc1, white.background);
    assert Luminance(255, 255, 255) == 1.0;
    assert acc2 == Acc(1.0, 2.0);
    assert Stops(white.background, acc2);
    assert Walk([white], 0.0, 0.0, true, acc1) == Finish(acc2);
  }

  /** With blue 1 instead of 0 the same layer does stop the walk. */
  lemma OpaqueNearBlackHidesWhite()
    ensures SampledLuminance([Layer(false, None, Rgb(0, 0, 1)), Layer(false, None, Rgb(255, 255, 255))], 0.0, 0.0, true)
         == Luminance(0, 0, 1)
  {
    var acc1 := Accumulate(Acc(0.0, 0.0), Rgb(0, 0, 1));
    assert acc1 == Acc(Luminance(0, 0, 1), 1.0);
    assert Stops(Rgb(0, 0, 1), acc1);
  }
}
