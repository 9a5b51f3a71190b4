// The cursor engine's state and its two entry points (components/GPUCursor.tsx):
// the pointer-move handler with its sticky hover detection, and one frame of
// the animation loop. The closure variables of the effect become the fields
// of class Cursor; the DOM queries become inputs (the hit stack under the
// pointer, the hit stack under the dot) and Math.hypot becomes a distance
// passed in together with the equation it satisfies. The style writes and the
// requestAnimationFrame scheduling are not modelled.

module CursorEngine {
  import opened Common
  import opened CursorColor
  import opened CursorMotion
  import opened CursorSampler

  /** Extra margin, in pixels, around a latched element's box. */
  const HoverPadding: real := 2.0

  /** An element of the page, identified by id, with its bounding box. */
  datatype Element = Element(id: nat, rect: Rect)

  /**
   * One element of elementsFromPoint for the interactive-selector query:
   * whether it matches the selector itself, and the nearest ancestor that
   * does (el.closest), if any.
   */
  datatype Hit = Hit(el: Element, matches: bool, closest: Option<Element>)

  /** isWithinBounds: the point lies in the box grown by the padding on every side. */
  predicate IsWithinBounds(x: real, y: real, b: Rect): (w: bool)
    // the element's own box, whatever the padding, keeps the latch
    ensures b.left <= x <= b.right && b.top <= y <= b.bottom ==> w
  {
    x >= b.left - HoverPadding && x <= b.right + HoverPadding &&
    y >= b.top - HoverPadding && y <= b.bottom + HoverPadding
  }

  /** A point inside the box, or on a 2 px ring around it, keeps the latch; one further out loses it. */
  lemma WithinBoundsMargin(x: real, y: real, b: Rect)
    ensures b.left <= x <= b.right && b.top <= y <= b.bottom ==> IsWithinBounds(x, y, b)
    ensures x < b.left - HoverPadding || x > b.right + HoverPadding ==> !IsWithinBounds(x, y, b)
    ensures y < b.top - HoverPadding || y > b.bottom + HoverPadding ==> !IsWithinBounds(x, y, b)
  {
  }

  /** The centre the magnet pulls toward: left + width/2, top + height/2. */
  function Midpoint(r: Rect): (c: Vec2)
    ensures c.x - r.left == r.right - c.x && c.y - r.top == r.bottom - c.y
    ensures r.left <= r.right ==> r.left <= c.x <= r.right
    ensures r.top <= r.bottom ==> r.top <= c.y <= r.bottom
  {
    Vec2(r.left + r.Width() / 2.0, r.top + r.Height() / 2.0)
  }

  /** What a hit offers: itself if it matches, otherwise its closest matching ancestor. */
  function Candidate(h: Hit): Option<Element>
  {
    if h.matches then Some(h.el) else h.closest
  }

  /** Hit i offers a candidate and no hit in front of it does. */
  predicate FrontMost(hits: seq<Hit>, i: int)
  {
    0 <= i < |hits| && Candidate(hits[i]).Some? &&
    forall j :: 0 <= j < i ==> Candidate(hits[j]).None?
  }

  /** The interactive element under the point: the candidate of the front-most hit that has one. */
  function FirstInteractive(hits: seq<Hit>): (r: Option<Element>)
    ensures r.None? <==> forall i :: 0 <= i < |hits| ==> Candidate(hits[i]).None?
    ensures r.Some? ==> exists i :: FrontMost(hits, i) && r == Candidate(hits[i])
    decreases |hits|
  {
    if hits == [] then None
    else if Candidate(hits[0]).Some? then
      assert FrontMost(hits, 0);
      Candidate(hits[0])
    else
      var r := FirstInteractive(hits[1..]);
      if r.Some? then
        var i :| FrontMost(hits[1..], i) && r == Candidate(hits[1..][i]);
        assert FrontMost(hits, i + 1);
        r
      else r
  }

  /** findInteractiveElement: the loop over the hit stack, returning at the first candidate. */
  method FindInteractiveElement(hits: seq<Hit>) returns (r: Option<Element>)
    ensures r == FirstInteractive(hits)
  {
    var i := 0;
    while i < |hits|
      invariant 0 <= i <= |hits|
      invariant FirstInteractive(hits[i..]) == FirstInteractive(hits)
    {
      assert hits[i..][1..] == hits[i + 1..];
      if hits[i].matches {
        return Some(hits[i].el);
      }
      if hits[i].closest.Some? {
        return hits[i].closest;
      }
      i := i + 1;
    }
    assert hits[i..] == [];
    return None;
  }

  /** The closure state of the cursor effect. */
  class Cursor {
    var target: Vec2
    var prevTarget: Vec2
    var velocity: Vec2
    var dotPos: Vec2
    var ringPos: Vec2

    var hoverElement: Option<Element>
    var hoverBounds: Option<Rect>
    var hoverCenter: Option<Vec2>

    var dotScale: real
    var ringScale: real
    var isHovering: bool

    var isDarkMode: bool
    var colorT: real

    var prevSpeed: real

    /** Whether the offscreen sampling canvas produced a 2-D context. */
    const hasContext: bool

    /**
     * The colour scalar stays in [0, 1], both scales stay within reach of
     * their targets, and the hover fields are all set (with the centre at the
     * midpoint of the bounds, and isHovering true) or all clear.
     */
    predicate Valid()
      reads this
    {
      && 0.0 <= colorT <= 1.0
      && HoverDotScale <= dotScale <= 1.03
      && 0.97 <= ringScale <= HoverRingScale
      && prevSpeed >= 0.0
      && (hoverElement.Some? <==> hoverBounds.Some?)
      && (hoverBounds.Some? <==> hoverCenter.Some?)
      && (isHovering <==> hoverElement.Some?)
      && (hoverBounds.Some? ==> hoverCenter.value == Midpoint(hoverBounds.value))
    }

    /** The effect's initialisation: everything at the viewport centre, light mode, no hover. */
    constructor (innerWidth: real, innerHeight: real, hasContext: bool)
      ensures Valid()
      ensures target == Vec2(innerWidth / 2.0, innerHeight / 2.0)
      ensures prevTarget == target && dotPos == target && ringPos == target
      ensures velocity == Vec2(0.0, 0.0) && prevSpeed == 0.0
      ensures hoverElement.None? && hoverBounds.None? && hoverCenter.None? && !isHovering
      ensures dotScale == 1.0 && ringScale == 1.0
      ensures !isDarkMode && colorT == 0.0
      ensures this.hasContext == hasContext
    {
      target := Vec2(innerWidth / 2.0, innerHeight / 2.0);
      prevTarget := Vec2(innerWidth / 2.0, innerHeight / 2.0);
      velocity := Vec2(0.0, 0.0);
      dotPos := Vec2(innerWidth / 2.0, innerHeight / 2.0);
      ringPos := Vec2(innerWidth / 2.0, innerHeight / 2.0);
      hoverElement := None;
      hoverBounds := None;
      hoverCenter := None;
      dotScale := 1.0;
      ringScale := 1.0;
      isHovering := false;
      isDarkMode := false;
      colorT := 0.0;
      prevSpeed := 0.0;
      this.hasContext := hasContext;
    }

    /**
     * updateHoverState. hits is the hit stack at (x, y). A latch survives
     * while the point stays within the padded bounds; otherwise it is cleared
     * and the front-most interactive element, if any, is latched afresh.
     */
    method UpdateHoverState(x: real, y: real, hits: seq<Hit>)
      requires Valid()
      modifies this
      ensures Valid()
      ensures target == old(target) && prevTarget == old(prevTarget) && velocity == old(velocity)
      ensures dotPos == old(dotPos) && ringPos == old(ringPos) && prevSpeed == old(prevSpeed)
      ensures dotScale == old(dotScale) && ringScale == old(ringScale)
      ensures isDarkMode == old(isDarkMode) && colorT == old(colorT)
      // sticky: inside the padded bounds nothing changes
      ensures old(hoverElement).Some? && IsWithinBounds(x, y, old(hoverBounds).value) ==>
        hoverElement == old(hoverElement) && hoverBounds == old(hoverBounds) &&
        hoverCenter == old(hoverCenter) && isHovering == old(isHovering)
      // otherwise the front-most interactive element is latched, or nothing is
      ensures !(old(hoverElement).Some? && IsWithinBounds(x, y, old(hoverBounds).value)) ==>
        hoverElement == FirstInteractive(hits) &&
        (hoverElement.Some? ==> hoverBounds == Some(hoverElement.value.rect) &&
                                hoverCenter == Some(Midpoint(hoverElement.value.rect)) && isHovering) &&
        (hoverElement.None? ==> hoverBounds.None? && hoverCenter.None? && !isHovering)
    {
      if hoverElement.Some? && hoverBounds.Some? {
        if IsWithinBounds(x, y, hoverBounds.value) {
          return;
        }
        hoverElement := None;
        hoverBounds := None;
        hoverCenter := None;
        isHovering := false;
      }
      var interactive := FindInteractiveElement(hits);
      if interactive.Some? {
        var rect := interactive.value.rect;
        hoverElement := interactive;
        hoverBounds := Some(rect);
        hoverCenter := Some(Vec2(rect.left + rect.Width() / 2.0, rect.top + rect.Height() / 2.0));
        isHovering := true;
      }
    }

    /** handlePointerMove: record the pointer as the target, then update the hover latch. */
    method PointerMove(x: real, y: real, hits: seq<Hit>)
      requires Valid()
      modifies this
      ensures Valid()
      ensures target == Vec2(x, y)
      ensures prevTarget == old(prevTarget) && dotPos == old(dotPos) && ringPos == old(ringPos)
      ensures isDarkMode == old(isDarkMode) && colorT == old(colorT)
      ensures dotScale == old(dotScale) && ringScale == old(ringScale)
      ensures velocity == old(velocity) && prevSpeed == old(prevSpeed)
      ensures old(hoverElement).Some? && IsWithinBounds(x, y, old(hoverBounds).value) ==>
        hoverElement == old(hoverElement) && hoverBounds == old(hoverBounds) &&
        hoverCenter == old(hoverCenter) && isHovering == old(isHovering)
      ensures !(old(hoverElement).Some? && IsWithinBounds(x, y, old(hoverBounds).value)) ==>
        hoverElement == FirstInteractive(hits) &&
        (hoverElement.Some? ==> hoverBounds == Some(hoverElement.value.rect) &&
                                hoverCenter == Some(Midpoint(hoverElement.value.rect)) && isHovering) &&
        (hoverElement.None? ==> hoverBounds.None? && hoverCenter.None? && !isHovering)
    {
      target := Vec2(x, y);
      UpdateHoverState(x, y, hits);
    }

    /**
     * One frame of animate, without the style writes. layers is the hit
     * stack under the dot; speed is |target - prevTarget| and dist is the
     * pointer's distance to the latched centre.
     */
    method Animate(layers: seq<Layer>, speed: real, dist: real)
      requires Valid()
      requires IsDistance(speed, target, prevTarget)
      requires dist >= 0.0 && (hoverCenter.Some? ==> IsDistance(dist, target, hoverCenter.value))
      modifies this
      ensures Valid()
      ensures velocity == Vec2(old(target.x - prevTarget.x), old(target.y - prevTarget.y))
      ensures prevTarget == target == old(target) && prevSpeed == speed
      ensures isDarkMode == NextDarkMode(old(isDarkMode), SampledLuminance(layers, old(dotPos.x), old(dotPos.y), hasContext))
      ensures colorT == ColorStep(old(colorT), isDarkMode)
      ensures var e := EffectiveTarget(old(target), old(isHovering), old(hoverCenter), dist);
        && dotPos == Vec2(Lerp(old(dotPos.x), e.x, DotLerp), Lerp(old(dotPos.y), e.y, DotLerp))
        && ringPos == Vec2(Lerp(old(ringPos.x), e.x, RingLerp(speed)), Lerp(old(ringPos.y), e.y, RingLerp(speed)))
      ensures var d := ScaleDelta(speed - old(prevSpeed));
        && dotScale == Lerp(old(dotScale), DotScaleTarget(isHovering, d), DotScaleSpeed)
        && ringScale == Lerp(old(ringScale), RingScaleTarget(isHovering, d), RingScaleSpeed)
      ensures hoverElement == old(hoverElement) && hoverBounds == old(hoverBounds)
      ensures hoverCenter == old(hoverCenter) && isHovering == old(isHovering)
    {
      velocity := Vec2(target.x - prevTarget.x, target.y - prevTarget.y);
      prevTarget := target;
      var acceleration := speed - prevSpeed;
      prevSpeed := speed;
      var sampled := SampleLuminance(layers, dotPos.x, dotPos.y, hasContext);
      UpdateColor(sampled);
      UpdatePositions(speed, dist);
      UpdateScales(acceleration);
    }

    /** The colour section of animate: hysteresis on the sample, then one smoothing step. */
    method UpdateColor(sampled: real)
      requires 0.0 <= colorT <= 1.0
      modifies this
      ensures isDarkMode == NextDarkMode(old(isDarkMode), sampled)
      ensures colorT == ColorStep(old(colorT), isDarkMode) && 0.0 <= colorT <= 1.0
      ensures target == old(target) && prevTarget == old(prevTarget) && velocity == old(velocity)
      ensures dotPos == old(dotPos) && ringPos == old(ringPos) && prevSpeed == old(prevSpeed)
      ensures dotScale == old(dotScale) && ringScale == old(ringScale) && isHovering == old(isHovering)
      ensures hoverElement == old(hoverElement) && hoverBounds == old(hoverBounds) && hoverCenter == old(hoverCenter)
    {
      if isDarkMode {
        if sampled > DarkThreshold + HysteresisBand {
          isDarkMode := false;
        }
      } else {
        if sampled < DarkThreshold - HysteresisBand {
          isDarkMode := true;
        }
      }
      ColorStepInUnit(colorT, isDarkMode);
      colorT := Lerp(colorT, if isDarkMode then 1.0 else 0.0, TransitionSpeed);
    }

    /** The position section of animate: the magnet, then the dot and ring lerps. */
    method UpdatePositions(speed: real, dist: real)
      requires speed >= 0.0
      requires dist >= 0.0 && (hoverCenter.Some? ==> IsDistance(dist, target, hoverCenter.value))
      modifies this
      ensures target == old(target) && prevTarget == old(prevTarget) && velocity == old(velocity)
      ensures prevSpeed == old(prevSpeed) && isDarkMode == old(isDarkMode) && colorT == old(colorT)
      ensures dotScale == old(dotScale) && ringScale == old(ringScale) && isHovering == old(isHovering)
      ensures hoverElement == old(hoverElement) && hoverBounds == old(hoverBounds) && hoverCenter == old(hoverCenter)
      ensures var e := EffectiveTarget(target, isHovering, hoverCenter, dist);
        && dotPos == Vec2(Lerp(old(dotPos.x), e.x, DotLerp), Lerp(old(dotPos.y), e.y, DotLerp))
        && ringPos == Vec2(Lerp(old(ringPos.x), e.x, RingLerp(speed)), Lerp(old(ringPos.y), e.y, RingLerp(speed)))
    {
      var effective := EffectiveTarget(target, isHovering, hoverCenter, dist);
      dotPos := Vec2(Lerp(dotPos.x, effective.x, DotLerp), Lerp(dotPos.y, effective.y, DotLerp));
      var ringLerp := RingLerp(speed);
      ringPos := Vec2(Lerp(ringPos.x, effective.x, ringLerp), Lerp(ringPos.y, effective.y, ringLerp));
    }

    /** The scale section of animate: clamped delta, targets, then one lerp each. */
    method UpdateScales(acceleration: real)
      requires HoverDotScale <= dotScale <= 1.03 && 0.97 <= ringScale <= HoverRingScale
      modifies this
      ensures var d := ScaleDelta(acceleration);
        && dotScale == Lerp(old(dotScale), DotScaleTarget(isHovering, d), DotScaleSpeed)
        && ringScale == Lerp(old(ringScale), RingScaleTarget(isHovering, d), RingScaleSpeed)
      ensures HoverDotScale <= dotScale <= 1.03 && 0.97 <= ringScale <= HoverRingScale
      ensures target == old(target) && prevTarget == old(prevTarget) && velocity == old(velocity)
      ensures dotPos == old(dotPos) && ringPos == old(ringPos) && prevSpeed == old(prevSpeed)
      ensures isDarkMode == old(isDarkMode) && colorT == old(colorT) && isHovering == old(isHovering)
      ensures hoverElement == old(hoverElement) && hoverBounds == old(hoverBounds) && hoverCenter == old(hoverCenter)
    {
      var scaleDelta := ScaleDelta(acceleration);
      var targetDot := DotScaleTarget(isHovering, scaleDelta);
      var targetRing := RingScaleTarget(isHovering, scaleDelta);
      ScalesStayInRange(dotScale, ringScale, isHovering, scaleDelta);
      dotScale := Lerp(dotScale, targetDot, DotScaleSpeed);
      ringScale := Lerp(ringScale, targetRing, RingScaleSpeed);
    }
  }

  /** The colour scalar of a frame is ColorStep of the last one, so it stays in [0, 1]. */
  lemma ColorStepInUnit(t: real, isDark: bool)
    requires 0.0 <= t <= 1.0
    ensures Lerp(t, if isDark then 1.0 else 0.0, TransitionSpeed) == ColorStep(t, isDark)
    ensures 0.0 <= ColorStep(t, isDark) <= 1.0
  {
  }
}
