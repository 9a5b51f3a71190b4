// The cursor's motion rules (components/GPUCursor.tsx, the body of
// animate): the magnetic pull toward a hovered element's centre, the
// speed-dependent ring smoothing and the acceleration-driven scale response.
// Each rule is a function of one frame's inputs; CursorEngine applies them.

module CursorMotion {
  import opened Common
  import opened CursorColor

  const DotLerp: real := 0.22
  const RingBaseLerp: real := 0.10
  const RingMinLerp: real := 0.04
  const LagFactor: real := 0.0008
  const MagnetRange: real := 80.0
  const MagnetMaxStrength: real := 0.35
  const ScaleFactor: real := 0.0003
  const MaxScaleDelta: real := 0.03
  const HoverDotScale: real := 0.7
  const HoverRingScale: real := 1.15
  const DotScaleSpeed: real := 0.12
  const RingScaleSpeed: real := 0.10

  /** x * k for 0 <= k <= 1 lies between 0 and x; k can be any lerp factor here. */
  lemma ScaledDown(x: real, k: real)
    requires x >= 0.0 && 0.0 <= k <= 1.0
    ensures 0.0 <= x * k <= x
  {
    assert x * k <= x * 1.0;
  }

  /** x * k grows with k when x >= 0. */
  lemma ScaleMonotone(x: real, k1: real, k2: real)
    requires x >= 0.0 && k1 <= k2
    ensures x * k1 <= x * k2
  {
    assert x * k2 - x * k1 == x * (k2 - k1);
  }

  /** Pull strength at distance dist from the centre, inside the magnet's range. */
  function MagnetStrength(dist: real): (s: real)
    requires 0.0 <= dist < MagnetRange
    ensures 0.0 < s <= MagnetMaxStrength
  {
    Min(MagnetMaxStrength, ((MagnetRange - dist) / MagnetRange) * MagnetMaxStrength)
  }

  /** The pull grows linearly as the pointer nears the centre. */
  lemma MagnetStrengthGrowsCloser(d1: real, d2: real)
    requires 0.0 <= d1 <= d2 < MagnetRange
    ensures MagnetStrength(d2) <= MagnetStrength(d1)
    ensures MagnetStrength(d1) - MagnetStrength(d2) == (d2 - d1) * MagnetMaxStrength / MagnetRange
  {
  }

  /** d is the Euclidean distance between p and q (Math.hypot of their difference). */
  predicate IsDistance(d: real, p: Vec2, q: Vec2)
  {
    d >= 0.0 && d * d == (p.x - q.x) * (p.x - q.x) + (p.y - q.y) * (p.y - q.y)
  }

  /**
   * The point the dot and ring chase this frame. dist is the distance from
   * the raw pointer to the latched centre (Math.hypot of their difference).
   */
  function EffectiveTarget(target: Vec2, hovering: bool, center: Option<Vec2>, dist: real): (e: Vec2)
    requires dist >= 0.0 && (center.Some? ==> IsDistance(dist, target, center.value))
    ensures !hovering || center.None? || dist >= MagnetRange ==> e == target
    ensures hovering && center.Some? && dist < MagnetRange ==>
      var c := center.value;
      && Abs(c.x - e.x) <= Abs(c.x - target.x) && Abs(c.y - e.y) <= Abs(c.y - target.y)
      && Abs(c.x - e.x) >= 0.65 * Abs(c.x - target.x) && Abs(c.y - e.y) >= 0.65 * Abs(c.y - target.y)
      && (target != c ==> e != target)
  {
    if hovering && center.Some? && dist < MagnetRange then
      var c := center.value;
      var s := MagnetStrength(dist);
      PullTowards(target.x, c.x, s);
      PullTowards(target.y, c.y, s);
      Vec2(Lerp(target.x, c.x, s), Lerp(target.y, c.y, s))
    else target
  }

  /** Along one axis, a pull of strength s in (0, 0.35] moves p toward c by that fraction, never past it. */
  lemma PullTowards(p: real, c: real, s: real)
    requires 0.0 < s <= MagnetMaxStrength
    ensures 0.65 * Abs(c - p) <= Abs(c - Lerp(p, c, s)) <= Abs(c - p)
    ensures p != c ==> Lerp(p, c, s) != p
  {
    LerpMoves(p, c, s);
    LerpDistance(p, c, s);
    RemainingFraction(Abs(c - p), Abs(c - Lerp(p, c, s)), 1.0 - s, 0.65);
  }

  /** d is the fraction k of a, and k is at least lo and at most 1. */
  lemma RemainingFraction(a: real, d: real, k: real, lo: real)
    requires a >= 0.0 && lo <= k <= 1.0 && d == k * a
    ensures lo * a <= d <= a
  {
    ScaleMonotone(a, lo, k);
    ScaleMonotone(a, k, 1.0);
  }

  /** A lerp by a non-zero factor leaves its start point unless it is already at the goal. */
  lemma LerpMoves(p: real, c: real, s: real)
    requires s != 0.0
    ensures p != c ==> Lerp(p, c, s) != p
  {
    assert Lerp(p, c, s) - p == (c - p) * s;
  }

  /** The ring's smoothing factor: slower as the pointer moves faster, never below 0.04. */
  function RingLerp(speed: real): (k: real)
    requires speed >= 0.0
    ensures RingMinLerp <= k <= RingBaseLerp < DotLerp
    ensures speed * LagFactor <= RingBaseLerp - RingMinLerp ==> k == RingBaseLerp - speed * LagFactor
  {
    Max(RingMinLerp, RingBaseLerp - speed * LagFactor)
  }

  /** A faster pointer never makes the ring follow more tightly. */
  lemma RingLerpNonIncreasing(s1: real, s2: real)
    requires 0.0 <= s1 <= s2
    ensures RingLerp(s2) <= RingLerp(s1)
  {
    assert s1 * LagFactor <= s2 * LagFactor;
  }

  /** The per-frame scale change, from the change in speed, clamped to +/- 0.03. */
  function ScaleDelta(acceleration: real): (d: real)
    ensures -MaxScaleDelta <= d <= MaxScaleDelta
    ensures -MaxScaleDelta <= acceleration * ScaleFactor <= MaxScaleDelta ==> d == acceleration * ScaleFactor
    ensures acceleration >= 0.0 ==> d >= 0.0
    ensures acceleration <= 0.0 ==> d <= 0.0
  {
    Clamp(acceleration * ScaleFactor, -MaxScaleDelta, MaxScaleDelta)
  }

  /** The dot's target scale: 0.7 while hovering, otherwise 1 - delta. */
  function DotScaleTarget(hovering: bool, delta: real): (s: real)
    requires -MaxScaleDelta <= delta <= MaxScaleDelta
    ensures hovering ==> s == HoverDotScale
    ensures !hovering ==> 0.97 <= s <= 1.03
    ensures HoverDotScale <= s <= 1.03
  {
    if hovering then HoverDotScale else 1.0 - delta
  }

  /** The ring's target scale: 1.15 while hovering, otherwise 1 + delta. */
  function RingScaleTarget(hovering: bool, delta: real): (s: real)
    requires -MaxScaleDelta <= delta <= MaxScaleDelta
    ensures hovering ==> s == HoverRingScale
    ensures !hovering ==> 0.97 <= s <= 1.03
    ensures 0.97 <= s <= HoverRingScale
  {
    if hovering then HoverRingScale else 1.0 + delta
  }

  /** Without hover, the dot and the ring respond to acceleration in opposite directions. */
  lemma SquashOpposite(delta: real)
    requires -MaxScaleDelta <= delta <= MaxScaleDelta
    ensures DotScaleTarget(false, delta) - 1.0 == 1.0 - RingScaleTarget(false, delta)
    ensures DotScaleTarget(false, delta) < 1.0 <==> RingScaleTarget(false, delta) > 1.0
  {
  }

  /** The dot scale stays in [0.7, 1.03] and the ring scale in [0.97, 1.15] from frame to frame. */
  lemma ScalesStayInRange(dotScale: real, ringScale: real, hovering: bool, delta: real)
    requires -MaxScaleDelta <= delta <= MaxScaleDelta
    requires HoverDotScale <= dotScale <= 1.03 && 0.97 <= ringScale <= HoverRingScale
    ensures HoverDotScale <= Lerp(dotScale, DotScaleTarget(hovering, delta), DotScaleSpeed) <= 1.03
    ensures 0.97 <= Lerp(ringScale, RingScaleTarget(hovering, delta), RingScaleSpeed) <= HoverRingScale
  {
  }

  /**
   * Along one axis: if the ring is at least as far from the chased point as
   * the dot, it still is after the frame, because the ring's factor (at most
   * 0.10) is below the dot's 0.22.
   */
  lemma RingLagsDot(dot: real, ring: real, goal: real, speed: real)
    requires speed >= 0.0
    requires Abs(goal - ring) >= Abs(goal - dot)
    ensures Abs(goal - Lerp(ring, goal, RingLerp(speed))) >= Abs(goal - Lerp(dot, goal, DotLerp))
  {
    var k := RingLerp(speed);
    LerpDistance(ring, goal, k);
    LerpDistance(dot, goal, DotLerp);
    RemainingFraction(Abs(goal - ring), Abs(goal - Lerp(ring, goal, k)), 1.0 - k, 0.78);
  }

  /** The dot's position after one frame per entry of goals. */
  function DotAfter(dot: real, goals: seq<real>): real
    decreases |goals|
  {
    if goals == [] then dot else DotAfter(Lerp(dot, goals[0], DotLerp), goals[1..])
  }

  /** The ring's position after one frame per entry of goals, at the given speeds. */
  function RingAfter(ring: real, goals: seq<real>, speeds: seq<real>): real
    requires |speeds| == |goals| && forall i :: 0 <= i < |speeds| ==> speeds[i] >= 0.0
    decreases |goals|
  {
    if goals == [] then ring else RingAfter(Lerp(ring, goals[0], RingLerp(speeds[0])), goals[1..], speeds[1..])
  }

  /**
   * Ring lag over many frames: chasing a fixed point, a ring that starts no
   * closer than the dot is never closer than the dot, whatever the speeds.
   */
  lemma {:induction false} RingNeverOvertakes(dot: real, ring: real, goal: real, n: nat, speeds: seq<real>)
    requires |speeds| == n && forall i :: 0 <= i < n ==> speeds[i] >= 0.0
    requires Abs(goal - ring) >= Abs(goal - dot)
    decreases n
    ensures Abs(goal - RingAfter(ring, seq(n, _ => goal), speeds)) >= Abs(goal - DotAfter(dot, seq(n, _ => goal)))
  {
    if n > 0 {
      var goals := seq(n, _ => goal);
      RingLagsDot(dot, ring, goal, speeds[0]);
      assert goals[1..] == seq(n - 1, _ => goal);
      RingNeverOvertakes(Lerp(dot, goal, DotLerp), Lerp(ring, goal, RingLerp(speeds[0])), goal, n - 1, speeds[1..]);
    }
  }
}
