// Page-to-page swipe navigation (hooks/useSwipeNavigation.ts): the touch
// start refs and the end-of-gesture guard chain that decides whether to push
// the previous or the next page. The guard chain is shared with
// ProjectSwipeShell, which inlines it with a shorter time limit. Date.now is
// a parameter; router.push is recorded as the list of pushed hrefs.

module SwipeNavigation {
  import opened Common

  const HookTimeLimitMs: int := 500
  const MinSwipe: real := 60.0
  const HorizontalRatio: real := 1.2

  /** An optional href counts only when present and non-empty (JavaScript truthiness). */
  predicate Present(href: Option<string>)
  {
    href.Some? && href.value != ""
  }

  /**
   * The guard chain: too slow (dt above the limit), too short (|dx| < 60) or
   * too vertical (|dx| < 1.2·|dy|) pushes nothing; otherwise a rightward
   * swipe pushes prevHref and a leftward one nextHref, when present.
   */
  function SwipePushes(dx: real, dy: real, dt: int, limitMs: int,
                       prevHref: Option<string>, nextHref: Option<string>): (pushes: seq<string>)
    ensures |pushes| <= 1
    ensures dt > limitMs ==> pushes == []
    ensures Abs(dx) < MinSwipe ==> pushes == []
    ensures Abs(dx) < Abs(dy) * HorizontalRatio ==> pushes == []
    ensures pushes != [] <==>
      dt <= limitMs && Abs(dx) >= MinSwipe && Abs(dx) >= Abs(dy) * HorizontalRatio &&
      ((dx > 0.0 && Present(prevHref)) || (dx < 0.0 && Present(nextHref)))
    ensures pushes != [] && dx > 0.0 ==> pushes == [prevHref.value]
    ensures pushes != [] && dx < 0.0 ==> pushes == [nextHref.value]
  {
    if dt > limitMs then []
    else if Abs(dx) < MinSwipe then []
    else if Abs(dx) < Abs(dy) * HorizontalRatio then []
    else
      (if dx > 0.0 && Present(prevHref) then [prevHref.value] else []) +
      (if dx < 0.0 && Present(nextHref) then [nextHref.value] else [])
  }

  /** A gesture that passes a tighter time limit passes a looser one with the same push. */
  lemma LooserLimitKeepsPush(dx: real, dy: real, dt: int, tight: int, loose: int,
                             prevHref: Option<string>, nextHref: Option<string>)
    requires tight <= loose
    requires SwipePushes(dx, dy, dt, tight, prevHref, nextHref) != []
    ensures SwipePushes(dx, dy, dt, loose, prevHref, nextHref) == SwipePushes(dx, dy, dt, tight, prevHref, nextHref)
  {
  }

  /** The limit is inclusive: a 500 ms gesture still navigates, a 501 ms one does not. */
  lemma HookLimitInclusive(prev: string)
    requires prev != ""
    ensures SwipePushes(100.0, 0.0, 500, HookTimeLimitMs, Some(prev), None) == [prev]
    ensures SwipePushes(100.0, 0.0, 501, HookTimeLimitMs, Some(prev), None) == []
  {
  }

  /** The hook's refs and the router's history of pushes. */
  class SwipeNavigator {
    var startX: real
    var startY: real
    var startTime: int
    var pushed: seq<string>
    const prevHref: Option<string>
    const nextHref: Option<string>

    constructor (prevHref: Option<string>, nextHref: Option<string>)
      ensures startX == 0.0 && startY == 0.0 && startTime == 0 && pushed == []
      ensures this.prevHref == prevHref && this.nextHref == nextHref
    {
      startX := 0.0;
      startY := 0.0;
      startTime := 0;
      pushed := [];
      this.prevHref := prevHref;
      this.nextHref := nextHref;
    }

    /** onTouchStart: record where and when the touch began. */
    method TouchStart(x: real, y: real, now: int)
      modifies this
      ensures startX == x && startY == y && startTime == now && pushed == old(pushed)
    {
      startX := x;
      startY := y;
      startTime := now;
    }

    /** onTouchEnd: the guard chain with the hook's 500 ms limit, then at most one push. */
    method TouchEnd(x: real, y: real, now: int)
      modifies this
      ensures startX == old(startX) && startY == old(startY) && startTime == old(startTime)
      ensures pushed == old(pushed) + SwipePushes(x - startX, y - startY, now - startTime, HookTimeLimitMs, prevHref, nextHref)
      ensures |pushed| <= |old(pushed)| + 1
    {
      var dx := x - startX;
      var dy := y - startY;
      var dt := now - startTime;
      if dt > HookTimeLimitMs { return; }
      if Abs(dx) < MinSwipe { return; }
      if Abs(dx) < Abs(dy) * HorizontalRatio { return; }
      if dx > 0.0 && Present(prevHref) {
        pushed := pushed + [prevHref.value];
      }
      if dx < 0.0 && Present(nextHref) {
        pushed := pushed + [nextHref.value];
      }
    }
  }
}
