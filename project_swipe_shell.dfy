// The project page's swipe wrapper (components/ProjectSwipeShell.tsx): the
// same touch refs and guard chain as the swipe-navigation hook, written
// inline with a 400 ms limit instead of 500 ms.

module ProjectSwipeShell {
  import opened Common
  import opened SwipeNavigation

  const ShellTimeLimitMs: int := 400

  /** Every push the shell makes, the hook would make too; the converse fails for 400 < dt <= 500. */
  lemma ShellStricterThanHook(dx: real, dy: real, dt: int, prevHref: Option<string>, nextHref: Option<string>)
    ensures SwipePushes(dx, dy, dt, ShellTimeLimitMs, prevHref, nextHref) != [] ==>
      SwipePushes(dx, dy, dt, HookTimeLimitMs, prevHref, nextHref) == SwipePushes(dx, dy, dt, ShellTimeLimitMs, prevHref, nextHref)
    ensures 400 < dt <= 500 ==> SwipePushes(dx, dy, dt, ShellTimeLimitMs, prevHref, nextHref) == []
  {
    if SwipePushes(dx, dy, dt, ShellTimeLimitMs, prevHref, nextHref) != [] {
      LooserLimitKeepsPush(dx, dy, dt, ShellTimeLimitMs, HookTimeLimitMs, prevHref, nextHref);
    }
  }

  /** A 450 ms swipe that the hook turns into a push is dropped by the shell. */
  lemma SlowSwipeOnlyHookNavigates(prev: string)
    requires prev != ""
    ensures SwipePushes(100.0, 0.0, 450, HookTimeLimitMs, Some(prev), None) == [prev]
    ensures SwipePushes(100.0, 0.0, 450, ShellTimeLimitMs, Some(prev), None) == []
  {
  }

  /** The shell's refs and the router's history of pushes. */
  class Shell {
    var startX: real
    var startY: real
    var startTime: int
    var pushed: seq<string>
    const prevHref: Option<string>
    const nextHref: Option<string>

    constructor (prevHref: Option<string>, nextHref: Option<string>)
      ensures startX == 0.0 && startY == 0.0 && startTime == 0 && pushed == []
      ensures this.prevHref == prevHref && this.nextHref == nextHref
    {
      startX := 0.0;
      startY := 0.0;
      startTime := 0;
      pushed := [];
      this.prevHref := prevHref;
      this.nextHref := nextHref;
    }

    /** The inline onTouchStart. */
    method TouchStart(x: real, y: real, now: int)
      modifies this
      ensures startX == x && startY == y && startTime == now && pushed == old(pushed)
    {
      startX := x;
      startY := y;
      startTime := now;
    }

    /** The inline onTouchEnd: the guard chain with a 400 ms limit. */
    method TouchEnd(x: real, y: real, now: int)
      modifies this
      ensures startX == old(startX) && startY == old(startY) && startTime == old(startTime)
      ensures pushed == old(pushed) + SwipePushes(x - startX, y - startY, now - startTime, ShellTimeLimitMs, prevHref, nextHref)
      ensures |pushed| <= |old(pushed)| + 1
    {
      var dx := x - startX;
      var dy := y - startY;
      var dt := now - startTime;
      if dt > ShellTimeLimitMs { return; }
      if Abs(dx) < MinSwipe { return; }
      if Abs(dx) < Abs(dy) * HorizontalRatio { return; }
      if dx > 0.0 && Present(prevHref) {
        pushed := pushed + [prevHref.value];
      }
      if dx < 0.0 && Present(nextHref) {
        pushed := pushed + [nextHref.value];
      }
    }
  }
}
