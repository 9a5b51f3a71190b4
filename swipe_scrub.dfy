// Touch scrubbing of a video (components/hooks/useSwipeScrubVideo.ts): a
// horizontal drag of 120 px spans the whole duration, the video is paused
// while scrubbing and resumed afterwards only if it was playing. The video
// element is a class of its own; the hook's ref to it may be null.

module SwipeScrub {
  import opened Common

  /** Pixels of horizontal drag that span the whole duration. */
  const PixelsPerDuration: real := 120.0

  /** The parts of an HTMLVideoElement the hook uses. */
  class Video {
    var currentTime: real
    var duration: real
    var paused: bool
    /** How many times play() has been called. */
    var playCalls: nat

    constructor (duration: real, paused: bool)
      requires duration >= 0.0
      ensures currentTime == 0.0 && this.duration == duration && this.paused == paused && playCalls == 0
    {
      currentTime := 0.0;
      this.duration := duration;
      this.paused := paused;
      playCalls := 0;
    }

    method Pause()
      modifies this
      ensures paused && currentTime == old(currentTime) && duration == old(duration) && playCalls == old(playCalls)
    {
      paused := true;
    }

    /** play(); a rejected play promise is swallowed, so it is treated as starting playback. */
    method Play()
      modifies this
      ensures !paused && playCalls == old(playCalls) + 1
      ensures currentTime == old(currentTime) && duration == old(duration)
    {
      paused := false;
      playCalls := playCalls + 1;
    }
  }

  /** The scrub position: startTime moved by dx/120 of the duration, clamped into [0, duration]. */
  function ScrubTime(startTime: real, dx: real, duration: real): (t: real)
    ensures duration >= 0.0 ==> 0.0 <= t <= duration
    ensures 0.0 <= startTime <= duration && dx == 0.0 ==> t == startTime
    ensures duration >= 0.0 && 0.0 <= startTime + (dx / PixelsPerDuration) * duration <= duration ==>
      t == startTime + (dx / PixelsPerDuration) * duration
    // past either end the time is clamped to that end
    ensures duration >= 0.0 && startTime + (dx / PixelsPerDuration) * duration > duration ==> t == duration
    ensures startTime + (dx / PixelsPerDuration) * duration < 0.0 ==> t == 0.0
  {
    Max(0.0, Min(duration, startTime + (dx / PixelsPerDuration) * duration))
  }

  /** Dragging further right never moves the scrub position earlier. */
  lemma ScrubMonotone(startTime: real, dx1: real, dx2: real, duration: real)
    requires duration >= 0.0 && dx1 <= dx2
    ensures ScrubTime(startTime, dx1, duration) <= ScrubTime(startTime, dx2, duration)
  {
    var k := dx2 / PixelsPerDuration - dx1 / PixelsPerDuration;
    assert k >= 0.0;
    assert k * duration >= 0.0;
    assert (dx2 / PixelsPerDuration) * duration - (dx1 / PixelsPerDuration) * duration == k * duration;
    assert startTime + (dx1 / PixelsPerDuration) * duration <= startTime + (dx2 / PixelsPerDuration) * duration;
  }

  /** A drag of 120 px or more to the left reaches the start; to the right, the end. */
  lemma FullDragReachesEnds(startTime: real, duration: real)
    requires 0.0 <= startTime <= duration
    ensures ScrubTime(startTime, -PixelsPerDuration, duration) == 0.0
    ensures ScrubTime(startTime, PixelsPerDuration, duration) == duration
  {
  }

  /** The hook's refs and the video ref. */
  class Scrubber {
    var video: Video?
    var startX: real
    var startTime: real
    var wasPlaying: bool

    constructor (video: Video?)
      ensures this.video == video && startX == 0.0 && startTime == 0.0 && !wasPlaying
    {
      this.video := video;
      startX := 0.0;
      startTime := 0.0;
      wasPlaying := false;
    }

    /** onTouchStart: remember the touch, the time and whether it was playing; then pause. */
    method TouchStart(x: real)
      modifies this, video
      ensures video == old(video)
      ensures video == null ==> startX == old(startX) && startTime == old(startTime) && wasPlaying == old(wasPlaying)
      ensures video != null ==>
        startX == x && startTime == old(video.currentTime) && wasPlaying == !old(video.paused) &&
        video.paused && video.currentTime == old(video.currentTime) && video.duration == old(video.duration) &&
        video.playCalls == old(video.playCalls)
    {
      if video == null {
        return;
      }
      var v := video;
      startX := x;
      startTime := v.currentTime;
      wasPlaying := !v.paused;
      v.Pause();
    }

    /** onTouchMove: seek to the scrub position for the drag so far. */
    method TouchMove(x: real)
      modifies video
      ensures video != null ==>
        video.currentTime == ScrubTime(startTime, x - startX, old(video.duration)) &&
        video.duration == old(video.duration) && video.paused == old(video.paused) &&
        video.playCalls == old(video.playCalls)
    {
      if video == null {
        return;
      }
      var v := video;
      var dx := x - startX;
      var scrubRatio := dx / PixelsPerDuration;
      var newTime := startTime + scrubRatio * v.duration;
      v.currentTime := Max(0.0, Min(v.duration, newTime));
    }

    /** onTouchEnd: resume only if the video was playing when the touch began. */
    method TouchEnd()
      modifies video
      ensures video != null && wasPlaying ==> !video.paused && video.playCalls == old(video.playCalls) + 1
      ensures video != null && !wasPlaying ==> video.paused == old(video.paused) && video.playCalls == old(video.playCalls)
      ensures video != null ==> video.currentTime == old(video.currentTime) && video.duration == old(video.duration)
    {
      if video == null {
        return;
      }
      if wasPlaying {
        video.Play();
      }
    }
  }
}
