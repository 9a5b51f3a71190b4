// The exclusive-playback registry (lib/videoController.ts): one module-level
// slot holding the video that last started playing. Starting a video pauses
// the registered one if it is a different video; stopping a video clears the
// slot only if it holds that video. Videos are identified by number, and
// every pause() the registry issues is recorded in a log.

module VideoController {
  import opened Common

  type VideoId = nat

  /** The pause() calls playExclusive(v) issues from slot cur: at most one, never v itself. */
  function PausedBy(cur: Option<VideoId>, v: VideoId): (p: seq<VideoId>)
    ensures |p| <= 1
    ensures p == [] <==> cur.None? || cur.value == v
    ensures p != [] ==> p == [cur.value] && cur.value != v
  {
    if cur.Some? && cur.value != v then [cur.value] else []
  }

  /** The slot after clearVideo(v): emptied only when it holds v. */
  function AfterClear(cur: Option<VideoId>, v: VideoId): (next: Option<VideoId>)
    ensures cur == Some(v) ==> next.None?
    ensures cur != Some(v) ==> next == cur
  {
    if cur == Some(v) then None else cur
  }

  /** The module state: currentVideo, and the log of pause() calls made so far. */
  class Registry {
    var current: Option<VideoId>
    var pauses: seq<VideoId>

    constructor ()
      ensures current.None? && pauses == []
    {
      current := None;
      pauses := [];
    }

    /** playExclusive(video). */
    method PlayExclusive(video: VideoId)
      modifies this
      ensures current == Some(video)
      ensures pauses == old(pauses) + PausedBy(old(current), video)
    {
      if current.Some? && current.value != video {
        pauses := pauses + [current.value];
      }
      current := Some(video);
    }

    /** clearVideo(video). */
    method ClearVideo(video: VideoId)
      modifies this
      ensures current == AfterClear(old(current), video)
      ensures pauses == old(pauses)
    {
      if current == Some(video) {
        current := None;
      }
    }
  }

  // ------------------------------------------------------------------ runs

  /**
   * The media events of an ExclusiveVideo element: "play" calls
   * playExclusive, "pause" and "ended" call clearVideo.
   */
  datatype MediaEvent = Play(v: VideoId) | Pause(v: VideoId) | Ended(v: VideoId)

  /** The registry slot, the pause log, and which videos are actually playing. */
  datatype World = World(current: Option<VideoId>, pauses: seq<VideoId>, playing: set<VideoId>)

  function Step(w: World, e: MediaEvent): (r: World)
    // play: the video takes the slot and plays, pausing the video that held the slot
    ensures e.Play? ==> r.current == Some(e.v) && e.v in r.playing
    ensures e.Play? && w.current.Some? && w.current.value != e.v ==>
      r.pauses == w.pauses + [w.current.value] && w.current.value !in r.playing
    ensures e.Play? && (w.current.None? || w.current.value == e.v) ==> r.pauses == w.pauses
    // pause and ended: the video stops and leaves the slot; nothing is paused
    ensures !e.Play? ==> r.current != Some(e.v) && e.v !in r.playing && r.pauses == w.pauses
    ensures r.playing - {e.v} <= w.playing
  {
    match e
    case Play(v) =>
      var p := PausedBy(w.current, v);
      World(Some(v), w.pauses + p, (w.playing - (set x | x in p)) + {v})
    case Pause(v) => World(AfterClear(w.current, v), w.pauses, w.playing - {v})
    case Ended(v) => World(AfterClear(w.current, v), w.pauses, w.playing - {v})
  }

  function Run(w: World, events: seq<MediaEvent>): World
    decreases |events|
  {
    if events == [] then w else Run(Step(w, events[0]), events[1..])
  }

  /** The set holding the registered video, if any. */
  function Slot(cur: Option<VideoId>): (s: set<VideoId>)
    ensures |s| <= 1
  {
    if cur.Some? then {cur.value} else {}
  }

  /** Repeating an event changes nothing and issues no further pause. */
  lemma StepIdempotent(w: World, e: MediaEvent)
    ensures Step(Step(w, e), e) == Step(w, e)
  {
    match e
    case Play(v) =>
      var none: seq<VideoId> := [];
      assert PausedBy(Some(v), v) == none;
      assert (set x | x in none) == {};
    case Pause(v) =>
    case Ended(v) =>
  }

  /** Only the registered video plays: one event keeps playing within the slot. */
  lemma StepKeepsExclusive(w: World, e: MediaEvent)
    requires w.playing <= Slot(w.current)
    ensures Step(w, e).playing <= Slot(Step(w, e).current)
  {
    match e
    case Play(v) =>
      var p := PausedBy(w.current, v);
      if w.current.Some? && w.current.value != v {
        assert w.current.value in (set x | x in p);
      }
    case Pause(v) =>
    case Ended(v) =>
  }

  /** From an empty page, at most one ExclusiveVideo plays at any time, and it is the registered one. */
  lemma {:induction false} AtMostOneVideoPlays(w: World, events: seq<MediaEvent>)
    requires w.playing <= Slot(w.current)
    ensures Run(w, events).playing <= Slot(Run(w, events).current)
    ensures |Run(w, events).playing| <= 1
    decreases |events|
  {
    if events != [] {
      StepKeepsExclusive(w, events[0]);
      AtMostOneVideoPlays(Step(w, events[0]), events[1..]);
    }
    var r := Run(w, events);
    SubsetCard(r.playing, Slot(r.current));
  }

  lemma SubsetCard(a: set<VideoId>, b: set<VideoId>)
    requires a <= b
    ensures |a| <= |b|
  {
    if a != {} {
      var x :| x in a;
      SubsetCard(a - {x}, b - {x});
    }
  }

  /**
   * Play A, play B, stop B, play C: A is paused exactly once (when B
   * starts), and B is never paused by the registry, since stopping it
   * emptied the slot before C started.
   */
  lemma HandOverScenario(a: VideoId, b: VideoId, c: VideoId)
    requires a != b && b != c && a != c
    ensures Run(World(None, [], {}), [Play(a), Play(b), Pause(b), Play(c)]).pauses == [a]
    ensures Run(World(None, [], {}), [Play(a), Play(b), Pause(b), Play(c)]).current == Some(c)
  {
    var es := [Play(a), Play(b), Pause(b), Play(c)];
    var w1 := Step(World(None, [], {}), Play(a));
    assert w1.current == Some(a) && w1.pauses == [];
    var w2 := Step(w1, Play(b));
    assert w2.current == Some(b) && w2.pauses == [a];
    var w3 := Step(w2, Pause(b));
    assert w3.current.None? && w3.pauses == [a];
    var w4 := Step(w3, Play(c));
    assert w4.current == Some(c) && w4.pauses == [a];
    assert es[1..] == [Play(b), Pause(b), Play(c)];
    assert es[1..][1..] == [Pause(b), Play(c)];
    assert es[1..][1..][1..] == [Play(c)];
    assert [Play(c)][1..] == [];
    assert Run(w3, [Play(c)]) == w4;
    assert Run(w2, [Pause(b), Play(c)]) == w4;
    assert Run(w1, [Play(b), Pause(b), Play(c)]) == w4;
    assert Run(World(None, [], {}), es) == w4;
  }
}
