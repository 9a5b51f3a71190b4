// The full-screen gallery's touch handling (components/hooks/useSwipeGallery.ts):
// touch start/move/end over the drag refs, the drag preview written to the
// element's style, and the end-of-gesture choice among close, next, previous
// and snap back. Touch coordinates are parameters; the 260 ms timer that
// clears the transition is not modelled.

module SwipeGallery {
  import opened Common

  const CloseDistance: real := 120.0
  const SwipeDistance: real := 80.0
  const FadeDistance: real := 300.0
  const MaxFade: real := 0.4

  datatype Direction = Up | Down

  /** What a finished gesture asks of the gallery: exactly one of these. */
  datatype Outcome = Close(dir: Direction) | IndexChange(next: int) | SnapBack

  /** The element's inline transform as the handlers leave it. */
  datatype Transform = Untouched | TranslateX(dx: real) | TranslateY(dy: real) | Origin

  /** The opacity of a vertical drag preview: fades with |dy|, never below 0.6. */
  function DragOpacity(dy: real): (o: real)
    ensures 1.0 - MaxFade <= o <= 1.0
    ensures o == 1.0 <==> dy == 0.0
    ensures Abs(dy) <= FadeDistance * MaxFade ==> o == 1.0 - Abs(dy) / FadeDistance
    ensures Abs(dy) >= FadeDistance * MaxFade ==> o == 1.0 - MaxFade
  {
    1.0 - Min(Abs(dy) / FadeDistance, MaxFade)
  }

  /** A longer vertical drag never makes the preview more opaque. */
  lemma DragOpacityFades(dy1: real, dy2: real)
    requires Abs(dy1) <= Abs(dy2)
    ensures DragOpacity(dy2) <= DragOpacity(dy1)
  {
  }

  /** onTouchEnd's decision from the final deltas and the gallery's index and count. */
  function GestureOutcome(dx: real, dy: real, index: int, count: int): (o: Outcome)
    ensures o.Close? <==> Abs(dy) > Abs(dx) && Abs(dy) > CloseDistance
    ensures o.Close? ==> (o.dir == Down <==> dy > 0.0)
    ensures o.IndexChange? ==> Abs(dx) > Abs(dy) && Abs(dx) > SwipeDistance
    ensures o == IndexChange(index + 1) <==>
      Abs(dx) > Abs(dy) && Abs(dx) > SwipeDistance && dx < 0.0 && index < count - 1
    ensures o == IndexChange(index - 1) <==>
      Abs(dx) > Abs(dy) && Abs(dx) > SwipeDistance && dx > 0.0 && index > 0
    ensures o.IndexChange? ==> o.next == index + 1 || o.next == index - 1
    ensures o.IndexChange? && 0 <= index < count ==> 0 <= o.next < count
    ensures Abs(dx) == Abs(dy) ==> o == SnapBack
  {
    if Abs(dy) > Abs(dx) && Abs(dy) > CloseDistance then Close(if dy > 0.0 then Down else Up)
    else if Abs(dx) > Abs(dy) && Abs(dx) > SwipeDistance && dx < 0.0 && index < count - 1 then IndexChange(index + 1)
    else if Abs(dx) > Abs(dy) && Abs(dx) > SwipeDistance && dx > 0.0 && index > 0 then IndexChange(index - 1)
    else SnapBack
  }

  /** The opposite swipe undoes a page turn: next then back, or back then next. */
  lemma SwipeBackUndoes(dx: real, dy: real, index: int, count: int)
    requires 0 <= index < count
    ensures GestureOutcome(dx, dy, index, count) == IndexChange(index + 1) ==>
      GestureOutcome(-dx, dy, index + 1, count) == IndexChange(index)
    ensures GestureOutcome(dx, dy, index, count) == IndexChange(index - 1) ==>
      GestureOutcome(-dx, dy, index - 1, count) == IndexChange(index)
  {
    assert Abs(-dx) == Abs(dx);
  }

  /** The hook's refs and the element's inline style. */
  class Gallery {
    var startX: real
    var startY: real
    var deltaX: real
    var deltaY: real
    var dragging: bool
    var transform: Transform
    var opacity: real

    predicate Valid()
      reads this
    {
      1.0 - MaxFade <= opacity <= 1.0
    }

    constructor ()
      ensures Valid()
      ensures startX == 0.0 && startY == 0.0 && deltaX == 0.0 && deltaY == 0.0 && !dragging
      ensures transform == Untouched && opacity == 1.0
    {
      startX := 0.0;
      startY := 0.0;
      deltaX := 0.0;
      deltaY := 0.0;
      dragging := false;
      transform := Untouched;
      opacity := 1.0;
    }

    /** onTouchStart: record the touch, zero both deltas, start dragging. */
    method TouchStart(x: real, y: real)
      modifies this
      ensures startX == x && startY == y && deltaX == 0.0 && deltaY == 0.0 && dragging
      ensures transform == old(transform) && opacity == old(opacity)
    {
      startX := x;
      startY := y;
      deltaX := 0.0;
      deltaY := 0.0;
      dragging := true;
    }

    /** onTouchMove: update the deltas and preview along the dominant axis. */
    method TouchMove(x: real, y: real)
      requires Valid()
      modifies this
      ensures Valid()
      ensures startX == old(startX) && startY == old(startY) && dragging == old(dragging)
      ensures !old(dragging) ==>
        deltaX == old(deltaX) && deltaY == old(deltaY) && transform == old(transform) && opacity == old(opacity)
      ensures old(dragging) ==> deltaX == x - startX && deltaY == y - startY
      ensures old(dragging) && Abs(deltaY) > Abs(deltaX) ==>
        transform == TranslateY(deltaY) && opacity == DragOpacity(deltaY)
      ensures old(dragging) && Abs(deltaY) <= Abs(deltaX) ==>
        transform == TranslateX(deltaX) && opacity == old(opacity)
    {
      if !dragging {
        return;
      }
      deltaX := x - startX;
      deltaY := y - startY;
      if Abs(deltaY) > Abs(deltaX) {
        transform := TranslateY(deltaY);
        opacity := 1.0 - Min(Abs(deltaY) / FadeDistance, MaxFade);
      } else {
        transform := TranslateX(deltaX);
      }
    }

    /** reset(): back to the origin at full opacity. */
    method Reset()
      modifies this
      ensures transform == Origin && opacity == 1.0
      ensures startX == old(startX) && startY == old(startY) && deltaX == old(deltaX) && deltaY == old(deltaY)
      ensures dragging == old(dragging)
    {
      transform := Origin;
      opacity := 1.0;
    }

    /**
     * onTouchEnd: nothing unless dragging; otherwise stop dragging and report
     * the gesture's outcome. Close leaves the preview in place; a page turn
     * and a snap back reset it.
     */
    method TouchEnd(index: int, count: int) returns (outcome: Option<Outcome>)
      requires Valid()
      modifies this
      ensures Valid()
      ensures !dragging
      ensures startX == old(startX) && startY == old(startY) && deltaX == old(deltaX) && deltaY == old(deltaY)
      ensures !old(dragging) ==> outcome.None? && transform == old(transform) && opacity == old(opacity)
      ensures old(dragging) ==> outcome == Some(GestureOutcome(deltaX, deltaY, index, count))
      ensures old(dragging) && !outcome.value.Close? ==> transform == Origin && opacity == 1.0
      ensures old(dragging) && outcome.value.Close? ==> transform == old(transform) && opacity == old(opacity)
    {
      if !dragging {
        return None;
      }
      dragging := false;
      var absX := Abs(deltaX);
      var absY := Abs(deltaY);
      if absY > absX && absY > CloseDistance {
        return Some(Close(if deltaY > 0.0 then Down else Up));
      }
      if absX > absY && absX > SwipeDistance {
        Reset();
        if deltaX < 0.0 && index < count - 1 {
          return Some(IndexChange(index + 1));
        }
        if deltaX > 0.0 && index > 0 {
          return Some(IndexChange(index - 1));
        }
      }
      Reset();
      return Some(SnapBack);
    }
  }
}
