// Touch swipes: the start and end points of a touch and the direction its end reports.

module Swipe {
  import opened Common

  datatype Point = Point(x: real, y: real)

  datatype Direction = Left | Right | Up | Down

  /** The threshold when none is given, in pixels. */
  const DefaultThreshold: real := 50.0

  function Abs(v: real): real
  {
    if v >= 0.0 then v else -v
  }

  /** The direction of a move from `start` to `end`: the dominant axis decides, provided the
      move along it exceeds `threshold`; a move as wide as it is high reports nothing. */
  function Classify(start: Point, end: Point, threshold: real): (d: Option<Direction>)
    ensures var dx, dy := start.x - end.x, start.y - end.y;
      (d == Some(Left) <==> Abs(dx) > Abs(dy) && Abs(dx) > threshold && dx > 0.0)
      && (d == Some(Right) <==> Abs(dx) > Abs(dy) && Abs(dx) > threshold && dx <= 0.0)
      && (d == Some(Up) <==> Abs(dy) > Abs(dx) && Abs(dy) > threshold && dy > 0.0)
      && (d == Some(Down) <==> Abs(dy) > Abs(dx) && Abs(dy) > threshold && dy <= 0.0)
  {
    var dx, dy := start.x - end.x, start.y - end.y;
    if Abs(dx) > Abs(dy) && Abs(dx) > threshold then
      if dx > 0.0 then Some(Left) else Some(Right)
    else if Abs(dy) > Abs(dx) && Abs(dy) > threshold then
      if dy > 0.0 then Some(Up) else Some(Down)
    else None
  }

  /** A move exactly as wide as it is high reports no direction. */
  lemma DiagonalIsNoSwipe(start: Point, end: Point, threshold: real)
    requires Abs(start.x - end.x) == Abs(start.y - end.y)
    ensures Classify(start, end, threshold) == None
  {
  }

  function Opposite(d: Direction): Direction
  {
    match d
    case Left => Right
    case Right => Left
    case Up => Down
    case Down => Up
  }

  /** Every swipe, played backwards, reports the opposite direction. */
  lemma ReverseIsOpposite(start: Point, end: Point, threshold: real)
    requires Classify(start, end, threshold).Some?
    ensures Classify(end, start, threshold) == Some(Opposite(Classify(start, end, threshold).value))
  {
  }

  /** A higher threshold reports a direction only where a lower one reports the same. */
  lemma ThresholdMonotone(start: Point, end: Point, low: real, high: real)
    requires low <= high && Classify(start, end, high).Some?
    ensures Classify(start, end, low) == Classify(start, end, high)
  {
  }

  /** The touch points the handlers remember between events. */
  class SwipeDetector {
    const threshold: real
    var touchStart: Option<Point>
    var touchEnd: Option<Point>

    constructor (threshold: real)
      ensures this.threshold == threshold && touchStart == None && touchEnd == None
    {
      this.threshold := threshold;
      touchStart := None;
      touchEnd := None;
    }

    /** `onTouchStart`: records the start and forgets any earlier end. */
    method TouchStart(p: Point)
      modifies this
      ensures touchStart == Some(p) && touchEnd == None
    {
      touchEnd := None;
      touchStart := Some(p);
    }

    /** `onTouchMove`: the latest point becomes the end. */
    method TouchMove(p: Point)
      modifies this
      ensures touchStart == old(touchStart) && touchEnd == Some(p)
    {
      touchEnd := Some(p);
    }

    /** `onTouchEnd`: without both points nothing happens; otherwise the direction, if any,
        is reported and both points are cleared. */
    method TouchEnd() returns (fired: Option<Direction>)
      modifies this
      ensures old(touchStart).None? || old(touchEnd).None? ==>
        fired == None && touchStart == old(touchStart) && touchEnd == old(touchEnd)
      ensures old(touchStart).Some? && old(touchEnd).Some? ==>
        fired == Classify(old(touchStart).value, old(touchEnd).value, threshold)
        && touchStart == None && touchEnd == None
    {
      if touchStart.None? || touchEnd.None? {
        return None;
      }
      fired := Classify(touchStart.value, touchEnd.value, threshold);
      touchStart := None;
      touchEnd := None;
    }
  }

  /** A tap, a start with no move, reports nothing: the start clears the end. */
  method Tap(p: Point, threshold: real) returns (fired: Option<Direction>)
    ensures fired == None
  {
    var d := new SwipeDetector(threshold);
    d.TouchStart(p);
    fired := d.TouchEnd();
  }
}
