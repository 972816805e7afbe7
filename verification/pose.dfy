/**
  The pose of the self-rendering line (`CustomLine` in main.cpp): where it starts, how long
  it is and which way it points. The mutators `move`, `rotateClockwise`,
  `rotateCounterClockwise` and `resize` are pure updates of that record; the line is only
  turned into pixels when it is painted.

  All three fields are Qt `qreal`s in the source and are modelled as exact `real`s, so
  floating-point rounding is not part of this model.
*/
module LinePose {

  datatype Point = Point(x: real, y: real)

  /** `angle` is in degrees, as Qt's `QLineF::angle` reports it. */
  datatype Pose = Pose(origin: Point, length: real, angle: real)

  /** The invariant the mutators keep: a line never has negative length. */
  predicate Valid(p: Pose) {
    p.length >= 0.0
  }

  /** The angle step of one rotation key press. */
  const RotationStep: real := 30.0

  /**
    The pose the demo window gives its self-rendering line: the segment (100,200)-(200,200),
    so it starts at (100,200), is 100 long and points along the positive x axis.
  */
  const Initial: Pose := Pose(Point(100.0, 200.0), 100.0, 0.0)

  /**
    The demo pose is the segment (100,200)-(200,200) it is built from: a valid pose at
    angle 0 whose far end, origin plus length along the x axis, is (200,200).
  */
  lemma InitialIsDemoSegment()
    ensures Valid(Initial)
    ensures Initial.origin == Point(100.0, 200.0) && Initial.angle == 0.0
    ensures Point(Initial.origin.x + Initial.length, Initial.origin.y) == Point(200.0, 200.0)
  {
  }

  // ---------------------------------------------------------------- move

  /** `move(dx, dy)`: translate the start point; length and heading are untouched. */
  function Move(p: Pose, dx: int, dy: int): (r: Pose)
    ensures r.length == p.length && r.angle == p.angle
    ensures r.origin.x - p.origin.x == dx as real && r.origin.y - p.origin.y == dy as real
  {
    p.(origin := Point(p.origin.x + dx as real, p.origin.y + dy as real))
  }

  /** Moving back by the opposite offset restores the pose exactly. */
  lemma MoveInverse(p: Pose, dx: int, dy: int)
    ensures Move(Move(p, dx, dy), -dx, -dy) == p
  {
  }

  /** Two moves are one move by the summed offset. */
  lemma MoveCompose(p: Pose, dx1: int, dy1: int, dx2: int, dy2: int)
    ensures Move(Move(p, dx1, dy1), dx2, dy2) == Move(p, dx1 + dx2, dy1 + dy2)
  {
  }

  // ---------------------------------------------------------------- rotate

  /** `rotateClockwise()`: the heading grows by 30 degrees; nothing else changes. */
  function RotateClockwise(p: Pose): (r: Pose)
    ensures r.origin == p.origin && r.length == p.length
    ensures r.angle - p.angle == RotationStep
  {
    p.(angle := p.angle + RotationStep)
  }

  /** `rotateCounterClockwise()`: the heading shrinks by 30 degrees; nothing else changes. */
  function RotateCounterClockwise(p: Pose): (r: Pose)
    ensures r.origin == p.origin && r.length == p.length
    ensures p.angle - r.angle == RotationStep
  {
    p.(angle := p.angle - RotationStep)
  }

  /** The two rotations undo each other, in either order. */
  lemma RotateInverse(p: Pose)
    ensures RotateCounterClockwise(RotateClockwise(p)) == p
    ensures RotateClockwise(RotateCounterClockwise(p)) == p
  {
  }

  /** `n` clockwise rotations in a row. */
  function RotateClockwiseTimes(p: Pose, n: nat): (r: Pose)
    ensures r.origin == p.origin && r.length == p.length
  {
    if n == 0 then p else RotateClockwise(RotateClockwiseTimes(p, n - 1))
  }

  /** `n` clockwise rotations turn the heading by exactly `30 * n` degrees. */
  lemma {:induction false} RotateClockwiseTimesAngle(p: Pose, n: nat)
    ensures RotateClockwiseTimes(p, n).angle == p.angle + RotationStep * n as real
  {
    if n > 0 {
      RotateClockwiseTimesAngle(p, n - 1);
    }
  }

  /** Twelve presses make a full turn: the heading is 360 degrees further on. */
  lemma FullTurn(p: Pose)
    ensures RotateClockwiseTimes(p, 12) == p.(angle := p.angle + 360.0)
  {
    RotateClockwiseTimesAngle(p, 12);
  }

  /** Moving and rotating act on disjoint fields, so their order does not matter. */
  lemma MoveRotateCommute(p: Pose, dx: int, dy: int)
    ensures RotateClockwise(Move(p, dx, dy)) == Move(RotateClockwise(p), dx, dy)
    ensures RotateCounterClockwise(Move(p, dx, dy)) == Move(RotateCounterClockwise(p), dx, dy)
  {
  }

  // ---------------------------------------------------------------- resize

  /**
    `resize(delta)`: add `delta` to the length and clamp a negative result to 0. The result
    is the least non-negative length that is at least `length + delta`.
  */
  function Resize(p: Pose, delta: int): (r: Pose)
    ensures r.origin == p.origin && r.angle == p.angle
    ensures Valid(r)
    ensures r.length >= p.length + delta as real
    ensures r.length == 0.0 || r.length == p.length + delta as real
  {
    var l := p.length + delta as real;
    p.(length := if l < 0.0 then 0.0 else l)
  }

  /** The clamp fires exactly when the new length would be negative. */
  lemma ResizeClamps(p: Pose, delta: int)
    ensures Resize(p, delta).length == 0.0 <==> p.length + delta as real <= 0.0
    ensures p.length + delta as real >= 0.0 ==> Resize(p, delta).length == p.length + delta as real
  {
  }

  /** Every mutator keeps a valid pose valid. */
  lemma MutatorsPreserveValid(p: Pose, dx: int, dy: int, delta: int)
    requires Valid(p)
    ensures Valid(Move(p, dx, dy))
    ensures Valid(RotateClockwise(p)) && Valid(RotateCounterClockwise(p))
    ensures Valid(Resize(p, delta))
  {
  }

  /**
    Two resizes whose deltas add up to minus the length shrink the line to exactly 0,
    provided the first one does not already hit the clamp.
  */
  lemma ResizeToZero(p: Pose, d1: int, d2: int)
    requires p.length + d1 as real >= 0.0
    requires (d1 + d2) as real == -p.length
    ensures Resize(Resize(p, d1), d2).length == 0.0
  {
  }

  /** A resize that does not hit the clamp is undone by the opposite resize. */
  lemma ResizeUndo(p: Pose, delta: int)
    requires Valid(p)
    requires p.length + delta as real >= 0.0
    ensures Resize(Resize(p, delta), -delta) == p
  {
  }

  /**
    Two growths, or two shrinks, of a valid line are one resize by the summed delta: the
    clamp can fire at most once in a run of shrinks and never while growing.
  */
  lemma ResizeCompose(p: Pose, d1: int, d2: int)
    requires Valid(p)
    requires (d1 >= 0 && d2 >= 0) || (d1 <= 0 && d2 <= 0)
    ensures Resize(Resize(p, d1), d2) == Resize(p, d1 + d2)
  {
  }

  /** Once a shrink hits the clamp, the line stays at length 0 under further shrinking. */
  lemma ResizeClampAbsorbs(p: Pose, d1: int, d2: int)
    requires p.length + d1 as real <= 0.0
    requires d2 <= 0
    ensures Resize(Resize(p, d1), d2).length == 0.0
  {
  }
}
