/**
 The zigzag flight path shared by enemies and the pepper power-up.

 A path is nine waypoints, one every 128 units down the 1024-unit playfield
 starting 100 units above it. Even waypoints sit at the starting column; odd
 ones swing 250 units to one side and then the other, each x clamped into
 [0, 768 - 75] so that a 75-wide sprite stays on screen.
 */
module Zigzag {

  const PlayfieldWidth: real := 768.0
  const SpriteWidth: real := 75.0
  const MinX: real := 0.0
  const MaxX: real := PlayfieldWidth - SpriteWidth
  const Amplitude: real := 250.0
  /** Every path starts above the visible playfield. */
  const StartY: real := -100.0

  datatype Point = Point(x: real, y: real)

  /** Which way the first swing goes: `randomValueForDirection <= 50` swings right first. */
  datatype Direction = RightFirst | LeftFirst

  function Min(a: real, b: real): real { if a <= b then a else b }
  function Max(a: real, b: real): real { if a >= b then a else b }

  /** `clamp(value, min, max)` written as `max(min, min(max, value))`. */
  function Clamp(v: real, lo: real, hi: real): (r: real)
    ensures lo <= hi ==> lo <= r <= hi
    ensures lo <= v <= hi ==> r == v
    ensures lo <= hi && v < lo ==> r == lo
    ensures lo <= hi && hi < v ==> r == hi
  {
    Max(lo, Min(hi, v))
  }

  /** The start column for a draw of `(int) (Math.random() * 100)`. */
  function StartColumn(draw: int): (x: real)
    ensures draw <= 50 <==> x == 256.0
    ensures 50 < draw <==> x == 512.0
  {
    if draw <= 50 then 256.0 else 512.0
  }

  /** The swing direction for a draw of `(int) (Math.random() * 100)`. */
  function DirectionOf(draw: int): (d: Direction)
    ensures d == RightFirst <==> draw <= 50
  {
    if draw <= 50 then RightFirst else LeftFirst
  }

  /** The y of waypoint `i`, as an independent table. */
  function WaypointY(i: nat): real
    requires i < 9
  {
    [-100.0, 128.0, 256.0, 384.0, 512.0, 640.0, 768.0, 896.0, 1024.0][i]
  }

  /**
   The unclamped swing of waypoint `i` in units of the amplitude: 0 on even
   waypoints, and +1/-1 alternating on odd ones, starting with +1 when the
   path swings right first.
   */
  function Swing(i: nat, d: Direction): int {
    if i % 2 == 0 then 0
    else if (i % 4 == 1) == (d == RightFirst) then 1
    else -1
  }

  /** Keep an x coordinate on screen. */
  function Keep(x: real): real {
    Clamp(x, MinX, MaxX)
  }

  /** The enemy path, built waypoint by waypoint as the two branches of `Enemy.spawn` do. */
  function EnemyPath(startX: real, d: Direction): (path: seq<Point>)
    ensures |path| == 9
    ensures forall i :: 0 <= i < 9 ==> path[i].y == WaypointY(i)
    ensures forall i :: 0 <= i < 9 ==> MinX <= path[i].x <= MaxX
  {
    if d == RightFirst then
      [ Point(Keep(startX), -100.0),
        Point(Keep(startX + Amplitude), 128.0),
        Point(Keep(startX), 256.0),
        Point(Keep(startX - Amplitude), 384.0),
        Point(Keep(startX), 512.0),
        Point(Keep(startX + Amplitude), 640.0),
        Point(Keep(startX), 768.0),
        Point(Keep(startX - Amplitude), 896.0),
        Point(Keep(startX), 1024.0) ]
    else
      [ Point(Keep(startX), -100.0),
        Point(Keep(startX - Amplitude), 128.0),
        Point(Keep(startX), 256.0),
        Point(Keep(startX + Amplitude), 384.0),
        Point(Keep(startX), 512.0),
        Point(Keep(startX - Amplitude), 640.0),
        Point(Keep(startX), 768.0),
        Point(Keep(startX + Amplitude), 896.0),
        Point(Keep(startX), 1024.0) ]
  }

  /** The pepper path of `Pepper.spawn`: one fixed direction. */
  function PepperPath(startX: real): (path: seq<Point>)
    ensures |path| == 9
    ensures forall i :: 0 <= i < 9 ==> path[i].y == WaypointY(i)
    ensures forall i :: 0 <= i < 9 ==> MinX <= path[i].x <= MaxX
  {
    [ Point(Keep(startX), -100.0),
      Point(Keep(startX + Amplitude), 128.0),
      Point(Keep(startX), 256.0),
      Point(Keep(startX - Amplitude), 384.0),
      Point(Keep(startX), 512.0),
      Point(Keep(startX + Amplitude), 640.0),
      Point(Keep(startX), 768.0),
      Point(Keep(startX - Amplitude), 896.0),
      Point(Keep(startX), 1024.0) ]
  }

  /** Every waypoint of the enemy path is the clamped start column plus its swing. */
  lemma EnemyPathIsSwing(startX: real, d: Direction)
    ensures forall i :: 0 <= i < 9 ==>
      EnemyPath(startX, d)[i].x == Keep(startX + (Swing(i, d) as real) * Amplitude)
  {
    var path := EnemyPath(startX, d);
    forall i | 0 <= i < 9
      ensures path[i].x == Keep(startX + (Swing(i, d) as real) * Amplitude)
    {
      if i % 2 == 0 {
        assert startX + (Swing(i, d) as real) * Amplitude == startX;
      }
    }
  }

  /** Even waypoints sit at the start column whenever it is already on screen. */
  lemma EvenWaypointsAtStart(startX: real, d: Direction, i: nat)
    requires MinX <= startX <= MaxX
    requires i < 9 && i % 2 == 0
    ensures EnemyPath(startX, d)[i].x == startX
  {
    EnemyPathIsSwing(startX, d);
  }

  /** The two directions mirror each other about the start column before clamping. */
  lemma DirectionsMirror(i: nat)
    ensures Swing(i, RightFirst) == -Swing(i, LeftFirst)
  {
  }

  /** The pepper follows exactly the enemy's right-first path. */
  lemma PepperPathIsEnemyPath(startX: real)
    ensures PepperPath(startX) == EnemyPath(startX, RightFirst)
  {
  }

  /** For the two start columns the source can draw, only the swing right from 512 is clamped. */
  lemma OnlyRightSwingFrom512Clamped(draw: int, d: Direction)
    ensures var startX := StartColumn(draw);
      forall i :: 0 <= i < 9 ==>
        var raw := startX + (Swing(i, d) as real) * Amplitude;
        EnemyPath(startX, d)[i].x == (if raw > MaxX then MaxX else raw)
  {
    EnemyPathIsSwing(StartColumn(draw), d);
  }
}
