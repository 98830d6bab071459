/**
 Enemies and the pepper power-up: where they appear, the path they follow,
 and when an enemy fires back.

 The motion along the path (a JavaFX path transition over 15 s for an
 enemy, 20 s for the pepper) is not modelled; its effect reaches the rest
 of the model as the current bounds of each sprite.
 */
module Foes {
  import opened Wrappers
  import opened Geometry
  import opened Zigzag
  import Shots

  /** Milliseconds between two shots of one enemy. */
  const EnemyFireCooldown: int := 750
  /** Length of the path traversal, in milliseconds. */
  const EnemyTraversalMs: int := 15000
  const PepperTraversalMs: int := 20000

  /**
   An enemy: the column it started at,
   its path, and when it last fired (0 until it first fires).
   */
  datatype Enemy = Enemy(startingX: real, path: seq<Point>, lastFired: int)

  /** `new Enemy()` followed by `spawn`: start column and direction come from the two draws. */
  function SpawnEnemy(startDraw: int, directionDraw: int): (e: Enemy)
    ensures e.startingX == (if startDraw <= 50 then 256.0 else 512.0)
    ensures e.path == EnemyPath(e.startingX, DirectionOf(directionDraw))
    ensures |e.path| == 9 && e.path[0] == Point(e.startingX, StartY)
    ensures e.lastFired == 0
  {
    var x := StartColumn(startDraw);
    Enemy(x, EnemyPath(x, DirectionOf(directionDraw)), 0)
  }

  /** The sprite's top-left corner when it is put on the pane, before it starts moving. */
  function SpawnCorner(e: Enemy): Point {
    Point(e.startingX, StartY)
  }

  /** The pepper power-up: its start column and path. */
  datatype Pepper = Pepper(startingX: real, path: seq<Point>)

  /** `new Pepper()` followed by `spawn`: same start-column rule, always the right-first path. */
  function SpawnPepper(startDraw: int): (p: Pepper)
    ensures p.startingX == (if startDraw <= 50 then 256.0 else 512.0)
    ensures p.path == EnemyPath(p.startingX, RightFirst)
    ensures |p.path| == 9
  {
    var x := StartColumn(startDraw);
    PepperPathIsEnemyPath(x);
    Pepper(x, PepperPath(x))
  }

  /** Result of `Enemy.fire`: the enemy afterwards and the projectile it fired, if any. */
  datatype FireResult = FireResult(enemy: Enemy, shot: Option<Shots.EnemyProjectile>)

  /**
   `Enemy.fire`: when the cooldown has passed and the enemy's bottom edge is
   strictly inside the pane vertically, fire one projectile from the
   horizontal centre of the bottom edge and record the time.
   */
  function Fire(e: Enemy, bounds: Box, now: int, paneHeight: real): (r: FireResult)
    ensures r.shot.Some? <==>
      now - e.lastFired >= EnemyFireCooldown && 0.0 < bounds.MaxY() < paneHeight
    ensures r.shot.Some? ==> r.enemy == e.(lastFired := now)
    ensures r.shot.None? ==> r.enemy == e
    ensures r.shot.Some? ==>
      r.shot.value.x + Shots.ShotWidth / 2.0 == bounds.minX + SpriteWidth / 2.0 &&
      r.shot.value.y == bounds.MaxY() &&
      r.shot.value.timer == Shots.Running
  {
    if now - e.lastFired >= EnemyFireCooldown then
      var currentX := bounds.minX + SpriteWidth / 2.0;
      var currentY := bounds.MaxY();
      if 0.0 < currentY && currentY < paneHeight then
        FireResult(e.(lastFired := now), Some(Shots.FireEnemyProjectile(currentX, currentY)))
      else FireResult(e, None)
    else FireResult(e, None)
  }

  /** Two attempts less than the cooldown apart fire at most once. */
  lemma FireAtMostOncePerCooldown(e: Enemy, b1: Box, b2: Box, t1: int, t2: int, h: real)
    requires t1 <= t2 < t1 + EnemyFireCooldown
    requires Fire(e, b1, t1, h).shot.Some?
    ensures Fire(Fire(e, b1, t1, h).enemy, b2, t2, h).shot.None?
  {
  }

  /** An enemy above or below the visible pane never fires, however long it has waited. */
  lemma OffScreenNeverFires(e: Enemy, bounds: Box, now: int, h: real)
    requires bounds.MaxY() <= 0.0 || h <= bounds.MaxY()
    ensures Fire(e, bounds, now, h) == FireResult(e, None)
  {
  }
}
