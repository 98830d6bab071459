/**
 The two kinds of projectile and their per-frame motion.

 A player projectile (`Projectile`) is fired upward and moves 10 units per
 frame on its own timeline; it is taken off the pane as soon as it is more
 than 100 units above the playfield. An enemy projectile (`EnemyProjectile`)
 falls 2.5 units per frame on its own animation timer, which is stopped when
 the projectile leaves the bottom edge or is detached from the pane for any
 other reason.
 */
module Shots {
  import opened Wrappers

  /** Both projectile images are shown 50 units wide. */
  const ShotWidth: real := 50.0
  const PlayerShotSpeed: real := 10.0
  const PlayerShotCeiling: real := -100.0
  const EnemyShotSpeed: real := 2.5
  const EnemyShotFloor: real := 1024.0

  // ---------------------------------------------------------------- player

  datatype Projectile = Projectile(x: real, y: real)

  /** `Projectile.fire(x, y)`: centred on x, starting 25 units above y. */
  function FireProjectile(cx: real, cy: real): (p: Projectile)
    ensures p.x + ShotWidth / 2.0 == cx
    ensures p.y < cy && cy - p.y == 25.0
  {
    Projectile(cx - ShotWidth / 2.0, cy - 25.0)
  }

  /** One frame of the projectile timeline; `None` when it is removed from the pane. */
  function StepProjectile(p: Projectile): (r: Option<Projectile>)
    ensures r.Some? <==> p.y - PlayerShotSpeed >= PlayerShotCeiling
    ensures r.Some? ==> r.value.x == p.x && p.y - r.value.y == PlayerShotSpeed
  {
    var moved := p.(y := p.y - PlayerShotSpeed);
    if moved.y < PlayerShotCeiling then None else Some(moved)
  }

  /** `n` frames of the projectile timeline, ending at the first removal. */
  function FlyProjectile(p: Projectile, n: nat): Option<Projectile>
    decreases n
  {
    if n == 0 then Some(p)
    else match StepProjectile(p)
      case None => None
      case Some(q) => FlyProjectile(q, n - 1)
  }

  /** After k >= 1 frames the projectile is still on the pane exactly when 10k units up it is not past the ceiling. */
  lemma {:induction false} FlyProjectileExact(p: Projectile, k: nat)
    requires k >= 1
    ensures FlyProjectile(p, k).Some? <==> p.y - (k as real) * PlayerShotSpeed >= PlayerShotCeiling
    ensures FlyProjectile(p, k).Some? ==>
      FlyProjectile(p, k).value == Projectile(p.x, p.y - (k as real) * PlayerShotSpeed)
    decreases k
  {
    if k > 1 {
      match StepProjectile(p)
      case None =>
      case Some(q) =>
        FlyProjectileExact(q, k - 1);
    }
  }

  /** Starting at or below the ceiling, the projectile is gone after floor((y + 100) / 10) + 1 frames. */
  lemma ProjectileRemovedInTime(p: Projectile)
    requires p.y >= PlayerShotCeiling
    ensures FlyProjectile(p, ((p.y + 100.0) / 10.0).Floor + 1) == None
  {
    var k := ((p.y + 100.0) / 10.0).Floor + 1;
    assert (k as real) * 10.0 > p.y + 100.0;
    FlyProjectileExact(p, k);
  }

  // ----------------------------------------------------------------- enemy

  /** The projectile's animation timer: not yet created, running, or stopped. */
  datatype Timer = NoTimer | Running | Stopped

  datatype EnemyProjectile = EnemyProjectile(x: real, y: real, timer: Timer)

  /** A freshly constructed enemy projectile has no timer yet. */
  function NewEnemyProjectile(): EnemyProjectile {
    EnemyProjectile(0.0, 0.0, NoTimer)
  }

  /** `EnemyProjectile.fire(x, y)`: centred on x, top edge at y, timer started. */
  function FireEnemyProjectile(cx: real, cy: real): (s: EnemyProjectile)
    ensures s.x + ShotWidth / 2.0 == cx && s.y == cy
    ensures s.timer == Running
  {
    EnemyProjectile(cx - ShotWidth / 2.0, cy, Running)
  }

  /** `stopAnimation`: stops a timer that exists, and does nothing when there is none. */
  function StopAnimation(s: EnemyProjectile): (r: EnemyProjectile)
    ensures r.x == s.x && r.y == s.y
    ensures r.timer != Running
    ensures s.timer == NoTimer ==> r == s
  {
    if s.timer == NoTimer then s else s.(timer := Stopped)
  }

  /** The parent listener: losing the parent, for whatever reason, stops the animation. */
  function Detach(s: EnemyProjectile): (r: EnemyProjectile)
    ensures r.timer != Running
    ensures r.x == s.x && r.y == s.y
  {
    StopAnimation(s)
  }

  /** What one animation pulse does to an enemy projectile. */
  datatype FallStep = Falling(shot: EnemyProjectile) | Gone(shot: EnemyProjectile)

  /**
   One pulse of the projectile's animation timer. A timer that is not
   running delivers no pulse; otherwise the projectile falls 2.5 units and,
   once below the floor, is detached and its timer stopped.
   */
  function StepEnemyProjectile(s: EnemyProjectile): (r: FallStep)
    ensures s.timer != Running ==> r == Falling(s)
    ensures s.timer == Running ==> r.shot.x == s.x && r.shot.y - s.y == EnemyShotSpeed
    ensures s.timer == Running ==> (r.Gone? <==> s.y + EnemyShotSpeed > EnemyShotFloor)
    ensures r.Gone? ==> r.shot.timer == Stopped
    ensures r.Falling? && s.timer == Running ==> r.shot.timer == Running
  {
    if s.timer != Running then Falling(s)
    else
      var moved := s.(y := s.y + EnemyShotSpeed);
      if moved.y > EnemyShotFloor then Gone(StopAnimation(Detach(moved)))
      else Falling(moved)
  }

  /** `n` pulses of the animation timer, ending at the first removal. */
  function FlyEnemyProjectile(s: EnemyProjectile, n: nat): FallStep
    decreases n
  {
    if n == 0 then Falling(s)
    else match StepEnemyProjectile(s)
      case Gone(t) => Gone(t)
      case Falling(t) => FlyEnemyProjectile(t, n - 1)
  }

  /** A detached projectile never moves again. */
  lemma {:induction false} DetachedNeverMoves(s: EnemyProjectile, n: nat)
    ensures FlyEnemyProjectile(Detach(s), n) == Falling(Detach(s))
    decreases n
  {
    if n > 0 {
      DetachedNeverMoves(s, n - 1);
    }
  }

  /** With its timer running, after k >= 1 pulses the projectile is still falling exactly when 2.5k units down it is not past the floor. */
  lemma {:induction false} FlyEnemyProjectileExact(s: EnemyProjectile, k: nat)
    requires s.timer == Running
    requires k >= 1
    ensures FlyEnemyProjectile(s, k).Falling? <==> s.y + (k as real) * EnemyShotSpeed <= EnemyShotFloor
    ensures FlyEnemyProjectile(s, k).Falling? ==>
      FlyEnemyProjectile(s, k).shot == EnemyProjectile(s.x, s.y + (k as real) * EnemyShotSpeed, Running)
    ensures FlyEnemyProjectile(s, k).Gone? ==> FlyEnemyProjectile(s, k).shot.timer == Stopped
    decreases k
  {
    if k > 1 {
      match StepEnemyProjectile(s)
      case Gone(_) =>
      case Falling(t) =>
        FlyEnemyProjectileExact(t, k - 1);
    }
  }

  /** Starting at or above the floor, the projectile is gone, its timer stopped, after floor((1024 - y) / 2.5) + 1 pulses. */
  lemma EnemyProjectileRemovedInTime(s: EnemyProjectile)
    requires s.timer == Running
    requires s.y <= EnemyShotFloor
    ensures var r := FlyEnemyProjectile(s, ((EnemyShotFloor - s.y) / EnemyShotSpeed).Floor + 1);
      r.Gone? && r.shot.timer == Stopped
  {
    var k := ((EnemyShotFloor - s.y) / EnemyShotSpeed).Floor + 1;
    assert (k as real) * EnemyShotSpeed > EnemyShotFloor - s.y;
    FlyEnemyProjectileExact(s, k);
  }
}
