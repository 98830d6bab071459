/**
 The game loop: starting a game, one frame of `updateGameLoop`, and the
 projectiles' own timelines, which move them between frames.
 */
module GameLoop {
  import opened Wrappers
  import opened Geometry
  import opened Game
  import Shots
  import Zigzag
  import Collision

  /** The random draws one frame may need: an enemy's two, and a power-up's kind and start. */
  datatype Draws = Draws(enemyStart: int, enemyDirection: int, powerUpKind: real, pepperStart: int, saltBox: Box)

  /**
   `startGame`: the difficulty clock starts now, the player appears at its
   start position, the three life icons are shown and the loop starts.
   */
  function StartGame(m: Manager, now: int): (r: Manager)
    ensures r.lastDifficultyIncrease == now
    ensures r.player == Box(PlayerStartX, PlayerStartY, Zigzag.SpriteWidth, m.sizes.player) && r.playerVisible
    ensures r.lifeIcons == {1, 2, 3} && r.timerRunning
    ensures r.game == m.game && r.pane == m.pane && r.keys == m.keys
  {
    m.(lastDifficultyIncrease := now,
       player := Box(384.0 - 75.0 / 2.0, 800.0, 75.0, m.sizes.player),
       playerVisible := true,
       lifeIcons := {1, 2, 3},
       timerRunning := true)
  }

  /** The ids of the set that still name a node of the pane. */
  function StillOnPane(ids: set<nat>, pane: seq<Node>): (r: set<nat>)
    ensures forall id :: id in r <==> id in ids && HasId(pane, id)
  {
    set id | id in ids && HasId(pane, id)
  }

  /** The first three handlers of a frame: difficulty, movement, firing. */
  function MoveAndFire(m: Manager, now: int): (r: Manager)
    ensures var m1 := UpdateDifficulty(m, now);
      r.spawnCooldown == m1.spawnCooldown && r.lastDifficultyIncrease == m1.lastDifficultyIncrease &&
      r.player == HandlePlayerMovement(m1, PaneWidth, PaneHeight).player
    ensures r.game == m.game && r.timerRunning == m.timerRunning && r.playerVisible == m.playerVisible
    ensures r.lastFired == (if MayFire(m, now) then now else m.lastFired)
    ensures r.lastSpawned == m.lastSpawned && r.lastPowerUp == m.lastPowerUp && r.nextId >= m.nextId
    ensures forall id :: id in r.activePlayerShots ==> id in m.activePlayerShots || id >= m.nextId
  {
    var m1 := UpdateDifficulty(m, now);
    var m2 := HandlePlayerMovement(m1, PaneWidth, PaneHeight);
    assert MayFire(m2, now) == MayFire(m, now) && m2.lastFired == m.lastFired && m2.nextId == m.nextId;
    HandlePlayerFiring(m2, now)
  }

  /** The two spawning handlers of a frame: an enemy, then a power-up, each when its cooldown has passed. */
  function SpawnAll(m: Manager, now: int, d: Draws): (r: Manager)
    ensures r == m.(pane := r.pane, activeEnemies := r.activeEnemies, activeEnemyShots := r.activeEnemyShots,
                    nextId := r.nextId, lastSpawned := r.lastSpawned, lastPowerUp := r.lastPowerUp)
    ensures r.lastSpawned == (if EnemySpawnDue(m, now) then now else m.lastSpawned)
    ensures r.lastPowerUp == (if PowerUpDue(m, now) then now else m.lastPowerUp)
    ensures forall id :: id in r.activeEnemies ==> HasId(r.pane, id)
  {
    var m4 := HandleEnemySpawning(m, now, d.enemyStart, d.enemyDirection);
    var m5 := HandlePowerUpSpawning(m4, now, d.powerUpKind, d.pepperStart, d.saltBox);
    GrowingKeepsIds(m4.pane, m5.pane);
    m5
  }

  /**
   The part of `updateGameLoop` before the collision pass: difficulty,
   movement, firing, enemy and power-up spawning, and pruning of the
   projectile sets. None of it touches lives or score.
   */
  function PrepareFrame(m: Manager, now: int, d: Draws): (r: Manager)
    ensures r.game == m.game
    ensures r.timerRunning == m.timerRunning && r.playerVisible == m.playerVisible
    ensures SpawnCooldownInRange(m.spawnCooldown) ==> SpawnCooldownInRange(r.spawnCooldown)
    ensures r.spawnCooldown <= m.spawnCooldown
    ensures forall id :: id in r.activePlayerShots ==> id in m.activePlayerShots || id >= m.nextId
    ensures var m1 := UpdateDifficulty(m, now);
      r.spawnCooldown == m1.spawnCooldown && r.lastDifficultyIncrease == m1.lastDifficultyIncrease &&
      r.player == HandlePlayerMovement(m1, PaneWidth, PaneHeight).player
    ensures r.lastFired == (if MayFire(m, now) then now else m.lastFired)
    ensures r.lastSpawned == (if EnemySpawnDue(UpdateDifficulty(m, now), now) then now else m.lastSpawned)
    ensures r.lastPowerUp == (if PowerUpDue(m, now) then now else m.lastPowerUp)
    ensures forall id :: id in r.activeEnemies ==> HasId(r.pane, id)
    ensures forall id :: id in r.activeEnemyShots ==> HasId(r.pane, id)
    ensures forall id :: id in r.activePlayerShots ==> HasId(r.pane, id)
  {
    var m3 := MoveAndFire(m, now);
    assert EnemySpawnDue(m3, now) == EnemySpawnDue(UpdateDifficulty(m, now), now);
    assert PowerUpDue(m3, now) == PowerUpDue(m, now);
    PruneShots(SpawnAll(m3, now, d))
  }

  /** The end of a frame's preparation: projectile ids whose node has left the pane are no longer tracked. */
  function PruneShots(m: Manager): (r: Manager)
    ensures r == m.(activeEnemyShots := r.activeEnemyShots, activePlayerShots := r.activePlayerShots)
    ensures forall id :: id in r.activeEnemyShots <==> id in m.activeEnemyShots && HasId(m.pane, id)
    ensures forall id :: id in r.activePlayerShots <==> id in m.activePlayerShots && HasId(m.pane, id)
  {
    m.(activeEnemyShots := StillOnPane(m.activeEnemyShots, m.pane),
       activePlayerShots := StillOnPane(m.activePlayerShots, m.pane))
  }

  /** `updateGameLoop` at time `now`: the frame's preparation, then the collision pass. */
  function UpdateGameLoop(m: Manager, now: int, d: Draws): (r: Collision.Outcome)
    ensures r.manager.game.life == m.game.life || r.manager.game.life == m.game.life - 1
    ensures r.manager.game.score >= m.game.score && r.manager.game.highScore >= m.game.highScore
    ensures m.game.score <= m.game.highScore ==> r.manager.game.score <= r.manager.game.highScore
    ensures r.gameOver <==> r.manager.game.life == 0
    ensures r.gameOver ==> !r.manager.timerRunning && !r.manager.playerVisible
    ensures !r.gameOver ==> r.manager.timerRunning == m.timerRunning
    ensures SpawnCooldownInRange(m.spawnCooldown) ==> SpawnCooldownInRange(r.manager.spawnCooldown)
    ensures r.manager.spawnCooldown <= m.spawnCooldown
  {
    Collision.Update(PrepareFrame(m, now, d), now)
  }

  // ------------------------------------------------- projectile timelines

  /** `n` drawn `dy` higher on the pane; a clone, which has no bounds of its own, stays as it is. */
  function Raised(n: Node, dy: real): Node
  {
    if n.Sprite? then n.(box := n.box.(minY := n.box.minY - dy)) else n
  }

  /** `n` drawn `dy` lower on the pane; a clone stays as it is. */
  function Lowered(n: Node, dy: real): Node
  {
    if n.Sprite? then n.(box := n.box.(minY := n.box.minY + dy)) else n
  }

  /** One frame of one node's player-projectile timeline; any other node stays as it is. */
  function RiseNode(n: Node): (r: Option<Node>)
    ensures !(n.Sprite? && n.kind.PlayerShot?) ==> r == Some(n)
    ensures n.Sprite? && n.kind.PlayerShot? ==>
      (r.Some? <==> n.box.minY - Shots.PlayerShotSpeed >= Shots.PlayerShotCeiling)
    ensures n.Sprite? && n.kind.PlayerShot? && r.Some? ==>
      r.value == Raised(n, Shots.PlayerShotSpeed)
  {
    if n.Sprite? && n.kind.PlayerShot? then
      match Shots.StepProjectile(Shots.Projectile(n.box.minX, n.box.minY))
      case None => None
      case Some(p) => Some(n.(box := n.box.(minY := p.y)))
    else Some(n)
  }

  /** One frame of every player projectile's timeline: up 10, off the pane past the ceiling. */
  function AdvancePlayerShots(pane: seq<Node>): (r: seq<Node>)
    ensures |r| <= |pane|
    ensures forall n :: n in pane && !(n.Sprite? && n.kind.PlayerShot?) ==> n in r
    ensures forall n :: n in r && n.Sprite? && n.kind.PlayerShot? ==> n.box.minY >= Shots.PlayerShotCeiling
    ensures forall n :: n in r && !(n.Sprite? && n.kind.PlayerShot?) ==> n in pane
    ensures forall n {:trigger Raised(n, Shots.PlayerShotSpeed)} ::
      n in pane && n.Sprite? && n.kind.PlayerShot? && n.box.minY - Shots.PlayerShotSpeed >= Shots.PlayerShotCeiling ==>
      Raised(n, Shots.PlayerShotSpeed) in r
    ensures forall n :: n in r && n.Sprite? && n.kind.PlayerShot? ==> Lowered(n, Shots.PlayerShotSpeed) in pane
    decreases |pane|
  {
    if |pane| == 0 then []
    else
      var rest := AdvancePlayerShots(pane[1..]);
      assert forall n :: n in pane <==> n == pane[0] || n in pane[1..];
      var n := pane[0];
      match RiseNode(n)
      case None => rest
      case Some(moved) =>
        assert moved.Sprite? && moved.kind.PlayerShot? ==> Lowered(moved, Shots.PlayerShotSpeed) == n;
        assert forall x :: x in [moved] + rest <==> x == moved || x in rest;
        [moved] + rest
  }

  /** One pulse of one node's enemy-projectile timer; any other node stays as it is. */
  function FallNode(n: Node): (r: Option<Node>)
    ensures !(n.Sprite? && n.kind.EnemyShot?) ==> r == Some(n)
    ensures n.Sprite? && n.kind.EnemyShot? && n.kind.timer != Shots.Running ==> r == Some(n)
    ensures n.Sprite? && n.kind == EnemyShot(Shots.Running) ==>
      (r.Some? <==> n.box.minY + Shots.EnemyShotSpeed <= Shots.EnemyShotFloor)
    ensures n.Sprite? && n.kind == EnemyShot(Shots.Running) && r.Some? ==>
      r.value == Lowered(n, Shots.EnemyShotSpeed)
  {
    if n.Sprite? && n.kind.EnemyShot? then
      match Shots.StepEnemyProjectile(Shots.EnemyProjectile(n.box.minX, n.box.minY, n.kind.timer))
      case Gone(_) => None
      case Falling(s) => Some(Sprite(n.id, EnemyShot(s.timer), n.box.(minY := s.y)))
    else Some(n)
  }

  /** One pulse of every enemy projectile's timer: down 2.5 while running, off the pane past the floor. */
  function AdvanceEnemyShots(pane: seq<Node>): (r: seq<Node>)
    ensures |r| <= |pane|
    ensures forall n :: n in pane && !(n.Sprite? && n.kind.EnemyShot?) ==> n in r
    ensures forall n :: n in pane && n.Sprite? && n.kind.EnemyShot? && n.kind.timer != Shots.Running ==> n in r
    ensures forall n :: n in r && n.Sprite? && n.kind.EnemyShot? && n.kind.timer == Shots.Running ==>
      n.box.minY <= Shots.EnemyShotFloor
    ensures forall n :: n in r && !(n.Sprite? && n.kind.EnemyShot?) ==> n in pane
    ensures forall n {:trigger Lowered(n, Shots.EnemyShotSpeed)} ::
      n in pane && n.Sprite? && n.kind == EnemyShot(Shots.Running) && n.box.minY + Shots.EnemyShotSpeed <= Shots.EnemyShotFloor ==>
      Lowered(n, Shots.EnemyShotSpeed) in r
    ensures forall n :: n in r && n.Sprite? && n.kind == EnemyShot(Shots.Running) ==> Raised(n, Shots.EnemyShotSpeed) in pane
    decreases |pane|
  {
    if |pane| == 0 then []
    else
      var rest := AdvanceEnemyShots(pane[1..]);
      assert forall n :: n in pane <==> n == pane[0] || n in pane[1..];
      var n := pane[0];
      match FallNode(n)
      case None => rest
      case Some(moved) =>
        assert moved.Sprite? && moved.kind == EnemyShot(Shots.Running) ==> Raised(moved, Shots.EnemyShotSpeed) == n;
        assert forall x :: x in [moved] + rest <==> x == moved || x in rest;
        [moved] + rest
  }

  // ----------------------------------------------------------- path ends

  /** An enemy or a pepper: the sprites that follow a path transition. */
  predicate Travels(n: Node) {
    n.Sprite? && (n.kind.EnemyNode? || n.kind.PepperNode?)
  }

  /**
   The end of the path transition of the enemy or pepper with this id: it
   takes itself off the pane, and nothing happens when it is no longer there.
   */
  function FinishPath(m: Manager, id: nat): (r: Manager)
    ensures forall n :: n in r.pane <==> n in m.pane && !(n.id == id && Travels(n))
    ensures r == m.(pane := r.pane)
  {
    m.(pane := DropTraveller(m.pane, id))
  }

  /** The pane without the enemy or pepper carrying this id. */
  function DropTraveller(pane: seq<Node>, id: nat): (r: seq<Node>)
    ensures forall n :: n in r <==> n in pane && !(n.id == id && Travels(n))
    ensures |r| <= |pane|
    decreases |pane|
  {
    if |pane| == 0 then []
    else
      var rest := DropTraveller(pane[1..], id);
      assert forall n :: n in pane <==> n == pane[0] || n in pane[1..];
      if pane[0].id == id && Travels(pane[0]) then rest else [pane[0]] + rest
  }

  /**
   One step of the path transition of the enemy or pepper with this id: it is
   drawn with its top-left corner at (x, y), keeping its size; every other
   node stays as it is.
   */
  function MoveTraveller(pane: seq<Node>, id: nat, x: real, y: real): (r: seq<Node>)
    ensures |r| == |pane|
    ensures forall i :: 0 <= i < |pane| && !(pane[i].id == id && Travels(pane[i])) ==> r[i] == pane[i]
    ensures forall i :: 0 <= i < |pane| && pane[i].id == id && Travels(pane[i]) ==>
      r[i] == pane[i].(box := pane[i].box.(minX := x, minY := y))
    decreases |pane|
  {
    if |pane| == 0 then []
    else
      var n := pane[0];
      var rest := MoveTraveller(pane[1..], id, x, y);
      var placed := if n.id == id && Travels(n) then n.(box := n.box.(minX := x, minY := y)) else n;
      assert forall i :: 0 < i < |pane| ==> ([placed] + rest)[i] == rest[i - 1];
      [placed] + rest
  }

  /** Wherever the path has drawn a sprite, the end of the path takes exactly that sprite off the pane. */
  lemma {:induction false} PathEndAfterStep(pane: seq<Node>, id: nat, x: real, y: real)
    ensures DropTraveller(MoveTraveller(pane, id, x, y), id) == DropTraveller(pane, id)
    decreases |pane|
  {
    if |pane| > 0 {
      PathEndAfterStep(pane[1..], id, x, y);
      var moved := MoveTraveller(pane, id, x, y);
      assert moved[1..] == MoveTraveller(pane[1..], id, x, y);
    }
  }

  /** A path ends once: a second end for the same id changes nothing. */
  lemma {:induction false} FinishPathIdempotent(m: Manager, id: nat)
    ensures FinishPath(FinishPath(m, id), id) == FinishPath(m, id)
  {
    DropTravellerTwice(m.pane, id);
  }

  lemma {:induction false} DropTravellerTwice(pane: seq<Node>, id: nat)
    ensures DropTraveller(DropTraveller(pane, id), id) == DropTraveller(pane, id)
    decreases |pane|
  {
    if |pane| > 0 {
      DropTravellerTwice(pane[1..], id);
      var rest := DropTraveller(pane[1..], id);
      if !(pane[0].id == id && Travels(pane[0])) {
        assert ([pane[0]] + rest)[1..] == rest;
      }
    }
  }
}
