/**
 The game manager: the state the per-frame loop works on, and the
 handlers it runs each frame (difficulty ramp, movement, firing, spawning),
 together with key tracking, the pepper toggles, the timed reverts of
 power-ups and the restart.

 The pane is a sequence of nodes (the main sprite, the background and
 explosion images are kept apart). Every node carries a fresh id. Wall-clock
 time arrives as `now` and every random draw as a parameter.
 */
module Game {
  import opened Wrappers
  import opened Geometry
  import Zigzag
  import Shots
  import Foes

  // ------------------------------------------------------------ constants

  const PaneWidth: real := 768.0
  const PaneHeight: real := 1024.0
  const PlayerSpeed: real := 3.0
  const PlayerStartX: real := 384.0 - Zigzag.SpriteWidth / 2.0
  const PlayerStartY: real := 800.0
  const CloneOffset: real := 80.0

  const DefaultFireCooldown: int := 750
  const BoostedFireCooldown: int := 250
  const DefaultSpawnCooldown: int := 1250
  /** The ramp only lowers a spawn cooldown that is still above this. */
  const SpawnCooldownFloor: int := 1000
  const SpawnCooldownStep: int := 50
  const DifficultyInterval: int := 30000
  const PowerUpSpawnCooldown: int := 20000
  /** How long a salt or pepper effect lasts before its revert runs. */
  const EffectDuration: int := 15000
  const StartingLife: int := 3

  // ----------------------------------------------------------------- data

  datatype Key = Up | Down | Left | Right | Space | Enter | Escape | OtherKey(code: nat)

  /** Lives, score, best score, and when the player was last hurt. */
  datatype GameState = GameState(life: int, score: int, highScore: int, timeSinceLastTookDamage: int)

  /** What a sprite on the pane is. */
  datatype Kind =
    | EnemyNode(enemy: Foes.Enemy)
    | PlayerShot
    | EnemyShot(timer: Shots.Timer)
    | SaltNode
    | PepperNode(pepper: Foes.Pepper)

  /**
   A node of the game pane. A clone of the player has no position of its
   own: its x is bound to the main sprite's x plus `offset`, its y to the
   main sprite's y. Every other sprite carries its current bounds.
   */
  datatype Node =
    | Clone(id: nat, offset: real)
    | Sprite(id: nat, kind: Kind, box: Box)

  /** The two timed reverts a power-up pickup schedules. */
  datatype Revert = RestoreFireCooldown | EndPepperShot
  datatype Pending = Pending(due: int, action: Revert)

  /** Image heights at their fitted widths (they depend on the image files). */
  datatype Sizes = Sizes(player: real, enemy: real, shot: real, enemyShot: real, pepper: real)

  datatype Manager = Manager(
    game: GameState,
    player: Box,
    playerVisible: bool,
    pane: seq<Node>,
    nextId: nat,
    keys: set<Key>,
    spacePressed: bool,
    activeEnemies: seq<nat>,
    activeEnemyShots: set<nat>,
    activePlayerShots: set<nat>,
    fireOffsets: seq<real>,
    leftClone: Option<nat>,
    rightClone: Option<nat>,
    lastFired: int,
    lastSpawned: int,
    lastPowerUp: int,
    lastDifficultyIncrease: int,
    fireCooldown: int,
    spawnCooldown: int,
    timerRunning: bool,
    lifeIcons: set<int>,
    pending: seq<Pending>,
    sizes: Sizes)

  /** Lives between 0 and 3, and a score between 0 and the best score. */
  predicate Sane(g: GameState) {
    0 <= g.life <= StartingLife && 0 <= g.score <= g.highScore
  }

  /** The state a new game state object starts in. */
  function NewGameState(): GameState {
    GameState(StartingLife, 0, 0, 0)
  }

  /** The manager as constructed, before the game is started. */
  function NewManager(sizes: Sizes): Manager {
    Manager(NewGameState(), Box(0.0, 0.0, Zigzag.SpriteWidth, sizes.player), true, [], 0,
            {}, false, [], {}, {}, [], None, None, 0, 0, 0, 0,
            DefaultFireCooldown, DefaultSpawnCooldown, false, {}, [], sizes)
  }

  // ---------------------------------------------------------- pane access

  predicate HasId(pane: seq<Node>, id: nat) {
    exists i :: 0 <= i < |pane| && pane[i].id == id
  }

  /** The first node with this id. */
  function FindNode(pane: seq<Node>, id: nat): (r: Option<Node>)
    ensures r.Some? ==> r.value in pane && r.value.id == id
    ensures r.None? ==> !HasId(pane, id)
  {
    if |pane| == 0 then None
    else if pane[0].id == id then Some(pane[0])
    else
      var r := FindNode(pane[1..], id);
      assert r.None? ==> forall i :: 1 <= i < |pane| ==> pane[i].id == pane[1..][i - 1].id;
      r
  }

  /** The pane without the nodes whose ids are listed. */
  function RemoveIds(pane: seq<Node>, ids: set<nat>): (r: seq<Node>)
    ensures forall n :: n in r <==> n in pane && n.id !in ids
    ensures |r| <= |pane|
  {
    if |pane| == 0 then []
    else
      var rest := RemoveIds(pane[1..], ids);
      assert forall n :: n in pane <==> n == pane[0] || n in pane[1..];
      if pane[0].id in ids then rest else [pane[0]] + rest
  }

  /** The pane with the state of every enemy carrying this id replaced. */
  function ReplaceEnemy(pane: seq<Node>, id: nat, e: Foes.Enemy): (r: seq<Node>)
    ensures |r| == |pane|
    ensures forall i :: 0 <= i < |pane| ==> r[i].id == pane[i].id
    ensures forall i :: 0 <= i < |pane| && (pane[i].id != id || !IsEnemy(pane[i])) ==> r[i] == pane[i]
    ensures forall i :: 0 <= i < |pane| && pane[i].id == id && IsEnemy(pane[i]) ==>
      r[i] == Sprite(id, EnemyNode(e), pane[i].box)
  {
    seq(|pane|, i requires 0 <= i < |pane| =>
      if pane[i].id == id && IsEnemy(pane[i]) then Sprite(id, EnemyNode(e), pane[i].box) else pane[i])
  }

  predicate IsEnemy(n: Node) { n.Sprite? && n.kind.EnemyNode? }

  // ----------------------------------------------------------------- keys

  /** `handleKeyPress`: remember the key; a SPACE press sets the fire flag. */
  function HandleKeyPress(m: Manager, k: Key): (r: Manager)
    ensures r.keys == m.keys + {k}
    ensures r.spacePressed == (k == Space || m.spacePressed)
    ensures r == m.(keys := r.keys, spacePressed := r.spacePressed)
  {
    m.(keys := m.keys + {k}, spacePressed := if k == Space then true else m.spacePressed)
  }

  /** `handleKeyRelease`: forget the key; a SPACE release clears the fire flag. */
  function HandleKeyRelease(m: Manager, k: Key): (r: Manager)
    ensures r.keys == m.keys - {k}
    ensures r.spacePressed == (k != Space && m.spacePressed)
    ensures r == m.(keys := r.keys, spacePressed := r.spacePressed)
  {
    m.(keys := m.keys - {k}, spacePressed := if k == Space then false else m.spacePressed)
  }

  datatype KeyEvent = Press(key: Key) | Release(key: Key)

  function ApplyKey(m: Manager, e: KeyEvent): Manager {
    match e
    case Press(k) => HandleKeyPress(m, k)
    case Release(k) => HandleKeyRelease(m, k)
  }

  /** Replay a sequence of key events in order. */
  function ReplayKeys(m: Manager, trace: seq<KeyEvent>): Manager
    decreases |trace|
  {
    if |trace| == 0 then m else ReplayKeys(ApplyKey(m, trace[0]), trace[1..])
  }

  /** The last SPACE event of a trace, if there is one. */
  function LastSpaceEvent(trace: seq<KeyEvent>): (r: Option<KeyEvent>)
    ensures r.Some? ==> r.value.key == Space && r.value in trace
    decreases |trace|
  {
    if |trace| == 0 then None
    else if trace[|trace| - 1].key == Space then Some(trace[|trace| - 1])
    else LastSpaceEvent(trace[..|trace| - 1])
  }

  /** The fire flag is set exactly after a SPACE press that no SPACE release has followed. */
  lemma {:induction false} SpacePressedFollowsLastSpaceEvent(m: Manager, trace: seq<KeyEvent>)
    ensures ReplayKeys(m, trace).spacePressed ==
      match LastSpaceEvent(trace)
      case None => m.spacePressed
      case Some(e) => e.Press?
    decreases |trace|
  {
    if |trace| > 0 {
      var m1 := ApplyKey(m, trace[0]);
      SpacePressedFollowsLastSpaceEvent(m1, trace[1..]);
      LastSpaceOfTail(trace);
    }
  }

  /** The last SPACE event of a non-empty trace is that of its tail, or else its head. */
  lemma {:induction false} LastSpaceOfTail(trace: seq<KeyEvent>)
    requires |trace| > 0
    ensures LastSpaceEvent(trace) ==
      match LastSpaceEvent(trace[1..])
      case Some(e) => Some(e)
      case None => if trace[0].key == Space then Some(trace[0]) else None
    decreases |trace|
  {
    if |trace| > 1 {
      assert trace[1..][..|trace[1..]| - 1] == trace[..|trace| - 1][1..];
      if trace[|trace| - 1].key != Space {
        LastSpaceOfTail(trace[..|trace| - 1]);
      }
    }
  }

  /** Key tracking keeps the fire flag equal to "SPACE is among the held keys". */
  lemma {:induction false} SpaceFlagMatchesHeldKeys(m: Manager, trace: seq<KeyEvent>)
    requires m.spacePressed <==> Space in m.keys
    ensures ReplayKeys(m, trace).spacePressed <==> Space in ReplayKeys(m, trace).keys
    decreases |trace|
  {
    if |trace| > 0 {
      SpaceFlagMatchesHeldKeys(ApplyKey(m, trace[0]), trace[1..]);
    }
  }

  // ------------------------------------------------------- difficulty ramp

  /** The ramp fires when 30 s have passed since the last step and the cooldown is above the floor. */
  predicate RampDue(m: Manager, now: int) {
    now - m.lastDifficultyIncrease >= DifficultyInterval && m.spawnCooldown > SpawnCooldownFloor
  }

  /** `updateDifficulty`: lower the enemy spawn cooldown by 50 ms every 30 s, down to 1000 ms. */
  function UpdateDifficulty(m: Manager, now: int): (r: Manager)
    ensures RampDue(m, now) ==>
      r.spawnCooldown == m.spawnCooldown - SpawnCooldownStep && r.lastDifficultyIncrease == now
    ensures !RampDue(m, now) ==> r == m
    ensures SpawnCooldownInRange(m.spawnCooldown) ==> SpawnCooldownInRange(r.spawnCooldown)
    ensures r == m.(spawnCooldown := r.spawnCooldown, lastDifficultyIncrease := r.lastDifficultyIncrease)
  {
    if now - m.lastDifficultyIncrease >= 30000 && m.spawnCooldown > 1000 then
      m.(spawnCooldown := m.spawnCooldown - 50, lastDifficultyIncrease := now)
    else m
  }

  /** Cooldowns the ramp can reach from the default: multiples of 50 in [1000, 1250]. */
  predicate SpawnCooldownInRange(cd: int) {
    SpawnCooldownFloor <= cd <= DefaultSpawnCooldown && cd % SpawnCooldownStep == 0
  }

  /** The difficulty ramp over a sequence of frame times. */
  function RampOver(m: Manager, times: seq<int>): Manager
    decreases |times|
  {
    if |times| == 0 then m else RampOver(UpdateDifficulty(m, times[0]), times[1..])
  }

  /** From any cooldown the ramp can reach, however many frames run, the cooldown stays in [1000, 1250] and never rises. */
  lemma {:induction false} RampStaysInRange(m: Manager, times: seq<int>)
    requires SpawnCooldownInRange(m.spawnCooldown)
    ensures SpawnCooldownInRange(RampOver(m, times).spawnCooldown)
    ensures RampOver(m, times).spawnCooldown <= m.spawnCooldown
    decreases |times|
  {
    if |times| > 0 {
      RampStaysInRange(UpdateDifficulty(m, times[0]), times[1..]);
    }
  }

  /** Thirty seconds or more after the default cooldown was set, the first step brings it to 1200. */
  lemma FirstRampStep(m: Manager, now: int)
    requires m.spawnCooldown == DefaultSpawnCooldown
    requires now >= m.lastDifficultyIncrease + DifficultyInterval
    ensures UpdateDifficulty(m, now).spawnCooldown == 1200
  {
  }

  /** At the floor the ramp stops, however much time passes. */
  lemma RampStopsAtFloor(m: Manager, now: int)
    requires m.spawnCooldown == SpawnCooldownFloor
    ensures UpdateDifficulty(m, now) == m
  {
  }

  // -------------------------------------------------------------- movement

  /** The movement a set of held keys asks for: 3 per axis, opposite keys cancelling. */
  function KeyDelta(keys: set<Key>): (r: (real, real))
    ensures Abs(r.0) <= PlayerSpeed && Abs(r.1) <= PlayerSpeed
  {
    var dy := (if Up in keys then -PlayerSpeed else 0.0) + (if Down in keys then PlayerSpeed else 0.0);
    var dx := (if Left in keys then -PlayerSpeed else 0.0) + (if Right in keys then PlayerSpeed else 0.0);
    (dx, dy)
  }

  /** The most negative fire offset, if any offset is negative. */
  function MinNegative(s: seq<real>): (r: Option<real>)
    ensures r.Some? ==> r.value in s && r.value < 0.0
    ensures r.Some? ==> forall x :: x in s && x < 0.0 ==> r.value <= x
    ensures r.None? ==> forall x :: x in s ==> x >= 0.0
    decreases |s|
  {
    if |s| == 0 then None
    else
      var rest := MinNegative(s[1..]);
      assert forall x :: x in s ==> x == s[0] || x in s[1..];
      if s[0] < 0.0 && (rest.None? || s[0] <= rest.value) then Some(s[0])
      else rest
  }

  /** The most positive fire offset, if any offset is positive. */
  function MaxPositive(s: seq<real>): (r: Option<real>)
    ensures r.Some? ==> r.value in s && r.value > 0.0
    ensures r.Some? ==> forall x :: x in s && x > 0.0 ==> x <= r.value
    ensures r.None? ==> forall x :: x in s ==> x <= 0.0
    decreases |s|
  {
    if |s| == 0 then None
    else
      var rest := MaxPositive(s[1..]);
      assert forall x :: x in s ==> x == s[0] || x in s[1..];
      if s[0] > 0.0 && (rest.None? || s[0] >= rest.value) then Some(s[0])
      else rest
  }

  /** How far left of the main sprite the formation reaches (the left clone, when there is one). */
  function LeftOffset(m: Manager): real {
    if m.leftClone.Some? then MinNegative(m.fireOffsets).GetOr(-CloneOffset) else 0.0
  }

  /** How far right of the main sprite's right edge the formation reaches. */
  function RightOffset(m: Manager): real {
    if m.rightClone.Some? then MaxPositive(m.fireOffsets).GetOr(CloneOffset) else 0.0
  }

  /** The main sprite and its clones lie within [0, w] x [0, h]. */
  predicate FormationInside(m: Manager, w: real, h: real) {
    0.0 <= m.player.minX + LeftOffset(m) &&
    m.player.MaxX() + RightOffset(m) <= w &&
    0.0 <= m.player.minY && m.player.MaxY() <= h
  }

  function Abs(x: real): real { if x < 0.0 then -x else x }

  /**
   One axis of `handlePlayerMovement`: the move `d` of an extent [lo, hi],
   cut short first at 0 and then at `limit`. A move that stays within the
   bounds is made as asked; one that would cross an edge stops exactly at
   it; an extent wider than the bounds ends flush with `limit`.
   */
  function Slide(lo: real, hi: real, d: real, limit: real): (r: real)
    ensures hi + r <= limit
    ensures 0.0 <= lo + d && hi + d <= limit ==> r == d
    ensures lo + d < 0.0 && hi - lo <= limit ==> r == -lo
    ensures 0.0 <= lo + d && limit < hi + d ==> r == limit - hi
    ensures lo + d < 0.0 && limit < hi - lo ==> r == limit - hi
    ensures 0.0 <= lo && hi <= limit ==> 0.0 <= lo + r && Abs(r) <= Abs(d)
  {
    var d1 := if lo + d < 0.0 then d - (lo + d) else d;
    if hi + d1 > limit then d1 - (hi + d1 - limit) else d1
  }

  /**
   `handlePlayerMovement`: move by the held keys, cutting the move short at
   each pane edge for the whole formation (the clones' offsets included).
   */
  function HandlePlayerMovement(m: Manager, w: real, h: real): (r: Manager)
    ensures r == m.(player := m.player.(minX := r.player.minX, minY := r.player.minY))
    ensures FormationInside(m, w, h) ==> FormationInside(r, w, h)
    ensures FormationInside(m, w, h) ==>
      Abs(r.player.minX - m.player.minX) <= PlayerSpeed && Abs(r.player.minY - m.player.minY) <= PlayerSpeed
    ensures var (dx, dy) := KeyDelta(m.keys);
      0.0 <= m.player.minX + LeftOffset(m) + dx && m.player.MaxX() + RightOffset(m) + dx <= w ==>
        r.player.minX == m.player.minX + dx
    ensures var (dx, dy) := KeyDelta(m.keys);
      0.0 <= m.player.minY + dy && m.player.MaxY() + dy <= h ==>
        r.player.minY == m.player.minY + dy
  {
    var (dx0, dy0) := KeyDelta(m.keys);
    var dx := Slide(m.player.minX + LeftOffset(m), m.player.MaxX() + RightOffset(m), dx0, w);
    var dy := Slide(m.player.minY, m.player.MaxY(), dy0, h);
    m.(player := m.player.(minX := m.player.minX + dx, minY := m.player.minY + dy))
  }

  /**
   A move that would take the formation across an edge stops it exactly at
   that edge, wherever the formation started; the formation never ends past
   the right or the bottom edge.
   */
  lemma MovementStopsAtEdges(m: Manager, w: real, h: real)
    ensures var r := HandlePlayerMovement(m, w, h);
      r.player.MaxX() + RightOffset(r) <= w && r.player.MaxY() <= h
    ensures var (dx, dy) := KeyDelta(m.keys);
      var r := HandlePlayerMovement(m, w, h);
      var lo := m.player.minX + LeftOffset(m);
      var hi := m.player.MaxX() + RightOffset(m);
      (lo + dx < 0.0 && hi - lo <= w ==> r.player.minX + LeftOffset(r) == 0.0) &&
      (0.0 <= lo + dx && w < hi + dx ==> r.player.MaxX() + RightOffset(r) == w) &&
      (lo + dx < 0.0 && w < hi - lo ==> r.player.MaxX() + RightOffset(r) == w)
    ensures var (dx, dy) := KeyDelta(m.keys);
      var r := HandlePlayerMovement(m, w, h);
      (m.player.minY + dy < 0.0 && m.player.height <= h ==> r.player.minY == 0.0) &&
      (0.0 <= m.player.minY + dy && h < m.player.MaxY() + dy ==> r.player.MaxY() == h) &&
      (m.player.minY + dy < 0.0 && h < m.player.height ==> r.player.MaxY() == h)
  {
    var r := HandlePlayerMovement(m, w, h);
    assert LeftOffset(r) == LeftOffset(m) && RightOffset(r) == RightOffset(m);
  }

  // ---------------------------------------------------------------- firing

  /** Whether the fire key is held and the player's cooldown has passed. */
  predicate MayFire(m: Manager, now: int) {
    m.spacePressed && now - m.lastFired >= m.fireCooldown
  }

  /** `fireProjectile(x, y)`: a new player projectile node, tracked as active. */
  function AddPlayerShot(m: Manager, cx: real, cy: real): (r: Manager)
    ensures r.pane == m.pane + [Sprite(m.nextId, PlayerShot,
      Box(cx - Shots.ShotWidth / 2.0, cy - 25.0, Shots.ShotWidth, m.sizes.shot))]
    ensures r.activePlayerShots == m.activePlayerShots + {m.nextId}
    ensures r.nextId == m.nextId + 1
    ensures r == m.(pane := r.pane, activePlayerShots := r.activePlayerShots, nextId := r.nextId)
  {
    var p := Shots.FireProjectile(cx, cy);
    m.(pane := m.pane + [Sprite(m.nextId, PlayerShot, Box(p.x, p.y, Shots.ShotWidth, m.sizes.shot))],
       activePlayerShots := m.activePlayerShots + {m.nextId},
       nextId := m.nextId + 1)
  }

  /** One projectile per offset, each centred on `cx + offset`. */
  function FireFromOffsets(m: Manager, cx: real, cy: real, offsets: seq<real>): (r: Manager)
    ensures |r.pane| == |m.pane| + |offsets|
    ensures r.pane[..|m.pane|] == m.pane
    ensures forall j :: 0 <= j < |offsets| ==>
      r.pane[|m.pane| + j] == Sprite(m.nextId + j, PlayerShot,
        Box(cx + offsets[j] - Shots.ShotWidth / 2.0, cy - 25.0, Shots.ShotWidth, m.sizes.shot))
    ensures r.nextId == m.nextId + |offsets|
    ensures forall id :: id in r.activePlayerShots <==> id in m.activePlayerShots || m.nextId <= id < r.nextId
    ensures r == m.(pane := r.pane, activePlayerShots := r.activePlayerShots, nextId := r.nextId)
    decreases |offsets|
  {
    if |offsets| == 0 then m
    else
      var m1 := AddPlayerShot(m, cx + offsets[0], cy);
      FireFromOffsets(m1, cx, cy, offsets[1..])
  }

  /**
   One volley: a projectile from the main sprite's centre and one per fire
   offset, all starting 25 above its top edge, and the time recorded.
   */
  function Volley(m: Manager, now: int): (r: Manager)
    ensures r.lastFired == now
    ensures r.game == m.game && r.spawnCooldown == m.spawnCooldown
    ensures r.playerVisible == m.playerVisible && r.timerRunning == m.timerRunning
    ensures forall id :: id in r.activePlayerShots <==> id in m.activePlayerShots || m.nextId <= id < r.nextId
    ensures |r.pane| == |m.pane| + 1 + |m.fireOffsets|
    ensures r.pane[..|m.pane|] == m.pane
    ensures r == m.(pane := r.pane, activePlayerShots := r.activePlayerShots, nextId := r.nextId, lastFired := now)
  {
    var cx := m.player.minX + Zigzag.SpriteWidth / 2.0;
    var m1 := AddPlayerShot(m, cx, m.player.minY);
    assert |m1.pane| == |m.pane| + 1 && m1.nextId == m.nextId + 1;
    assert m1.sizes == m.sizes && m1.fireOffsets == m.fireOffsets;
    var m2 := FireFromOffsets(m1, cx, m.player.minY, m.fireOffsets);
    assert m2.pane[..|m.pane|] == m1.pane[..|m1.pane|][..|m.pane|];
    m2.(lastFired := now)
  }

  /** Where a volley's projectiles start: the first from the main centre, then one per offset, in order. */
  lemma VolleyShots(m: Manager, now: int)
    ensures var r := Volley(m, now);
      r.pane[|m.pane|] == Sprite(m.nextId, PlayerShot,
        Box(m.player.minX + Zigzag.SpriteWidth / 2.0 - Shots.ShotWidth / 2.0,
            m.player.minY - 25.0, Shots.ShotWidth, m.sizes.shot))
    ensures var r := Volley(m, now);
      forall j :: 0 <= j < |m.fireOffsets| ==>
        r.pane[|m.pane| + 1 + j] == Sprite(m.nextId + 1 + j, PlayerShot,
          Box(m.player.minX + Zigzag.SpriteWidth / 2.0 + m.fireOffsets[j] - Shots.ShotWidth / 2.0,
              m.player.minY - 25.0, Shots.ShotWidth, m.sizes.shot))
  {
    var cx := m.player.minX + Zigzag.SpriteWidth / 2.0;
    var m1 := AddPlayerShot(m, cx, m.player.minY);
    assert |m1.pane| == |m.pane| + 1 && m1.nextId == m.nextId + 1;
    assert m1.sizes == m.sizes && m1.fireOffsets == m.fireOffsets;
  }

  /** `handlePlayerFiring`: a volley when SPACE is held and the fire cooldown has passed, nothing otherwise. */
  function HandlePlayerFiring(m: Manager, now: int): (r: Manager)
    ensures !MayFire(m, now) ==> r == m
    ensures MayFire(m, now) ==> r == Volley(m, now)
    ensures r.game == m.game && r.spawnCooldown == m.spawnCooldown
    ensures r.playerVisible == m.playerVisible && r.timerRunning == m.timerRunning
    ensures forall id :: id in r.activePlayerShots ==> id in m.activePlayerShots || id >= m.nextId
    ensures r == m.(pane := r.pane, activePlayerShots := r.activePlayerShots, nextId := r.nextId, lastFired := r.lastFired)
  {
    if !m.spacePressed || now - m.lastFired < m.fireCooldown then m
    else Volley(m, now)
  }

  // -------------------------------------------------------------- spawning

  /** No id is listed twice. */
  predicate Distinct(ids: seq<nat>) {
    forall i, j :: 0 <= i < j < |ids| ==> ids[i] != ids[j]
  }

  /** The ids of the list that still name a node of the pane, in order. */
  function Prune(ids: seq<nat>, pane: seq<Node>): (r: seq<nat>)
    ensures forall id :: id in r <==> id in ids && HasId(pane, id)
    ensures Distinct(ids) ==> Distinct(r)
    decreases |ids|
  {
    if |ids| == 0 then []
    else
      var rest := Prune(ids[1..], pane);
      assert forall id :: id in ids <==> id == ids[0] || id in ids[1..];
      assert Distinct(ids) ==> Distinct(ids[1..]) && ids[0] !in ids[1..];
      if HasId(pane, ids[0]) then [ids[0]] + rest else rest
  }

  /** The node of the projectile an enemy at `box` fires: centred under the enemy, its top edge at the enemy's bottom edge. */
  function EnemyShotFrom(id: nat, box: Box, sizes: Sizes): Node {
    Sprite(id, EnemyShot(Shots.Running),
           Box(box.minX + Zigzag.SpriteWidth / 2.0 - Shots.ShotWidth / 2.0, box.MaxY(), Shots.ShotWidth, sizes.enemyShot))
  }

  /** The node with this id is an enemy whose fire cooldown has passed and whose bottom edge is inside the pane. */
  predicate Fires(pane: seq<Node>, id: nat, now: int) {
    var n := FindNode(pane, id);
    n.Some? && IsEnemy(n.value) &&
    now - n.value.kind.enemy.lastFired >= Foes.EnemyFireCooldown && 0.0 < n.value.box.MaxY() < PaneHeight
  }

  /**
   The projectiles the listed enemies fire, in list order, judged on the
   pane as it is before any of them fires, with ids from `start` upwards.
   */
  function FiredShots(pane: seq<Node>, ids: seq<nat>, now: int, start: nat, sizes: Sizes): seq<Node>
    decreases |ids|
  {
    if |ids| == 0 then []
    else if Fires(pane, ids[0], now) then
      [EnemyShotFrom(start, FindNode(pane, ids[0]).value.box, sizes)] + FiredShots(pane, ids[1..], now, start + 1, sizes)
    else FiredShots(pane, ids[1..], now, start, sizes)
  }

  /** Firing changes only the pane, the active enemy projectiles and the next fresh id. */
  predicate OnlyShotsChange(m: Manager, r: Manager) {
    r == m.(pane := r.pane, activeEnemyShots := r.activeEnemyShots, nextId := r.nextId)
  }

  /** A new enemy projectile node, tracked as active. */
  function AddEnemyShot(m: Manager, s: Shots.EnemyProjectile): (r: Manager)
    ensures r.pane == m.pane + [Sprite(m.nextId, EnemyShot(s.timer),
      Box(s.x, s.y, Shots.ShotWidth, m.sizes.enemyShot))]
    ensures r.activeEnemyShots == m.activeEnemyShots + {m.nextId} && m.nextId in r.activeEnemyShots
    ensures r.nextId == m.nextId + 1
    ensures OnlyShotsChange(m, r)
  {
    m.(pane := m.pane + [Sprite(m.nextId, EnemyShot(s.timer), Box(s.x, s.y, Shots.ShotWidth, m.sizes.enemyShot))],
       activeEnemyShots := m.activeEnemyShots + {m.nextId},
       nextId := m.nextId + 1)
  }

  /**
   Let the enemy with this id try to fire (`Enemy.fire`). It fires exactly
   when its cooldown has passed and it is inside the pane: its fire time
   becomes `now` and one running projectile, tracked as active, is appended
   below it. Otherwise nothing changes.
   */
  function EnemyTriesFire(m: Manager, id: nat, now: int): (r: Manager)
    ensures !Fires(m.pane, id, now) ==> r == m
    ensures Fires(m.pane, id, now) ==>
      |r.pane| == |m.pane| + 1 &&
      r.pane[|m.pane|] == EnemyShotFrom(m.nextId, FindNode(m.pane, id).value.box, m.sizes) &&
      r.activeEnemyShots == m.activeEnemyShots + {m.nextId} && r.nextId == m.nextId + 1
    ensures |m.pane| <= |r.pane| <= |m.pane| + 1
    ensures forall i :: 0 <= i < |m.pane| ==> r.pane[i].id == m.pane[i].id
    ensures forall i :: 0 <= i < |m.pane| && !IsEnemy(m.pane[i]) ==> r.pane[i] == m.pane[i]
    ensures forall i :: |m.pane| <= i < |r.pane| ==> r.pane[i].Sprite? && r.pane[i].kind == EnemyShot(Shots.Running)
    ensures OnlyShotsChange(m, r)
    ensures r.nextId >= m.nextId
  {
    match FindNode(m.pane, id)
    case Some(Sprite(_, EnemyNode(e), box)) => EnemyFires(m, id, e, box, now)
    case _ => m
  }

  /** The enemy `e` at `box`, carrying this id, tries to fire: on a shot its state is updated in place and the shot is appended. */
  function EnemyFires(m: Manager, id: nat, e: Foes.Enemy, box: Box, now: int): (r: Manager)
    ensures (now - e.lastFired >= Foes.EnemyFireCooldown && 0.0 < box.MaxY() < PaneHeight) <==> r != m
    ensures r != m ==>
      r.pane == ReplaceEnemy(m.pane, id, e.(lastFired := now)) + [EnemyShotFrom(m.nextId, box, m.sizes)] &&
      r.activeEnemyShots == m.activeEnemyShots + {m.nextId} && r.nextId == m.nextId + 1
    ensures OnlyShotsChange(m, r)
  {
    var fired := Foes.Fire(e, box, now, PaneHeight);
    if fired.shot.Some? then AddEnemyShot(m.(pane := ReplaceEnemy(m.pane, id, fired.enemy)), fired.shot.value)
    else m
  }

  /** Looking an id up after one enemy's state was replaced: other ids find what they found before; the replaced enemy is found with its new state. */
  lemma {:induction false} FindNodeReplace(pane: seq<Node>, id: nat, e: Foes.Enemy, x: nat)
    ensures x != id ==> FindNode(ReplaceEnemy(pane, id, e), x) == FindNode(pane, x)
    ensures x == id && FindNode(pane, id).Some? && IsEnemy(FindNode(pane, id).value) ==>
      FindNode(ReplaceEnemy(pane, id, e), id) == Some(Sprite(id, EnemyNode(e), FindNode(pane, id).value.box))
    decreases |pane|
  {
    if |pane| > 0 {
      var q := ReplaceEnemy(pane, id, e);
      assert q[1..] == ReplaceEnemy(pane[1..], id, e);
      FindNodeReplace(pane[1..], id, e, x);
    }
  }

  /** Appending nodes does not change what an id finds when the pane already has it or the new nodes carry other ids. */
  lemma {:induction false} FindNodeAppend(pane: seq<Node>, extra: seq<Node>, x: nat)
    requires FindNode(pane, x).Some? || forall k :: 0 <= k < |extra| ==> extra[k].id != x
    ensures FindNode(pane + extra, x) == FindNode(pane, x)
    decreases |pane|
  {
    if |pane| == 0 {
      assert pane + extra == extra;
    } else {
      assert (pane + extra)[1..] == pane[1..] + extra;
      if pane[0].id != x {
        FindNodeAppend(pane[1..], extra, x);
      }
    }
  }

  /** An enemy that fires records `now` as its last fire time; its position stays. */
  lemma FiringRecordsTime(m: Manager, id: nat, now: int)
    requires Fires(m.pane, id, now)
    ensures var n := FindNode(m.pane, id).value;
      FindNode(EnemyTriesFire(m, id, now).pane, id) == Some(Sprite(id, EnemyNode(n.kind.enemy.(lastFired := now)), n.box))
  {
    var n := FindNode(m.pane, id).value;
    var e := n.kind.enemy.(lastFired := now);
    FindNodeReplace(m.pane, id, e, id);
    FindNodeAppend(ReplaceEnemy(m.pane, id, e), [EnemyShotFrom(m.nextId, n.box, m.sizes)], id);
  }

  /** One enemy trying to fire does not change what any other id below the next fresh id finds. */
  lemma TryFireKeepsOthers(m: Manager, id: nat, x: nat, now: int)
    requires x != id && x < m.nextId
    ensures FindNode(EnemyTriesFire(m, id, now).pane, x) == FindNode(m.pane, x)
  {
    var r := EnemyTriesFire(m, id, now);
    if Fires(m.pane, id, now) {
      var n := FindNode(m.pane, id).value;
      FindNodeReplace(m.pane, id, n.kind.enemy.(lastFired := now), x);
      FindNodeAppend(ReplaceEnemy(m.pane, id, n.kind.enemy.(lastFired := now)),
                     [EnemyShotFrom(m.nextId, n.box, m.sizes)], x);
    }
  }

  /** Two panes that find the same nodes for the listed ids fire the same projectiles. */
  lemma {:induction false} FiredShotsAgree(p: seq<Node>, q: seq<Node>, ids: seq<nat>, now: int, start: nat, sizes: Sizes)
    requires forall x :: x in ids ==> FindNode(p, x) == FindNode(q, x)
    ensures FiredShots(p, ids, now, start, sizes) == FiredShots(q, ids, now, start, sizes)
    decreases |ids|
  {
    if |ids| > 0 {
      FiredShotsAgree(p, q, ids[1..], now, start, sizes);
      FiredShotsAgree(p, q, ids[1..], now, start + 1, sizes);
    }
  }

  /** Every listed enemy tries to fire, in order. */
  function EnemiesTryFire(m: Manager, ids: seq<nat>, now: int): (r: Manager)
    ensures |m.pane| <= |r.pane| <= |m.pane| + |ids|
    ensures forall i :: 0 <= i < |m.pane| ==> r.pane[i].id == m.pane[i].id
    ensures forall i :: 0 <= i < |m.pane| && !IsEnemy(m.pane[i]) ==> r.pane[i] == m.pane[i]
    ensures forall i :: |m.pane| <= i < |r.pane| ==> r.pane[i].Sprite? && r.pane[i].kind == EnemyShot(Shots.Running)
    ensures OnlyShotsChange(m, r)
    ensures r.nextId - m.nextId == |r.pane| - |m.pane|
    ensures forall s :: s in r.activeEnemyShots <==> s in m.activeEnemyShots || m.nextId <= s < r.nextId
    decreases |ids|
  {
    if |ids| == 0 then m
    else
      var m1 := EnemyTriesFire(m, ids[0], now);
      EnemiesTryFire(m1, ids[1..], now)
  }

  /**
   The enemies fire independently: when the ids are distinct and older than
   the next fresh id, the nodes appended are exactly the projectiles of the
   listed enemies whose guard holds, in list order, with fresh ids that all
   join the active enemy projectiles.
   */
  lemma {:induction false} EnemiesFireIndependently(m: Manager, ids: seq<nat>, now: int)
    requires Distinct(ids) && forall x :: x in ids ==> x < m.nextId
    ensures var r := EnemiesTryFire(m, ids, now);
      r.pane[|m.pane|..] == FiredShots(m.pane, ids, now, m.nextId, m.sizes)
    decreases |ids|
  {
    if |ids| > 0 {
      var m1 := EnemyTriesFire(m, ids[0], now);
      FirstTryKeepsRest(m, ids, now);
      EnemiesFireIndependently(m1, ids[1..], now);
      var r := EnemiesTryFire(m1, ids[1..], now);
      assert r == EnemiesTryFire(m, ids, now);
      var tail := FiredShots(m.pane, ids[1..], now, m1.nextId, m.sizes);
      if Fires(m.pane, ids[0], now) {
        var shot := EnemyShotFrom(m.nextId, FindNode(m.pane, ids[0]).value.box, m.sizes);
        assert m1.pane[|m.pane|] == shot && |m1.pane| == |m.pane| + 1;
        assert r.pane[|m.pane|] == shot;
        SliceStep(r.pane, |m.pane|);
      }
    }
  }

  /** After the first enemy's try the rest are still distinct and older than the next fresh id, and fire the same projectiles. */
  lemma FirstTryKeepsRest(m: Manager, ids: seq<nat>, now: int)
    requires |ids| > 0 && Distinct(ids) && forall x :: x in ids ==> x < m.nextId
    ensures var m1 := EnemyTriesFire(m, ids[0], now);
      Distinct(ids[1..]) && (forall x :: x in ids[1..] ==> x < m1.nextId) &&
      FiredShots(m1.pane, ids[1..], now, m1.nextId, m.sizes) == FiredShots(m.pane, ids[1..], now, m1.nextId, m.sizes) &&
      m1.sizes == m.sizes
  {
    var m1 := EnemyTriesFire(m, ids[0], now);
    var rest := ids[1..];
    assert forall x :: x in rest ==> x in ids && x != ids[0];
    forall x | x in rest ensures FindNode(m1.pane, x) == FindNode(m.pane, x) {
      TryFireKeepsOthers(m, ids[0], x, now);
    }
    FiredShotsAgree(m1.pane, m.pane, rest, now, m1.nextId, m.sizes);
  }

  /** A suffix of a sequence is its first element followed by the suffix after it. */
  lemma SliceStep(s: seq<Node>, k: nat)
    requires k < |s|
    ensures s[k..] == [s[k]] + s[k + 1..]
  {
  }

  /** The enemy node a spawn adds, at its spawn corner. */
  function EnemySpawnNode(id: nat, e: Foes.Enemy, sizes: Sizes): Node {
    Sprite(id, EnemyNode(e), Box(e.startingX, Zigzag.StartY, Zigzag.SpriteWidth, sizes.enemy))
  }

  /** Whether the enemy spawn cooldown has passed. */
  predicate EnemySpawnDue(m: Manager, now: int) {
    now - m.lastSpawned >= m.spawnCooldown
  }

  /** What the firing and spawning handlers leave alone: lives and score, the spawn cooldown, the player's projectiles and visibility, the loop. */
  predicate Untouched(m: Manager, r: Manager) {
    r.game == m.game && r.spawnCooldown == m.spawnCooldown && r.activePlayerShots == m.activePlayerShots &&
    r.playerVisible == m.playerVisible && r.timerRunning == m.timerRunning
  }

  /** Spawn one enemy when the spawn cooldown has passed. */
  function SpawnEnemyIfDue(m: Manager, now: int, startDraw: int, directionDraw: int): (r: Manager)
    ensures !EnemySpawnDue(m, now) ==> r == m
    ensures EnemySpawnDue(m, now) ==>
      r.pane == m.pane + [EnemySpawnNode(m.nextId, Foes.SpawnEnemy(startDraw, directionDraw), m.sizes)] &&
      r.activeEnemies == m.activeEnemies + [m.nextId] &&
      r.lastSpawned == now && r.nextId == m.nextId + 1
    ensures r == m.(pane := r.pane, activeEnemies := r.activeEnemies, nextId := r.nextId, lastSpawned := r.lastSpawned)
  {
    if now - m.lastSpawned >= m.spawnCooldown then
      var e := Foes.SpawnEnemy(startDraw, directionDraw);
      m.(pane := m.pane + [EnemySpawnNode(m.nextId, e, m.sizes)],
         activeEnemies := m.activeEnemies + [m.nextId],
         lastSpawned := now,
         nextId := m.nextId + 1)
    else m
  }

  /**
   `handleEnemySpawning`: spawn an enemy when due, drop the tracked enemies
   that have left the pane, then let every tracked enemy try to fire.
   */
  function HandleEnemySpawning(m: Manager, now: int, startDraw: int, directionDraw: int): (r: Manager)
    ensures r.lastSpawned == (if EnemySpawnDue(m, now) then now else m.lastSpawned)
    ensures EnemySpawnDue(m, now) ==> m.nextId in r.activeEnemies
    ensures forall id :: id in r.activeEnemies ==> HasId(r.pane, id)
    ensures forall id :: id in r.activeEnemies ==> id in m.activeEnemies || (EnemySpawnDue(m, now) && id == m.nextId)
    ensures forall id :: id in m.activeEnemies && HasId(m.pane, id) ==> id in r.activeEnemies
    ensures |r.pane| >= |m.pane|
    ensures Untouched(m, r)
    ensures r == m.(pane := r.pane, activeEnemies := r.activeEnemies, activeEnemyShots := r.activeEnemyShots,
                    nextId := r.nextId, lastSpawned := r.lastSpawned)
  {
    var m1 := SpawnEnemyIfDue(m, now, startDraw, directionDraw);
    assert EnemySpawnDue(m, now) ==> m1.pane[|m.pane|].id == m.nextId;
    GrowingKeepsIds(m.pane, m1.pane);
    var m2 := m1.(activeEnemies := Prune(m1.activeEnemies, m1.pane));
    var r := EnemiesTryFire(m2, m2.activeEnemies, now);
    GrowingKeepsIds(m2.pane, r.pane);
    r
  }

  /** A pane whose first nodes keep their ids still has every id the shorter one had. */
  lemma GrowingKeepsIds(p: seq<Node>, q: seq<Node>)
    requires |p| <= |q| && forall i :: 0 <= i < |p| ==> q[i].id == p[i].id
    ensures forall id :: HasId(p, id) ==> HasId(q, id)
  {
    forall id | HasId(p, id) ensures HasId(q, id) {
      var i :| 0 <= i < |p| && p[i].id == id;
      assert q[i].id == id;
    }
  }

  /**
   After the spawn and the pruning, every tracked enemy tries to fire: the
   nodes appended are exactly the projectiles of the tracked enemies whose
   guard holds, in tracking order, when the tracked ids are distinct and
   older than the next fresh id.
   */
  lemma TrackedEnemiesFire(m: Manager, now: int, startDraw: int, directionDraw: int)
    requires Distinct(m.activeEnemies) && forall x :: x in m.activeEnemies ==> x < m.nextId
    ensures var m1 := SpawnEnemyIfDue(m, now, startDraw, directionDraw);
      var r := HandleEnemySpawning(m, now, startDraw, directionDraw);
      r.activeEnemies == Prune(m1.activeEnemies, m1.pane) &&
      r.pane[|m1.pane|..] == FiredShots(m1.pane, r.activeEnemies, now, m1.nextId, m.sizes)
  {
    var m1 := SpawnEnemyIfDue(m, now, startDraw, directionDraw);
    if EnemySpawnDue(m, now) {
      assert m.nextId !in m.activeEnemies;
      assert Distinct(m1.activeEnemies);
    }
    var m2 := m1.(activeEnemies := Prune(m1.activeEnemies, m1.pane));
    EnemiesFireIndependently(m2, m2.activeEnemies, now);
  }

  /** Whether the power-up cooldown has passed. */
  predicate PowerUpDue(m: Manager, now: int) {
    now - m.lastPowerUp >= PowerUpSpawnCooldown
  }

  /**
   `handlePowerUpSpawning`: every 20 s exactly one power-up appears, salt
   when the draw is at least 0.5 and pepper otherwise. The salt's spawn
   bounds are an input.
   */
  function HandlePowerUpSpawning(m: Manager, now: int, kindDraw: real, startDraw: int, saltBox: Box): (r: Manager)
    ensures !PowerUpDue(m, now) ==> r == m
    ensures PowerUpDue(m, now) ==> |r.pane| == |m.pane| + 1 && r.pane[..|m.pane|] == m.pane
    ensures PowerUpDue(m, now) ==> r.lastPowerUp == now && r.pane[|m.pane|].Sprite?
    ensures r == m.(pane := r.pane, nextId := r.nextId, lastPowerUp := r.lastPowerUp)
    ensures PowerUpDue(m, now) ==> (r.pane[|m.pane|].kind == SaltNode <==> kindDraw >= 0.5)
    ensures PowerUpDue(m, now) ==> (r.pane[|m.pane|].kind.PepperNode? <==> kindDraw < 0.5)
    ensures PowerUpDue(m, now) && kindDraw >= 0.5 ==> r.pane[|m.pane|] == Sprite(m.nextId, SaltNode, saltBox)
    ensures PowerUpDue(m, now) && kindDraw < 0.5 ==>
      r.pane[|m.pane|] == PepperSpawnNode(m.nextId, Foes.SpawnPepper(startDraw), m.sizes)
    ensures PowerUpDue(m, now) ==> r.nextId == m.nextId + 1
  {
    if now - m.lastPowerUp >= PowerUpSpawnCooldown then
      var node :=
        if kindDraw >= 0.5 then Sprite(m.nextId, SaltNode, saltBox)
        else PepperSpawnNode(m.nextId, Foes.SpawnPepper(startDraw), m.sizes);
      m.(pane := m.pane + [node], nextId := m.nextId + 1, lastPowerUp := now)
    else m
  }

  /** The node of a freshly spawned pepper: at its start column, above the pane, at the pepper's size. */
  function PepperSpawnNode(id: nat, p: Foes.Pepper, sizes: Sizes): Node {
    Sprite(id, PepperNode(p), Box(p.startingX, Zigzag.StartY, Zigzag.SpriteWidth, sizes.pepper))
  }

  /** A spawned pepper starts in one of the two enemy columns and follows the enemy's right-first zigzag from there. */
  lemma SpawnedPepperFollowsEnemyPath(m: Manager, now: int, kindDraw: real, startDraw: int, saltBox: Box)
    requires PowerUpDue(m, now) && kindDraw < 0.5
    ensures var n := HandlePowerUpSpawning(m, now, kindDraw, startDraw, saltBox).pane[|m.pane|];
      n.Sprite? && n.kind.PepperNode? &&
      n.box.minX == (if startDraw <= 50 then 256.0 else 512.0) &&
      n.kind.pepper.path == Zigzag.EnemyPath(n.box.minX, Zigzag.RightFirst)
  {
  }

  /** Within 20 s of a power-up the next attempt adds nothing: at most one power-up per cooldown. */
  lemma PowerUpAtMostOncePerCooldown(m: Manager, t1: int, t2: int, k1: real, k2: real, s1: int, s2: int, b1: Box, b2: Box)
    requires PowerUpDue(m, t1) && t1 <= t2 < t1 + PowerUpSpawnCooldown
    ensures var r1 := HandlePowerUpSpawning(m, t1, k1, s1, b1);
      HandlePowerUpSpawning(r1, t2, k2, s2, b2) == r1 && |r1.pane| == |m.pane| + 1
  {
  }

  // ---------------------------------------------------------------- pepper

  predicate NoClones(pane: seq<Node>) {
    forall i :: 0 <= i < |pane| ==> !pane[i].Clone?
  }

  /**
   `enablePepperShot`: nothing when a left clone exists; otherwise the fire
   offsets become exactly -80 and +80 and two clones bound at those offsets
   join the pane.
   */
  function EnablePepperShot(m: Manager): (r: Manager)
    ensures m.leftClone.Some? ==> r == m
    ensures m.leftClone.None? ==>
      r.fireOffsets == [-CloneOffset, CloneOffset] &&
      r.leftClone == Some(m.nextId) && r.rightClone == Some(m.nextId + 1) &&
      r.pane == m.pane + [Clone(m.nextId, -CloneOffset), Clone(m.nextId + 1, CloneOffset)]
    ensures r.leftClone.Some?
    ensures r == m.(fireOffsets := r.fireOffsets, leftClone := r.leftClone, rightClone := r.rightClone,
                    pane := r.pane, nextId := r.nextId)
  {
    if m.leftClone.Some? then m
    else
      m.(fireOffsets := [-80.0, 80.0],
         leftClone := Some(m.nextId),
         rightClone := Some(m.nextId + 1),
         pane := m.pane + [Clone(m.nextId, -80.0), Clone(m.nextId + 1, 80.0)],
         nextId := m.nextId + 2)
  }

  /** The ids of the clone references that are set. */
  function CloneIds(m: Manager): set<nat> {
    (if m.leftClone.Some? then {m.leftClone.value} else {}) +
    (if m.rightClone.Some? then {m.rightClone.value} else {})
  }

  /** `disablePepperShot`: clear the fire offsets and take both clones off the pane. */
  function DisablePepperShot(m: Manager): (r: Manager)
    ensures r.fireOffsets == [] && r.leftClone.None? && r.rightClone.None?
    ensures forall id :: id in CloneIds(m) ==> !HasId(r.pane, id)
    ensures forall n :: n in r.pane <==> n in m.pane && n.id !in CloneIds(m)
    ensures r == m.(fireOffsets := [], leftClone := None, rightClone := None, pane := r.pane)
  {
    m.(fireOffsets := [], leftClone := None, rightClone := None, pane := RemoveIds(m.pane, CloneIds(m)))
  }

  /** Enabling twice is enabling once. */
  lemma EnableIdempotent(m: Manager)
    ensures EnablePepperShot(EnablePepperShot(m)) == EnablePepperShot(m)
  {
  }

  /** Disabling twice is disabling once. */
  lemma DisableIdempotent(m: Manager)
    ensures DisablePepperShot(DisablePepperShot(m)) == DisablePepperShot(m)
  {
    var once := DisablePepperShot(m);
    assert CloneIds(once) == {};
    var twice := DisablePepperShot(once);
    assert forall n :: n in twice.pane <==> n in once.pane;
    RemoveNothing(once.pane);
  }

  /** Removing no ids leaves the pane as it is. */
  lemma {:induction false} RemoveNothing(pane: seq<Node>)
    ensures RemoveIds(pane, {}) == pane
    decreases |pane|
  {
    if |pane| > 0 {
      RemoveNothing(pane[1..]);
    }
  }

  /** A pepper pickup while one is active creates no duplicate clones: the fire offsets stay two. */
  lemma EnableWhileActiveKeepsTwoOffsets(m: Manager)
    requires m.leftClone.None?
    ensures |EnablePepperShot(EnablePepperShot(m)).fireOffsets| == 2
  {
  }

  // --------------------------------------------------------- timed reverts

  /** `setFireCooldown`, the setter the collision pass is handed. */
  function SetFireCooldown(m: Manager, cooldown: int): (r: Manager)
    ensures r.fireCooldown == cooldown
    ensures r == m.(fireCooldown := cooldown)
  {
    m.(fireCooldown := cooldown)
  }

  /** Start a pause transition that runs `action` at `due`; earlier ones are kept. */
  function Schedule(m: Manager, due: int, action: Revert): (r: Manager)
    ensures r.pending == m.pending + [Pending(due, action)]
    ensures r == m.(pending := r.pending)
  {
    m.(pending := m.pending + [Pending(due, action)])
  }

  /** Run one revert: the salt revert restores the default fire cooldown, the pepper revert is `disablePepperShot`. */
  function RunRevert(m: Manager, action: Revert): (r: Manager)
    ensures action == RestoreFireCooldown ==> r == SetFireCooldown(m, DefaultFireCooldown)
    ensures action == EndPepperShot ==> r == DisablePepperShot(m)
    ensures action == RestoreFireCooldown ==> r.fireCooldown == DefaultFireCooldown
    ensures action == EndPepperShot ==> r.fireCooldown == m.fireCooldown && r.fireOffsets == []
    ensures Untouched(m, r)
  {
    match action
    case RestoreFireCooldown => SetFireCooldown(m, DefaultFireCooldown)
    case EndPepperShot => DisablePepperShot(m)
  }

  /** Whether some revert of this kind is due by `now`. */
  predicate Due(ps: seq<Pending>, now: int, action: Revert) {
    exists i :: 0 <= i < |ps| && ps[i].due <= now && ps[i].action == action
  }

  /** A due revert is either the first entry or among the rest. */
  lemma DueSplit(ps: seq<Pending>, now: int, action: Revert)
    requires |ps| > 0
    ensures Due(ps, now, action) <==>
      (ps[0].due <= now && ps[0].action == action) || Due(ps[1..], now, action)
  {
    if Due(ps, now, action) {
      var i :| 0 <= i < |ps| && ps[i].due <= now && ps[i].action == action;
      if i > 0 { assert ps[1..][i - 1] == ps[i]; }
    }
    if Due(ps[1..], now, action) {
      var i :| 0 <= i < |ps[1..]| && ps[1..][i].due <= now && ps[1..][i].action == action;
      assert ps[i + 1] == ps[1..][i];
    }
  }

  /** Run, in order, the listed transitions that are due; return the manager and those still waiting. */
  function RunDue(m: Manager, ps: seq<Pending>, now: int): (r: (Manager, seq<Pending>))
    ensures forall p :: p in r.1 <==> p in ps && p.due > now
    ensures Due(ps, now, RestoreFireCooldown) ==> r.0.fireCooldown == DefaultFireCooldown
    ensures !Due(ps, now, RestoreFireCooldown) ==> r.0.fireCooldown == m.fireCooldown
    ensures Untouched(m, r.0)
    decreases |ps|
  {
    if |ps| == 0 then (m, [])
    else
      var p := ps[0];
      var m1 := if p.due <= now then RunRevert(m, p.action) else m;
      var (m2, rest) := RunDue(m1, ps[1..], now);
      assert forall q :: q in ps <==> q == p || q in ps[1..];
      DueSplit(ps, now, RestoreFireCooldown);
      (m2, if p.due <= now then rest else [p] + rest)
  }

  /** What the due reverts do to the pepper clones. */
  ghost predicate PepperReverted(m: Manager, r: Manager) {
    r.fireOffsets == [] && r.leftClone.None? && r.rightClone.None? &&
    (forall n :: n in r.pane <==> n in m.pane && n.id !in CloneIds(m))
  }

  /** What reverts without a pepper revert among them leave alone. */
  ghost predicate PepperKept(m: Manager, r: Manager) {
    r.fireOffsets == m.fireOffsets && r.leftClone == m.leftClone && r.rightClone == m.rightClone && r.pane == m.pane
  }

  /** A due pepper revert disables the pepper shot: no offsets, no clone references, the clones off the pane; otherwise the clones are left alone. */
  lemma {:induction false} RunDuePepper(m: Manager, ps: seq<Pending>, now: int)
    ensures Due(ps, now, EndPepperShot) ==> PepperReverted(m, RunDue(m, ps, now).0)
    ensures !Due(ps, now, EndPepperShot) ==> PepperKept(m, RunDue(m, ps, now).0)
    decreases |ps|
  {
    if |ps| > 0 {
      var p := ps[0];
      var m1 := if p.due <= now then RunRevert(m, p.action) else m;
      RunDuePepper(m1, ps[1..], now);
      DueSplit(ps, now, EndPepperShot);
      var r := RunDue(m1, ps[1..], now).0;
      assert RunDue(m, ps, now).0 == r;
      if p.due <= now && p.action == EndPepperShot {
        assert CloneIds(m1) == {};
        assert PepperReverted(m, m1);
      } else {
        assert PepperKept(m, m1);
      }
    }
  }

  /** Let every pause transition whose time has come finish. */
  function RunDueReverts(m: Manager, now: int): (r: Manager)
    ensures forall p :: p in r.pending ==> p.due > now
    ensures forall p :: p in m.pending && p.due > now ==> p in r.pending
    ensures Due(m.pending, now, RestoreFireCooldown) ==> r.fireCooldown == DefaultFireCooldown
    ensures !Due(m.pending, now, RestoreFireCooldown) ==> r.fireCooldown == m.fireCooldown
    ensures Due(m.pending, now, EndPepperShot) ==> PepperReverted(m, r)
    ensures !Due(m.pending, now, EndPepperShot) ==> PepperKept(m, r)
    ensures Untouched(m, r)
  {
    var (m1, rest) := RunDue(m, m.pending, now);
    RunDuePepper(m, m.pending, now);
    m1.(pending := rest)
  }

  // ----------------------------------------------------------------- reset

  /** Sprites the restart clears: enemies, both projectile kinds and both power-ups. */
  predicate Clearable(n: Node) {
    n.Sprite?
  }

  /**
   `resetGame`: three lives, score 0, default cooldowns, no fire offsets,
   clones, enemies, projectiles or power-ups on the pane, empty tracking sets,
   the player back at its start and visible, all three life icons, the loop
   running. The best score is kept. The clone references themselves are not
   cleared, and pending reverts keep running.
   */
  function ResetGame(m: Manager, now: int): (r: Manager)
    ensures r.game == GameState(StartingLife, 0, m.game.highScore, m.game.timeSinceLastTookDamage)
    ensures r.fireCooldown == DefaultFireCooldown && r.spawnCooldown == DefaultSpawnCooldown
    ensures r.lastDifficultyIncrease == now
    ensures r.fireOffsets == []
    ensures r.activeEnemies == [] && r.activeEnemyShots == {} && r.activePlayerShots == {}
    ensures r.player.minX == PlayerStartX && r.player.minY == PlayerStartY && r.playerVisible
    ensures forall n :: n in r.pane <==> n in m.pane && n.Clone? && n.id !in CloneIds(m)
    ensures r.leftClone == m.leftClone && r.rightClone == m.rightClone && r.pending == m.pending
    ensures r.lifeIcons == {1, 2, 3} && r.timerRunning
  {
    var kept := RemoveIds(m.pane, CloneIds(m));
    m.(game := m.game.(life := 3, score := 0),
       fireCooldown := 750,
       spawnCooldown := 1250,
       lastDifficultyIncrease := now,
       fireOffsets := [],
       pane := ClearSprites(kept),
       activeEnemies := [],
       activeEnemyShots := {},
       activePlayerShots := {},
       player := m.player.(minX := 384.0 - 75.0 / 2.0, minY := 800.0),
       playerVisible := true,
       lifeIcons := {1, 2, 3},
       timerRunning := true)
  }

  /** The pane without enemies, projectiles and power-ups. */
  function ClearSprites(pane: seq<Node>): (r: seq<Node>)
    ensures forall n :: n in r <==> n in pane && !Clearable(n)
    decreases |pane|
  {
    if |pane| == 0 then []
    else
      var rest := ClearSprites(pane[1..]);
      assert forall n :: n in pane <==> n == pane[0] || n in pane[1..];
      if Clearable(pane[0]) then rest else [pane[0]] + rest
  }

  /** A restart never touches the best score, whatever the state, and leaves a sane game state behind. */
  lemma ResetKeepsHighScore(m: Manager, now: int)
    ensures ResetGame(m, now).game.highScore == m.game.highScore
    ensures Sane(m.game) ==> Sane(ResetGame(m, now).game) && ResetGame(m, now).game.life == StartingLife
  {
  }

  /** A restart while the pepper clones are still referenced leaves the next pepper pickup without effect. */
  lemma ResetDuringPepperBlocksNextPepper(m: Manager, now: int)
    requires m.leftClone.Some?
    ensures var r := ResetGame(m, now);
      EnablePepperShot(r) == r && r.fireOffsets == []
  {
  }
}
