/**
 The per-frame collision pass of CollisionManager.

 The pass walks a snapshot of the pane in order. A hostile sprite (enemy or
 enemy projectile) touching the player costs a life unless the player was
 hurt less than a second ago. A player projectile destroys the first tracked
 enemy it touches that has come on screen, for 5 points. A salt or pepper the
 player touches is picked up. Sprites removed during the pass are still
 visited if they come later in the snapshot, and the tracked-enemy list is
 not updated within the pass.

 After the walk the pass settles the life icons, and at zero lives ends the
 game: the player is hidden, the clones are taken off the pane, the loop is
 stopped and the game-over callback runs.
 */
module Collision {
  import opened Wrappers
  import opened Geometry
  import opened Game

  /** Milliseconds of invulnerability after taking damage. */
  const DamageCooldown: int := 1000
  const PointsPerEnemy: int := 5

  /** What the walk reports, in order, for the caller to act on. */
  datatype Event =
    | Damaged(source: nat)
    | EnemyDestroyed(enemy: nat, shot: nat, cx: real, cy: real)
    | SaltTaken(salt: nat)
    | PepperTaken(pepper: nat)

  datatype ScanResult = ScanResult(state: GameState, removed: set<nat>, events: seq<Event>)

  /** The player's invulnerability window has passed. */
  predicate CanBeHurt(st: GameState, now: int) {
    now - st.timeSinceLastTookDamage >= DamageCooldown
  }

  /** A hostile sprite (enemy or enemy projectile) touching the player. */
  predicate Touches(player: Box, n: Node) {
    n.Sprite? && (n.kind.EnemyNode? || n.kind.EnemyShot?) && Intersects(player, n.box)
  }

  /** A tracked enemy the projectile can hit: it has come on screen and overlaps the projectile. */
  predicate Hittable(shot: Box, e: Node) {
    e.Sprite? && e.box.minY >= 0.0 && Intersects(shot, e.box)
  }

  /** The first tracked enemy the projectile hits, if any. */
  function FirstHit(shot: Box, enemies: seq<Node>): (r: Option<nat>)
    ensures r.Some? ==> r.value < |enemies| && Hittable(shot, enemies[r.value])
    ensures r.Some? ==> forall j :: 0 <= j < r.value ==> !Hittable(shot, enemies[j])
    ensures r.None? ==> forall j :: 0 <= j < |enemies| ==> !Hittable(shot, enemies[j])
    decreases |enemies|
  {
    if |enemies| == 0 then None
    else if Hittable(shot, enemies[0]) then Some(0)
    else match FirstHit(shot, enemies[1..])
      case None => None
      case Some(i) => Some(i + 1)
  }

  /** `Math.max` on scores. */
  function Best(a: int, b: int): int { if a >= b then a else b }

  /** What visiting one node of the snapshot does. */
  function Visit(n: Node, player: Box, enemies: seq<Node>, st: GameState, now: int): (r: ScanResult)
    ensures r.state.life == (if CanBeHurt(st, now) && Touches(player, n) then st.life - 1 else st.life)
    ensures r.state.timeSinceLastTookDamage ==
      (if CanBeHurt(st, now) && Touches(player, n) then now else st.timeSinceLastTookDamage)
    ensures r.state.score == st.score + (if Scores(n, enemies) then PointsPerEnemy else 0)
    ensures r.state.highScore == (if Scores(n, enemies) then Best(st.highScore, r.state.score) else st.highScore)
    ensures Kills(r.events) == (if Scores(n, enemies) then 1 else 0)
    ensures Scores(n, enemies) ==> r.removed == {n.id, enemies[FirstHit(n.box, enemies).value].id}
    ensures PickedUp(n, player, true) ==> r.removed == {n.id} && r.events == [SaltTaken(n.id)]
    ensures PickedUp(n, player, false) ==> r.removed == {n.id} && r.events == [PepperTaken(n.id)]
    ensures r.removed == Swept(n, player, enemies)
    ensures forall salt :: TakenIn(r.events, salt) <==> PickedUp(n, player, salt)
    ensures Reverts(r.events, now) == RevertFor(n, player, now)
  {
    match n
    case Clone(_, _) => ScanResult(st, {}, [])
    case Sprite(id, kind, box) =>
      match kind
      case EnemyNode(_) =>
        if Intersects(player, box) && now - st.timeSinceLastTookDamage >= 1000 then
          ScanResult(st.(life := st.life - 1, timeSinceLastTookDamage := now), {}, [Damaged(id)])
        else ScanResult(st, {}, [])
      case EnemyShot(_) =>
        if Intersects(player, box) && now - st.timeSinceLastTookDamage >= 1000 then
          ScanResult(st.(life := st.life - 1, timeSinceLastTookDamage := now), {}, [Damaged(id)])
        else ScanResult(st, {}, [])
      case PlayerShot =>
        (match FirstHit(box, enemies)
         case None => ScanResult(st, {}, [])
         case Some(i) =>
           var e := enemies[i];
           var score := st.score + 5;
           ScanResult(st.(score := score, highScore := Best(st.highScore, score)),
                      {e.id, id},
                      [EnemyDestroyed(e.id, id, e.box.CenterX(), e.box.CenterY())]))
      case SaltNode =>
        if Intersects(box, player) then ScanResult(st, {id}, [SaltTaken(id)])
        else ScanResult(st, {}, [])
      case PepperNode(_) =>
        if Intersects(box, player) then ScanResult(st, {id}, [PepperTaken(id)])
        else ScanResult(st, {}, [])
  }

  /** How many enemies the events report destroyed. */
  function Kills(events: seq<Event>): nat
    decreases |events|
  {
    if |events| == 0 then 0
    else (if events[0].EnemyDestroyed? then 1 else 0) + Kills(events[1..])
  }

  /** A player projectile that finds an enemy to hit. */
  predicate Scores(n: Node, enemies: seq<Node>) {
    n.Sprite? && n.kind.PlayerShot? && FirstHit(n.box, enemies).Some?
  }

  /** How many projectiles of the snapshot find an enemy to hit. */
  function HittingShots(nodes: seq<Node>, enemies: seq<Node>): nat
    decreases |nodes|
  {
    if |nodes| == 0 then 0
    else
      (if Scores(nodes[0], enemies) then 1 else 0) + HittingShots(nodes[1..], enemies)
  }

  /** Some hostile sprite of the snapshot touches the player. */
  predicate AnyTouch(player: Box, nodes: seq<Node>) {
    exists i :: 0 <= i < |nodes| && Touches(player, nodes[i])
  }

  /**
   The walk over the snapshot. A pass runs at one instant, so it costs at
   most one life: the first hostile contact, if the window has passed, sets
   the damage time to `now` and closes the window for the rest of the pass.
   */
  function Scan(nodes: seq<Node>, player: Box, enemies: seq<Node>, st: GameState, now: int): (r: ScanResult)
    ensures (r.state.life == st.life && r.state.timeSinceLastTookDamage == st.timeSinceLastTookDamage) ||
            (r.state.life == st.life - 1 && CanBeHurt(st, now) && r.state.timeSinceLastTookDamage == now)
    ensures r.state.life == st.life - 1 <==> CanBeHurt(st, now) && AnyTouch(player, nodes)
    ensures r.state.score == st.score + PointsPerEnemy * HittingShots(nodes, enemies)
    ensures r.state.highScore ==
      (if r.state.score == st.score then st.highScore else Best(st.highScore, r.state.score))
    ensures Kills(r.events) == HittingShots(nodes, enemies)
    ensures forall id :: id in r.removed <==> SweptBy(nodes, player, enemies, id)
    ensures forall salt :: TakenIn(r.events, salt) <==> AnyPickedUp(nodes, player, salt)
    ensures Reverts(r.events, now) == RevertsFor(nodes, player, now)
    decreases |nodes|
  {
    if |nodes| == 0 then ScanResult(st, {}, [])
    else
      var one := Visit(nodes[0], player, enemies, st, now);
      var rest := Scan(nodes[1..], player, enemies, one.state, now);
      AnyTouchSplit(player, nodes);
      KillsAppend(one.events, rest.events);
      SweptBySplit(nodes, player, enemies);
      AnyPickedUpSplit(nodes, player);
      TakenInAppend(one.events, rest.events);
      RevertsAppend(one.events, rest.events, now);
      ScanResult(rest.state, one.removed + rest.removed, one.events + rest.events)
  }

  /** A player projectile scores exactly when some tracked enemy is hittable by it. */
  lemma ScoresIffSomeHittable(n: Node, enemies: seq<Node>)
    ensures Scores(n, enemies) <==>
      n.Sprite? && n.kind.PlayerShot? && exists j :: 0 <= j < |enemies| && Hittable(n.box, enemies[j])
  {
    if n.Sprite? && n.kind.PlayerShot? && FirstHit(n.box, enemies).Some? {
      var j := FirstHit(n.box, enemies).value;
      assert Hittable(n.box, enemies[j]);
    }
  }

  // ---------------------------------------------------- removals, pickups

  /** A salt (`salt`) or a pepper (`!salt`) the player touches. */
  predicate PickedUp(n: Node, player: Box, salt: bool) {
    n.Sprite? && (if salt then n.kind.SaltNode? else n.kind.PepperNode?) && Intersects(n.box, player)
  }

  /** Some node of the snapshot is a salt (`salt`) or pepper (`!salt`) the player touches. */
  predicate AnyPickedUp(nodes: seq<Node>, player: Box, salt: bool) {
    exists i :: 0 <= i < |nodes| && PickedUp(nodes[i], player, salt)
  }

  /**
   The ids a node takes off the pane when it is visited: a projectile that
   finds an enemy takes itself and that enemy, a power-up the player
   touches takes itself, anything else nothing.
   */
  function Swept(n: Node, player: Box, enemies: seq<Node>): set<nat> {
    if Scores(n, enemies) then {n.id, enemies[FirstHit(n.box, enemies).value].id}
    else if PickedUp(n, player, true) || PickedUp(n, player, false) then {n.id}
    else {}
  }

  /** Some node of the snapshot takes this id off the pane. */
  predicate SweptBy(nodes: seq<Node>, player: Box, enemies: seq<Node>, id: nat) {
    exists i :: 0 <= i < |nodes| && id in Swept(nodes[i], player, enemies)
  }

  /** Whether an event reports a salt (`salt`) or a pepper (`!salt`) pickup. */
  predicate IsTaken(e: Event, salt: bool) {
    if salt then e.SaltTaken? else e.PepperTaken?
  }

  /** Some event reports a salt (`salt`) or a pepper (`!salt`) pickup. */
  predicate TakenIn(events: seq<Event>, salt: bool) {
    exists i :: 0 <= i < |events| && IsTaken(events[i], salt)
  }

  /** The pause transition a pickup event starts at `now`: its revert, 15 s later. */
  function RevertOf(e: Event, now: int): seq<Pending> {
    if e.SaltTaken? then [Pending(now + EffectDuration, RestoreFireCooldown)]
    else if e.PepperTaken? then [Pending(now + EffectDuration, EndPepperShot)]
    else []
  }

  /** The pause transitions the events start, in order. */
  function Reverts(events: seq<Event>, now: int): seq<Pending>
    decreases |events|
  {
    if |events| == 0 then [] else RevertOf(events[0], now) + Reverts(events[1..], now)
  }

  /** The pause transition touching this node starts: salt restores the fire cooldown, pepper ends the clones. */
  function RevertFor(n: Node, player: Box, now: int): seq<Pending> {
    if PickedUp(n, player, true) then [Pending(now + EffectDuration, RestoreFireCooldown)]
    else if PickedUp(n, player, false) then [Pending(now + EffectDuration, EndPepperShot)]
    else []
  }

  /** The pause transitions the power-ups the player touches start, in snapshot order. */
  function RevertsFor(nodes: seq<Node>, player: Box, now: int): seq<Pending>
    decreases |nodes|
  {
    if |nodes| == 0 then [] else RevertFor(nodes[0], player, now) + RevertsFor(nodes[1..], player, now)
  }

  lemma SweptBySplit(nodes: seq<Node>, player: Box, enemies: seq<Node>)
    requires |nodes| > 0
    ensures forall id :: SweptBy(nodes, player, enemies, id) <==>
      id in Swept(nodes[0], player, enemies) || SweptBy(nodes[1..], player, enemies, id)
  {
    forall id | SweptBy(nodes[1..], player, enemies, id) ensures SweptBy(nodes, player, enemies, id) {
      var i :| 0 <= i < |nodes[1..]| && id in Swept(nodes[1..][i], player, enemies);
      assert nodes[i + 1] == nodes[1..][i];
    }
    forall id | SweptBy(nodes, player, enemies, id) && id !in Swept(nodes[0], player, enemies)
      ensures SweptBy(nodes[1..], player, enemies, id)
    {
      var i :| 0 <= i < |nodes| && id in Swept(nodes[i], player, enemies);
      assert nodes[1..][i - 1] == nodes[i];
    }
  }

  lemma AnyPickedUpSplit(nodes: seq<Node>, player: Box)
    requires |nodes| > 0
    ensures forall salt :: AnyPickedUp(nodes, player, salt) <==>
      PickedUp(nodes[0], player, salt) || AnyPickedUp(nodes[1..], player, salt)
  {
    forall salt | AnyPickedUp(nodes[1..], player, salt) ensures AnyPickedUp(nodes, player, salt) {
      var i :| 0 <= i < |nodes[1..]| && PickedUp(nodes[1..][i], player, salt);
      assert nodes[i + 1] == nodes[1..][i];
    }
    forall salt | AnyPickedUp(nodes, player, salt) && !PickedUp(nodes[0], player, salt)
      ensures AnyPickedUp(nodes[1..], player, salt)
    {
      var i :| 0 <= i < |nodes| && PickedUp(nodes[i], player, salt);
      assert nodes[1..][i - 1] == nodes[i];
    }
  }

  lemma TakenInAppend(a: seq<Event>, b: seq<Event>)
    ensures forall salt :: TakenIn(a + b, salt) <==> TakenIn(a, salt) || TakenIn(b, salt)
  {
    forall salt | TakenIn(a + b, salt) ensures TakenIn(a, salt) || TakenIn(b, salt) {
      var i :| 0 <= i < |a + b| && IsTaken((a + b)[i], salt);
      if i >= |a| { assert (a + b)[i] == b[i - |a|]; }
    }
    forall salt | TakenIn(b, salt) ensures TakenIn(a + b, salt) {
      var i :| 0 <= i < |b| && IsTaken(b[i], salt);
      assert (a + b)[i + |a|] == b[i];
    }
    forall salt | TakenIn(a, salt) ensures TakenIn(a + b, salt) {
      var i :| 0 <= i < |a| && IsTaken(a[i], salt);
      assert (a + b)[i] == a[i];
    }
  }

  lemma {:induction false} RevertsAppend(a: seq<Event>, b: seq<Event>, now: int)
    ensures Reverts(a + b, now) == Reverts(a, now) + Reverts(b, now)
    decreases |a|
  {
    if |a| == 0 {
      assert a + b == b;
    } else {
      assert (a + b)[1..] == a[1..] + b;
      RevertsAppend(a[1..], b, now);
    }
  }

  lemma AnyTouchSplit(player: Box, nodes: seq<Node>)
    requires |nodes| > 0
    ensures AnyTouch(player, nodes) <==> Touches(player, nodes[0]) || AnyTouch(player, nodes[1..])
  {
    if AnyTouch(player, nodes[1..]) {
      var i :| 0 <= i < |nodes[1..]| && Touches(player, nodes[1..][i]);
      assert nodes[i + 1] == nodes[1..][i];
    }
    if AnyTouch(player, nodes) && !Touches(player, nodes[0]) {
      var i :| 0 <= i < |nodes| && Touches(player, nodes[i]);
      assert nodes[1..][i - 1] == nodes[i];
    }
  }

  lemma {:induction false} KillsAppend(a: seq<Event>, b: seq<Event>)
    ensures Kills(a + b) == Kills(a) + Kills(b)
    decreases |a|
  {
    if |a| == 0 {
      assert a + b == b;
    } else {
      assert (a + b)[1..] == a[1..] + b;
      KillsAppend(a[1..], b);
    }
  }

  /** Within a pass life never rises and score never falls; the best score never falls either. */
  lemma ScanMonotone(nodes: seq<Node>, player: Box, enemies: seq<Node>, st: GameState, now: int)
    ensures var r := Scan(nodes, player, enemies, st, now);
      r.state.life <= st.life && r.state.score >= st.score && r.state.highScore >= st.highScore
    ensures var r := Scan(nodes, player, enemies, st, now);
      st.score <= st.highScore ==> r.state.score <= r.state.highScore
  {
  }

  /** Two passes less than a second apart cost at most one life between them. */
  lemma TwoPassesOneLife(nodes1: seq<Node>, nodes2: seq<Node>, player1: Box, player2: Box,
                         enemies1: seq<Node>, enemies2: seq<Node>, st: GameState, t1: int, t2: int)
    requires t1 <= t2 < t1 + DamageCooldown
    ensures var s1 := Scan(nodes1, player1, enemies1, st, t1).state;
      Scan(nodes2, player2, enemies2, s1, t2).state.life >= st.life - 1
  {
    var s1 := Scan(nodes1, player1, enemies1, st, t1).state;
    if s1.life == st.life - 1 {
      assert !CanBeHurt(s1, t2);
    }
  }

  /** One projectile over an enemy that has come on screen scores exactly 5 and destroys both. */
  lemma SingleHitScoresFive(shot: Node, enemy: Node, player: Box, st: GameState, now: int)
    requires shot.Sprite? && shot.kind.PlayerShot?
    requires enemy.Sprite? && enemy.kind.EnemyNode? && enemy.box.minY >= 0.0
    requires Intersects(shot.box, enemy.box)
    ensures var r := Scan([shot], player, [enemy], st, now);
      r.state.score == st.score + 5 &&
      r.state.highScore == Best(st.highScore, st.score + 5) &&
      r.removed == {enemy.id, shot.id} &&
      Kills(r.events) == 1
  {
  }

  /** An enemy still above the top edge cannot be hit. */
  lemma EnemyAboveScreenNotHit(shot: Box, enemies: seq<Node>, i: nat)
    requires i < |enemies| && enemies[i].Sprite? && enemies[i].box.minY < 0.0
    ensures FirstHit(shot, enemies) != Some(i)
  {
  }

  // ------------------------------------------------------------- the pass

  /**
   The tracked enemies as nodes of the pane, in tracking order: each tracked
   id names the first node carrying it, which is kept when it is an enemy.
   */
  function TrackedEnemies(pane: seq<Node>, ids: seq<nat>): (r: seq<Node>)
    ensures |r| <= |ids|
    ensures forall n :: n in r ==> n in pane && IsEnemy(n) && n.id in ids && FindNode(pane, n.id) == Some(n)
    ensures forall id :: id in ids && FindNode(pane, id).Some? && IsEnemy(FindNode(pane, id).value) ==>
      FindNode(pane, id).value in r
    decreases |ids|
  {
    if |ids| == 0 then []
    else
      var rest := TrackedEnemies(pane, ids[1..]);
      assert forall id :: id in ids <==> id == ids[0] || id in ids[1..];
      match FindNode(pane, ids[0])
      case Some(n) => if IsEnemy(n) then [n] + rest else rest
      case None => rest
  }

  /** No two nodes of the pane share an id. */
  predicate UniqueIds(pane: seq<Node>) {
    forall i, j :: 0 <= i < j < |pane| ==> pane[i].id != pane[j].id
  }

  /** With unique ids, looking up a node's id finds that node. */
  lemma {:induction false} FindNodeFindsIt(pane: seq<Node>, n: Node)
    requires UniqueIds(pane) && n in pane
    ensures FindNode(pane, n.id) == Some(n)
    decreases |pane|
  {
    if pane[0] != n {
      var k :| 0 <= k < |pane| && pane[k] == n;
      assert pane[1..][k - 1] == n;
      assert UniqueIds(pane[1..]) by {
        forall i, j | 0 <= i < j < |pane[1..]| ensures pane[1..][i].id != pane[1..][j].id {
          assert pane[1..][i] == pane[i + 1] && pane[1..][j] == pane[j + 1];
        }
      }
      FindNodeFindsIt(pane[1..], n);
    }
  }

  /** With unique ids on the pane, the tracked enemies are exactly the enemies of the pane whose ids are tracked. */
  lemma TrackedEnemiesExact(pane: seq<Node>, ids: seq<nat>)
    requires UniqueIds(pane)
    ensures forall n :: n in TrackedEnemies(pane, ids) <==> n in pane && IsEnemy(n) && n.id in ids
  {
    forall n | n in pane && IsEnemy(n) && n.id in ids ensures n in TrackedEnemies(pane, ids) {
      FindNodeFindsIt(pane, n);
    }
  }

  /** What a pickup leaves alone: lives and score, the player, the icons, the loop, the spawn cooldown, the player's projectiles. */
  predicate PickupKeeps(m: Manager, r: Manager) {
    r.game == m.game && r.player == m.player && r.playerVisible == m.playerVisible &&
    r.lifeIcons == m.lifeIcons && r.timerRunning == m.timerRunning &&
    r.spawnCooldown == m.spawnCooldown && r.activePlayerShots == m.activePlayerShots &&
    (forall n :: n in m.pane ==> n in r.pane) &&
    (forall n :: n in r.pane && !n.Clone? ==> n in m.pane)
  }

  /** Act on one event: salt boosts the fire rate, pepper enables the clones, each with its revert 15 s later. */
  function PickUp(m: Manager, e: Event, now: int): (r: Manager)
    ensures PickupKeeps(m, r)
    ensures e.SaltTaken? ==> r == Schedule(SetFireCooldown(m, BoostedFireCooldown), now + EffectDuration, RestoreFireCooldown)
    ensures e.PepperTaken? ==> r == Schedule(EnablePepperShot(m), now + EffectDuration, EndPepperShot)
    ensures !e.SaltTaken? && !e.PepperTaken? ==> r == m
    ensures r.pending == m.pending + RevertOf(e, now)
    ensures e.SaltTaken? ==> r.fireCooldown == BoostedFireCooldown
    ensures !e.SaltTaken? ==> r.fireCooldown == m.fireCooldown
    ensures e.PepperTaken? || m.leftClone.Some? ==> r.leftClone.Some?
  {
    match e
    case SaltTaken(_) => Schedule(SetFireCooldown(m, BoostedFireCooldown), now + EffectDuration, RestoreFireCooldown)
    case PepperTaken(_) => Schedule(EnablePepperShot(m), now + EffectDuration, EndPepperShot)
    case _ => m
  }

  /** Apply, in order, the pickups the walk reported: each starts its own revert 15 s later. */
  function ApplyPickups(m: Manager, events: seq<Event>, now: int): (r: Manager)
    ensures PickupKeeps(m, r)
    ensures r.pending == m.pending + Reverts(events, now)
    ensures |r.pending| == |m.pending| + Pickups(events)
    ensures forall i :: |m.pending| <= i < |r.pending| ==> r.pending[i].due == now + EffectDuration
    ensures TakenIn(events, true) ==> r.fireCooldown == BoostedFireCooldown
    ensures !TakenIn(events, true) ==> r.fireCooldown == m.fireCooldown
    ensures TakenIn(events, false) || m.leftClone.Some? ==> r.leftClone.Some?
    decreases |events|
  {
    if |events| == 0 then m
    else
      TakenInSplit(events);
      var m1 := PickUp(m, events[0], now);
      var r := ApplyPickups(m1, events[1..], now);
      assert r.pending == m.pending + (RevertOf(events[0], now) + Reverts(events[1..], now));
      r
  }

  /** The fields the pepper pickups act on: fire offsets, clone references, pane and next fresh id. */
  datatype PepperView = PepperView(offsets: seq<real>, left: Option<nat>, right: Option<nat>, pane: seq<Node>, nextId: nat)

  function ViewOf(m: Manager): PepperView {
    PepperView(m.fireOffsets, m.leftClone, m.rightClone, m.pane, m.nextId)
  }

  /** Without a pepper among the events, or with a clone already referenced, the pickups leave the clones, the offsets and the pane alone. */
  lemma {:induction false} PepperPickupsKeep(m: Manager, events: seq<Event>, now: int)
    requires !TakenIn(events, false) || m.leftClone.Some?
    ensures ViewOf(ApplyPickups(m, events, now)) == ViewOf(m)
    decreases |events|
  {
    if |events| > 0 {
      TakenInSplit(events);
      var m1 := PickUp(m, events[0], now);
      assert ViewOf(m1) == ViewOf(m);
      PepperPickupsKeep(m1, events[1..], now);
    }
  }

  /**
   The first pepper among the events, when no clone is referenced yet, adds
   the two clones at -80 and +80 and makes those the fire offsets; every
   later pepper finds a clone referenced and does nothing.
   */
  lemma {:induction false} PepperPickups(m: Manager, events: seq<Event>, now: int)
    requires TakenIn(events, false) && m.leftClone.None?
    ensures ViewOf(ApplyPickups(m, events, now)) ==
      PepperView([-CloneOffset, CloneOffset], Some(m.nextId), Some(m.nextId + 1),
                 m.pane + [Clone(m.nextId, -CloneOffset), Clone(m.nextId + 1, CloneOffset)], m.nextId + 2)
    decreases |events|
  {
    TakenInSplit(events);
    var m1 := PickUp(m, events[0], now);
    assert ApplyPickups(m, events, now) == ApplyPickups(m1, events[1..], now);
    PickUpView(m, events[0], now);
    if events[0].PepperTaken? {
      PepperPickupsKeep(m1, events[1..], now);
    } else {
      PepperPickups(m1, events[1..], now);
    }
  }

  /** What one event does to the pepper view. */
  lemma PickUpView(m: Manager, e: Event, now: int)
    ensures !e.PepperTaken? ==> ViewOf(PickUp(m, e, now)) == ViewOf(m)
    ensures e.PepperTaken? && m.leftClone.None? ==>
      (ViewOf(PickUp(m, e, now)) ==
       PepperView([-CloneOffset, CloneOffset], Some(m.nextId), Some(m.nextId + 1),
                  m.pane + [Clone(m.nextId, -CloneOffset), Clone(m.nextId + 1, CloneOffset)], m.nextId + 2))
  {
  }

  /** A pickup among the events is the first one or among the rest. */
  lemma TakenInSplit(events: seq<Event>)
    requires |events| > 0
    ensures forall salt :: TakenIn(events, salt) <==> IsTaken(events[0], salt) || TakenIn(events[1..], salt)
  {
    assert events == [events[0]] + events[1..];
    TakenInAppend([events[0]], events[1..]);
  }

  /**
   A second salt picked up before the first one's 15 s are over does not
   extend the boost: the first pickup's revert still fires on time and the
   fire cooldown is back to its default, although the second pickup's own
   window has not ended.
   */
  lemma SaltRepickupEndsWithFirst(m: Manager, salt1: nat, salt2: nat, t1: int, t2: int)
    requires t1 <= t2
    ensures var m2 := ApplyPickups(ApplyPickups(m, [SaltTaken(salt1)], t1), [SaltTaken(salt2)], t2);
      m2.fireCooldown == BoostedFireCooldown &&
      RunDueReverts(m2, t1 + EffectDuration).fireCooldown == DefaultFireCooldown
  {
    var m1 := ApplyPickups(m, [SaltTaken(salt1)], t1);
    var m2 := ApplyPickups(m1, [SaltTaken(salt2)], t2);
    assert TakenIn([SaltTaken(salt2)], true) by { assert IsTaken([SaltTaken(salt2)][0], true); }
    assert m1.pending == m.pending + [Pending(t1 + EffectDuration, RestoreFireCooldown)];
    assert m2.pending[|m.pending|] == Pending(t1 + EffectDuration, RestoreFireCooldown);
    assert Due(m2.pending, t1 + EffectDuration, RestoreFireCooldown);
  }

  /**
   A pepper pickup is undone by its own revert: 15 s later the fire offsets
   are empty, both clone references are cleared, and the referenced clones,
   among them the two the pickup added, are off the pane.
   */
  lemma PepperEndsWithItsRevert(m: Manager, pepper: nat, t: int)
    ensures var m1 := ApplyPickups(m, [PepperTaken(pepper)], t);
      var r := RunDueReverts(m1, t + EffectDuration);
      r.fireOffsets == [] && r.leftClone.None? && r.rightClone.None? &&
      (forall id :: id in CloneIds(m1) ==> !HasId(r.pane, id)) &&
      (m.leftClone.None? ==> !HasId(r.pane, m.nextId) && !HasId(r.pane, m.nextId + 1))
  {
    var m1 := ApplyPickups(m, [PepperTaken(pepper)], t);
    assert TakenIn([PepperTaken(pepper)], false) by { assert IsTaken([PepperTaken(pepper)][0], false); }
    assert Reverts([PepperTaken(pepper)], t) == [Pending(t + EffectDuration, EndPepperShot)];
    assert m1.pending[|m.pending|] == Pending(t + EffectDuration, EndPepperShot);
    if m.leftClone.None? {
      PepperPickups(m, [PepperTaken(pepper)], t);
    }
    assert Due(m1.pending, t + EffectDuration, EndPepperShot);
  }

  /** How many events report a pickup. */
  function Pickups(events: seq<Event>): nat
    decreases |events|
  {
    if |events| == 0 then 0
    else (if events[0].SaltTaken? || events[0].PepperTaken? then 1 else 0) + Pickups(events[1..])
  }

  /** The life-icon switch after the walk; at zero lives, the game-over branch. */
  function Settle(m: Manager): (r: Manager)
    ensures r.game == m.game
    ensures m.game.life == 2 ==> r == m.(lifeIcons := m.lifeIcons - {3})
    ensures m.game.life == 1 ==> r == m.(lifeIcons := m.lifeIcons - {2})
    ensures m.game.life == 0 ==>
      r.lifeIcons == m.lifeIcons - {1} && !r.playerVisible && !r.timerRunning && NoClones(r.pane) &&
      (forall n :: n in r.pane <==> n in m.pane && !n.Clone?) &&
      r.leftClone == m.leftClone && r.rightClone == m.rightClone
    ensures m.game.life !in {0, 1, 2} ==> r == m
    ensures r.fireOffsets == m.fireOffsets && r.leftClone == m.leftClone && r.rightClone == m.rightClone
    ensures r.pending == m.pending && r.fireCooldown == m.fireCooldown
  {
    match m.game.life
    case 2 => m.(lifeIcons := m.lifeIcons - {3})
    case 1 => m.(lifeIcons := m.lifeIcons - {2})
    case 0 =>
      m.(lifeIcons := m.lifeIcons - {1},
         playerVisible := false,
         pane := RemoveClones(m.pane),
         timerRunning := false)
    case _ => m
  }

  /** `removeIf(node instanceof PizzaSprite && node != pizzaMain)`: every clone leaves the pane. */
  function RemoveClones(pane: seq<Node>): (r: seq<Node>)
    ensures NoClones(r)
    ensures forall n :: n in r <==> n in pane && !n.Clone?
    decreases |pane|
  {
    if |pane| == 0 then []
    else
      var rest := RemoveClones(pane[1..]);
      assert forall n :: n in pane <==> n == pane[0] || n in pane[1..];
      if pane[0].Clone? then rest else [pane[0]] + rest
  }

  /** The pass's result: the manager afterwards, whether the game-over callback ran, and the walk's events. */
  datatype Outcome = Outcome(manager: Manager, gameOver: bool, events: seq<Event>)

  /** `CollisionManager.update` at time `now`. */
  function Update(m: Manager, now: int): (r: Outcome)
    ensures r.manager.game.life == m.game.life || r.manager.game.life == m.game.life - 1
    ensures r.manager.game.life == m.game.life - 1 <==> CanBeHurt(m.game, now) && AnyTouch(m.player, m.pane)
    ensures var hits := HittingShots(m.pane, TrackedEnemies(m.pane, m.activeEnemies));
      r.manager.game.score == m.game.score + PointsPerEnemy * hits &&
      r.manager.game.highScore == (if hits == 0 then m.game.highScore else Best(m.game.highScore, r.manager.game.score))
    ensures r.manager.game.score >= m.game.score && r.manager.game.highScore >= m.game.highScore
    ensures m.game.score <= m.game.highScore ==> r.manager.game.score <= r.manager.game.highScore
    ensures r.gameOver <==> r.manager.game.life == 0
    ensures r.gameOver ==>
      !r.manager.playerVisible && !r.manager.timerRunning && NoClones(r.manager.pane) &&
      1 !in r.manager.lifeIcons
    ensures r.manager.game.life == 2 ==> 3 !in r.manager.lifeIcons
    ensures r.manager.game.life == 1 ==> 2 !in r.manager.lifeIcons
    ensures !r.gameOver ==> r.manager.timerRunning == m.timerRunning
    ensures r.manager.spawnCooldown == m.spawnCooldown && r.manager.activePlayerShots == m.activePlayerShots
  {
    var enemies := TrackedEnemies(m.pane, m.activeEnemies);
    var scan := Scan(m.pane, m.player, enemies, m.game, now);
    ScanMonotone(m.pane, m.player, enemies, m.game, now);
    var m1 := m.(game := scan.state, pane := RemoveIds(m.pane, scan.removed));
    var m2 := ApplyPickups(m1, scan.events, now);
    var m3 := Settle(m2);
    Outcome(m3, m3.game.life == 0, scan.events)
  }

  /**
   What the pass takes off the pane: a sprite other than a clone is still
   there afterwards exactly when no node of the snapshot swept its id, and
   no sprite other than a clone appears.
   */
  lemma UpdateSweeps(m: Manager, now: int)
    ensures var r := Update(m, now).manager;
      var enemies := TrackedEnemies(m.pane, m.activeEnemies);
      (forall n :: n in m.pane && !n.Clone? ==> (n in r.pane <==> !SweptBy(m.pane, m.player, enemies, n.id))) &&
      (forall n :: n in r.pane && !n.Clone? ==> n in m.pane)
  {
  }

  /**
   What the pickups of a pass start and what salt does: every power-up the
   player touches starts its revert 15 s later, in snapshot order; a salt
   sets the fire cooldown to 250, and without one it is unchanged.
   */
  lemma UpdatePickups(m: Manager, now: int)
    ensures var r := Update(m, now).manager;
      r.pending == m.pending + RevertsFor(m.pane, m.player, now) &&
      (AnyPickedUp(m.pane, m.player, true) ==> r.fireCooldown == BoostedFireCooldown) &&
      (!AnyPickedUp(m.pane, m.player, true) ==> r.fireCooldown == m.fireCooldown)
  {
    var enemies := TrackedEnemies(m.pane, m.activeEnemies);
    var scan := Scan(m.pane, m.player, enemies, m.game, now);
    var m1 := m.(game := scan.state, pane := RemoveIds(m.pane, scan.removed));
    var m2 := ApplyPickups(m1, scan.events, now);
    assert Update(m, now).manager == Settle(m2);
  }

  /** A pepper the player touches in a pass, when no clone is referenced, enables the clones at -80 and +80. */
  lemma UpdatePepper(m: Manager, now: int)
    requires AnyPickedUp(m.pane, m.player, false) && m.leftClone.None?
    ensures var r := Update(m, now).manager;
      r.fireOffsets == [-CloneOffset, CloneOffset] && r.leftClone == Some(m.nextId) &&
      r.rightClone.Some? && r.rightClone.value == m.nextId + 1
  {
    var enemies := TrackedEnemies(m.pane, m.activeEnemies);
    var scan := Scan(m.pane, m.player, enemies, m.game, now);
    var m1 := m.(game := scan.state, pane := RemoveIds(m.pane, scan.removed));
    assert TakenIn(scan.events, false) && m1.leftClone.None? && m1.nextId == m.nextId;
    PepperEnablesClones(m1, scan.events, now);
    assert Update(m, now).manager == Settle(ApplyPickups(m1, scan.events, now));
  }

  /** The clone references and fire offsets the first pepper of the events sets, when no clone is referenced, survive the settling. */
  lemma PepperEnablesClones(m: Manager, events: seq<Event>, now: int)
    requires TakenIn(events, false) && m.leftClone.None?
    ensures var r := Settle(ApplyPickups(m, events, now));
      r.fireOffsets == [-CloneOffset, CloneOffset] && r.leftClone == Some(m.nextId) &&
      r.rightClone.Some? && r.rightClone.value == m.nextId + 1
  {
    PepperPickups(m, events, now);
  }

  /** Without a pepper touched, a pass leaves the fire offsets and the clone references as they were. */
  lemma UpdateWithoutPepper(m: Manager, now: int)
    requires !AnyPickedUp(m.pane, m.player, false)
    ensures var r := Update(m, now).manager;
      r.fireOffsets == m.fireOffsets && r.leftClone == m.leftClone && r.rightClone == m.rightClone
  {
    var enemies := TrackedEnemies(m.pane, m.activeEnemies);
    var scan := Scan(m.pane, m.player, enemies, m.game, now);
    var m1 := m.(game := scan.state, pane := RemoveIds(m.pane, scan.removed));
    PepperPickupsKeep(m1, scan.events, now);
    var m2 := ApplyPickups(m1, scan.events, now);
    assert Update(m, now).manager == Settle(m2);
  }
}
