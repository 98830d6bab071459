# Pizza Time — a Dafny model of the game core

Pizza Time is a small JavaFX arcade shooter. The player is a pizza slice that moves and fires upwards. Enemies come down zigzag paths and fire back. Two power-ups, salt and pepper, change the player's firing for 15 seconds. The game has lives, a score and a best score, and a title → playing → continue flow.

This project models the simulation behind the graphics as pure functions over immutable records:

- the hit test (`CollisionUtils`), with boxes as (minX, minY, width, height);
- the collision pass (`CollisionManager.update`), walking a snapshot of the pane;
- the game manager's per-frame handlers, pepper toggles, reset and key tracking (`GameManager`);
- the enemy and pepper paths, and the enemy fire guard (`Enemy`, `Pepper`);
- the per-frame motion of both projectile kinds (`Projectile`, `EnemyProjectile`);
- the two-tile background scroll (`BackgroundManager`);
- the application's key handler and its phases (`Main`).

The wall clock and every random draw are parameters:
- `now` is an `int` number of milliseconds;
- the enemy's start and direction draws are `int`s in 0..99;
- the power-up kind draw is a `real`.

Positions are `real`. The pane is a sequence of nodes, each with a unique id. The sets the manager tracks hold those ids. A pause transition that reverts a power-up becomes a `Pending(due, action)` entry, fired by `Game.RunDueReverts` once its time has come.

Modules:
- `Wrappers`: `Option`.
- `Geometry`: boxes and the hit test.
- `Zigzag`: `clamp` and the 9-waypoint paths.
- `Shots`: both projectile kinds.
- `Foes`: enemy and pepper spawning, and enemy firing.
- `Background`: the background scroll.
- `Game`: the manager state and its handlers.
- `Collision`: the collision pass.
- `GameLoop`: `startGame`, `updateGameLoop`, and the projectiles' own timelines.
- `Session`: the `Main` key handler as a phase machine over a sequence of inputs.

Behaviour of the code worth knowing:
- **Game over.** The game-over branch removes only the pepper clones (`removeIf(node instanceof PizzaSprite && node != pizzaMain)`) and stops the game loop. It does not purge enemies, projectiles or power-ups. Those stay on the pane until the restart clears them, and their own animations keep running: enemy projectiles keep falling and are removed past the bottom edge, player projectiles keep rising, and enemies and peppers finish their paths and leave the pane. The session accepts these animation steps in every phase (`Session.Animate`, `Session.AnimationsOutliveTheGame`).
- **Salt re-pickup.** Picking up a second salt before the first one's 15 s are over does not restart the window. Each pickup schedules its own revert, and the earlier revert still sets the cooldown back to 750 (`Collision.SaltRepickupEndsWithFirst`).
- **Clone references after a restart.** `resetGame` takes both clones off the pane but leaves the `leftClone`/`rightClone` references set. A pepper picked up after a restart, before the old pepper's revert has fired, therefore does nothing (`Game.ResetDuringPepperBlocksNextPepper`).
- **The hit test's asymmetry.** The padded hit test is asymmetric only when the padding empties the shrunken box (`Geometry.PaddedSymmetricUnlessEmptied`, `Geometry.NarrowBoxHitsOneWay`).

## Model

| member | source | states |
|---|---|---|
| Geometry.Shrink | CollisionUtils.java:13-18 | the shrunken box keeps the original's centre (the sum of opposite edges) and is narrower and lower by exactly twice the padding; for padding ≥ 0 it is no larger and, when not empty, lies inside the original |
| Geometry.OverlapsIffCommonPoint | CollisionUtils.java:20 | two boxes intersect exactly when some point lies in both (closed intervals) |
| Geometry.IntersectsIsUnpadded | CollisionUtils.java:23-25 | the two-argument test is the padded test with padding 0, i.e. plain overlap |
| Geometry.IntersectsSymmetric | CollisionUtils.java:23-25 | without padding the order of the two sprites does not matter |
| Geometry.NarrowBoxHitsOneWay | CollisionUtils.java:8-21 | with positive padding the order matters: a box narrower than twice the padding inside the other's hit box hits it, but is never hit by it |
| Geometry.PaddedSymmetricUnlessEmptied | CollisionUtils.java:8-21 | when padding empties neither box, swapping the operands gives the same answer |
| Geometry.PaddingMonotone | CollisionUtils.java:12-20 | raising the padding can turn a hit into a miss, never a miss into a hit |
| Geometry.SeparatedNeverIntersect | CollisionUtils.java:20 | boxes apart on either axis never intersect, for any padding ≥ 0 |
| Geometry.ContainingAlwaysIntersects | CollisionUtils.java:8-21 | a box containing the other always hits it while the padding leaves the inner box non-empty |
| Zigzag.Clamp | Enemy.java:77-79 | the result is v inside [lo, hi], and the nearer bound outside it |
| Zigzag.StartColumn | Enemy.java:29 | the start column is 256 exactly when the draw is ≤ 50, and 512 otherwise |
| Zigzag.DirectionOf | Enemy.java:44 | the right-first pattern is chosen exactly when the direction draw is ≤ 50 |
| Zigzag.EnemyPath | Enemy.java:36-67 | nine waypoints at y = −100, 128, …, 1024, every x within [0, 768 − 75] |
| Zigzag.PepperPath | Pepper.java:30-44 | nine waypoints at the same heights, every x within [0, 693] |
| Zigzag.EnemyPathIsSwing | Enemy.java:44-67 | waypoint i is the start column swung by −1, 0 or +1 times 250, then clamped |
| Zigzag.EvenWaypointsAtStart | Enemy.java:45-55 | every even waypoint sits exactly at the start column |
| Zigzag.DirectionsMirror | Enemy.java:44-67 | before clamping the two direction branches mirror each other about the start column |
| Zigzag.PepperPathIsEnemyPath | Pepper.java:34-44 | the pepper's path equals the enemy's right-first path from the same column |
| Zigzag.OnlyRightSwingFrom512Clamped | Enemy.java:37-39 | from either drawable start column, clamping only changes a swing past 693 |
| Shots.FireProjectile | Projectile.java:19-21 | a player projectile fired from (x, y) is centred on x and starts 25 above y |
| Shots.StepProjectile | Projectile.java:26-31 | one frame moves it up exactly 10 with x unchanged; it survives exactly when the new y is ≥ −100 |
| Shots.FlyProjectileExact | Projectile.java:26-31 | after k frames it is still flying iff y − 10k ≥ −100, and then sits exactly 10k higher |
| Shots.ProjectileRemovedInTime | Projectile.java:26-31 | from y ≥ −100 it is gone after ⌊(y + 100)/10⌋ + 1 frames |
| Shots.FireEnemyProjectile | EnemyProjectile.java:26-28 | an enemy projectile fired from (x, y) is centred on x at height y, with its timer running |
| Shots.StopAnimation | EnemyProjectile.java:48-52 | stopping leaves the position, stops a running timer, and changes nothing when no timer exists |
| Shots.Detach | EnemyProjectile.java:18-22 | taking the projectile off the pane stops its animation |
| Shots.StepEnemyProjectile | EnemyProjectile.java:32-41 | a running projectile falls exactly 2.5; it is removed, timer stopped, exactly when it passes 1024; a stopped one does not move |
| Shots.DetachedNeverMoves | EnemyProjectile.java:18-22 | once detached, no number of pulses moves it |
| Shots.FlyEnemyProjectileExact | EnemyProjectile.java:32-41 | after k pulses it is still falling iff y + 2.5k ≤ 1024, and then sits exactly 2.5k lower |
| Shots.EnemyProjectileRemovedInTime | EnemyProjectile.java:32-41 | from y ≤ 1024 it is removed with its timer stopped after ⌊(1024 − y)/2.5⌋ + 1 pulses |
| Foes.SpawnEnemy | Enemy.java:13-34 | the enemy's column follows the start-draw rule, its path is the 9-point path for the drawn direction, and it has never fired |
| Foes.SpawnPepper | Pepper.java:11-44 | same column rule, always the enemy's right-first path |
| Foes.Fire | Enemy.java:82-99 | fires iff 750 ms have passed and the bottom edge is strictly inside the pane; the shot is centred on the sprite's bottom edge and the time is recorded; otherwise nothing changes |
| Foes.FireAtMostOncePerCooldown | Enemy.java:82-99 | two attempts under 750 ms apart fire at most once |
| Foes.OffScreenNeverFires | Enemy.java:86-90 | an enemy whose bottom edge is off the pane never fires, however long it has waited |
| Background.Initial | BackgroundManager.java:30-40 | the first tile starts at 0 and the second one pane height below it |
| Background.Tick | BackgroundManager.java:50-63 | both tiles move down 2; a tile at or past the bottom goes exactly one pane height above the other |
| Background.StackedCovers | BackgroundManager.java:42-45 | tiles one pane apart with the lower top in [0, H] cover the whole pane |
| Background.InitialStacked | BackgroundManager.java:30-40 | the initial placement is stacked |
| Background.TickKeepsStacked | BackgroundManager.java:50-63 | a tick keeps the tiles H apart and puts the lower top in [0, H) |
| Background.ScrollAlwaysCovers | BackgroundManager.java:47-66 | after any number of ticks the pane [0, H] is covered |
| Game.HandleKeyPress | GameManager.java:53-59 | the key joins the held set, SPACE sets the fire flag, nothing else changes |
| Game.HandleKeyRelease | GameManager.java:61-67 | the key leaves the held set, SPACE clears the fire flag, nothing else changes |
| Game.SpacePressedFollowsLastSpaceEvent | GameManager.java:53-67 | after any key trace the fire flag is set exactly when the last SPACE event was a press (unchanged if there was none) |
| Game.SpaceFlagMatchesHeldKeys | GameManager.java:53-67 | starting consistent, the fire flag stays equal to "SPACE is held" |
| Game.UpdateDifficulty | GameManager.java:123-128 | the spawn cooldown drops by 50 and the ramp clock resets only when 30 s have passed and it is above 1000; a value in [1000, 1250] stays there |
| Game.RampStaysInRange | GameManager.java:122-128 | over any sequence of frame times the spawn cooldown stays in [1000, 1250] on the 50 ms grid |
| Game.FirstRampStep | GameManager.java:124-126 | 30 s or more after the default 1250 was set, the first ramp step makes it 1200 |
| Game.RampStopsAtFloor | GameManager.java:124 | at 1000 the ramp changes nothing |
| Game.MinNegative | GameManager.java:149 | the least negative offset, or none when no offset is negative |
| Game.MaxPositive | GameManager.java:150 | the greatest positive offset, or none when no offset is positive |
| Game.Slide | GameManager.java:157-161 | a move that stays within [0, limit] is made as asked; one that would cross the low edge stops exactly at 0 when the extent fits, one that would cross the high edge stops exactly at the limit; an extent wider than the bounds ends flush with the limit; the extent never ends past the limit |
| Game.HandlePlayerMovement | GameManager.java:130-165 | only the player moves; a formation inside the pane stays inside, moves at most 3 per axis, and moves exactly by the keys when that does not cross an edge |
| Game.MovementStopsAtEdges | GameManager.java:147-161 | from any start, a move that would take the formation (clone offsets included) across an edge leaves it exactly at that edge, and the formation never ends past the right or bottom edge |
| Game.AddPlayerShot | GameManager.java:204-208 | one projectile node fired from the given centre joins the pane and the tracked set |
| Game.FireFromOffsets | GameManager.java:180-182 | one projectile per offset, in order, each centred on the main centre plus that offset |
| Game.Volley | GameManager.java:174-185 | one volley appends 1 + offsets projectile nodes after the untouched old pane, tracks exactly the old and the fresh ids, and records the firing time |
| Game.VolleyShots | GameManager.java:174-182 | the first new node is a 50-wide projectile centred on the sprite's centre, its top 25 above the sprite's top edge, with the next id; the following ones are the same, shifted by each offset in order, with consecutive ids |
| Game.HandlePlayerFiring | GameManager.java:169-186 | nothing changes unless SPACE is held and the cooldown has passed; otherwise exactly one volley is fired, and the only new tracked projectiles are fresh ids |
| Game.Prune | GameManager.java:197 | exactly the tracked enemies still on the pane remain, and a list without repeats stays without repeats |
| Game.AddEnemyShot | Enemy.java:92-94 | the projectile's node, with the next fresh id, its position and a running timer, is appended to the pane and its id joins the active enemy projectiles; nothing but the pane, that set and the id counter changes |
| Game.EnemyFires | Enemy.java:82-99 | the enemy fires exactly when 750 ms have passed since its last shot and its bottom edge is strictly inside the pane; then its fire time becomes now in place and the projectile centred under it is appended and tracked; otherwise nothing changes |
| Game.EnemyTriesFire | Enemy.java:82-99 | for a tracked id: when the node is an enemy that may fire, exactly one projectile centred under it, at its bottom edge, is appended and tracked with the next fresh id; otherwise the manager is unchanged; only the pane, the enemy projectiles and the id counter change |
| Game.FiringRecordsTime | Enemy.java:95 | an enemy that fires keeps its place and box and records now as its last fire time |
| Game.TryFireKeepsOthers | Enemy.java:82-99 | one enemy's attempt does not change what any other existing id finds on the pane |
| Game.EnemiesTryFire | GameManager.java:199-201 | every listed enemy tries to fire; the old nodes keep their ids and everything but enemies is untouched; only projectiles are appended; the new active enemy projectiles are exactly the fresh ids handed out |
| Game.EnemiesFireIndependently | GameManager.java:199-201 | for distinct existing ids, the appended nodes are exactly the projectiles of the enemies whose fire guard holds on the pane before the loop, in list order, with consecutive fresh ids |
| Game.SpawnEnemyIfDue | GameManager.java:190-195 | an enemy is spawned and tracked, and the time recorded, exactly when the spawn cooldown has passed |
| Game.HandleEnemySpawning | GameManager.java:189-202 | the spawn time follows the cooldown; a due spawn is tracked; afterwards exactly the old tracked enemies still on the pane plus the new one are tracked, and all are on the pane; lives and score untouched |
| Game.TrackedEnemiesFire | GameManager.java:189-202 | the tracked list is the pruned list, and the appended nodes are exactly the projectiles its enemies fire, in order |
| Game.HandlePowerUpSpawning | GameManager.java:211-222 | after 20 s exactly one power-up appears with the next fresh id: the salt with its drawn bounds when the draw is ≥ 0.5, otherwise a pepper 75 wide at its column and at the path's first height; the time is recorded; before 20 s nothing changes |
| Game.SpawnedPepperFollowsEnemyPath | GameManager.java:216-218 | a spawned pepper stands in column 256 or 512 by the start draw and follows the enemy's right-first zigzag from that column |
| Game.PowerUpAtMostOncePerCooldown | GameManager.java:211-221 | once a power-up has spawned, no other spawns for the next 20 s, whatever the draws |
| Game.EnablePepperShot | GameManager.java:225-244 | no-op when a left clone exists; otherwise the offsets become exactly −80 and 80 and two clones join the pane |
| Game.DisablePepperShot | GameManager.java:246-258 | offsets empty, both references cleared, both clones off the pane, every other node kept |
| Game.EnableIdempotent | GameManager.java:225-228 | enabling twice is enabling once |
| Game.DisableIdempotent | GameManager.java:246-258 | disabling twice is disabling once |
| Game.EnableWhileActiveKeepsTwoOffsets | GameManager.java:225-232 | a second pepper while one is active leaves exactly two firing offsets |
| Game.SetFireCooldown | GameManager.java:116 | the setter handed to the collision pass changes only the fire cooldown |
| Game.Schedule | CollisionManager.java:88-90 | a revert is appended; earlier ones are kept |
| Game.RunRevert | CollisionManager.java:89-101 | the salt revert is the setter with 750; the pepper revert is `disablePepperShot` |
| Game.RunDue | CollisionManager.java:88-102 | exactly the reverts not yet due remain; the cooldown is 750 iff a due salt revert ran, else unchanged |
| Game.RunDuePepper | CollisionManager.java:100-101 | when a pepper revert is due, the offsets are empty, both references are cleared and exactly the referenced clones leave the pane; otherwise offsets, references and pane are kept |
| Game.RunDueReverts | CollisionManager.java:88-102 | only later reverts stay pending; the cooldown and the clones follow the due salt and pepper reverts as above; lives and score untouched |
| Game.ResetGame | GameManager.java:261-300 | 3 lives, score 0, cooldowns 750 and 1250, no offsets, empty tracked sets, player back at (346.5, 800) and visible, and the pane keeps exactly the clones no pepper reference names, best score kept |
| Game.ClearSprites | GameManager.java:278-284 | exactly the enemies, projectiles and power-ups leave the pane |
| Game.ResetKeepsHighScore | GameManager.java:261-263 | a restart never changes the best score, and from a sane state leaves a sane state with 3 lives |
| Game.ResetDuringPepperBlocksNextPepper | GameManager.java:268-276 | after a restart during a pepper effect the next pepper pickup does nothing |
| GameLoop.StartGame | GameManager.java:70-85 | the ramp clock starts now, the player appears at its start and is visible, three icons, the loop runs |
| GameLoop.StillOnPane | GameManager.java:97-98 | exactly the tracked projectiles still on the pane remain |
| GameLoop.MoveAndFire | GameManager.java:91-93 | the difficulty ramp, then movement, then firing: the player ends where movement puts it, the fire time is now exactly when firing was allowed, and spawn and power-up times are untouched |
| GameLoop.SpawnAll | GameManager.java:94-95 | enemy then power-up spawning change only the pane, the tracked sets, the id counter and the two spawn times, each time becoming now exactly when its cooldown has passed; every tracked enemy is on the pane |
| GameLoop.PruneShots | GameManager.java:97-98 | exactly the tracked projectiles whose node is still on the pane stay tracked; nothing else changes |
| GameLoop.PrepareFrame | GameManager.java:88-98 | the handlers before the collision pass never touch lives or score; the spawn cooldown stays in range and never rises; the player moves as movement decides; the fire, enemy-spawn and power-up times become now exactly when each is due; every tracked enemy and projectile id is on the pane |
| GameLoop.UpdateGameLoop | GameManager.java:88-120 | one frame loses at most one life, never lowers score or best score, and ends the game exactly when lives reach 0 |
| GameLoop.RiseNode | Projectile.java:26-30 | a player projectile moves exactly 10 up and is gone exactly when it ends above −100; any other node is kept |
| GameLoop.AdvancePlayerShots | Projectile.java:26-33 | every other node is kept and nothing new appears; each player projectile whose new y is ≥ −100 is still there exactly 10 higher, and every one still there is such a moved projectile |
| GameLoop.FallNode | EnemyProjectile.java:32-41 | a running enemy projectile moves exactly 2.5 down and is gone exactly when it ends below 1024; a stopped one and any other node are kept |
| GameLoop.AdvanceEnemyShots | EnemyProjectile.java:32-41 | every other node and every stopped projectile is kept; each running projectile whose new y is ≤ 1024 is still there exactly 2.5 lower, and every running one still there is such a moved projectile |
| GameLoop.FinishPath | Enemy.java:72 | at the end of its path an enemy or pepper with this id leaves the pane; every other node stays; nothing else changes |
| GameLoop.FinishPathIdempotent | Pepper.java:47-49 | a second end for the same id changes nothing, since the node is already gone |
| GameLoop.MoveTraveller | Enemy.java:70-73 | a step of the path transition redraws the enemy or pepper with this id at the reached position, keeping its size; every other node stays, in place |
| GameLoop.PathEndAfterStep | Enemy.java:70-72 | wherever the path has drawn a sprite, the end of the path removes exactly what it would have removed before the step |
| Collision.FirstHit | CollisionManager.java:60-74 | the first tracked enemy on screen that the projectile touches, and none before it |
| Collision.Visit | CollisionManager.java:39-105 | one node costs a life, stamping the damage time, exactly when the player can be hurt and touches it; a projectile that hits a visible tracked enemy scores 5, raises the best score to match and removes itself and that enemy; a salt or pepper the player touches removes itself and reports its pickup; the revert it starts is 15 s later |
| Collision.Scan | CollisionManager.java:39-105 | life drops by exactly 1, and the damage time becomes now, iff the player can be hurt and touches an enemy or enemy projectile; score rises by 5 per hitting projectile; best score is the running max; the removed ids are exactly those some node sweeps; a salt (pepper) pickup is reported iff the player touches one; the reverts started are those of the touched power-ups in snapshot order |
| Collision.ScoresIffSomeHittable | CollisionManager.java:59-75 | a node scores exactly when it is a player projectile and some tracked enemy is on screen and touched by it |
| Collision.ScanMonotone | CollisionManager.java:39-105 | within a pass life never rises, score and best score never fall, score ≤ best score is kept |
| Collision.TwoPassesOneLife | CollisionManager.java:42-56 | two passes under 1000 ms apart cost at most one life between them |
| Collision.SingleHitScoresFive | CollisionManager.java:59-74 | one projectile over an on-screen enemy scores exactly 5 and removes both |
| Collision.EnemyAboveScreenNotHit | CollisionManager.java:61 | an enemy above the top edge cannot be hit |
| Collision.TrackedEnemies | CollisionManager.java:60 | at most one node per tracked id; each is an enemy of the pane that its tracked id finds; every tracked id that finds an enemy contributes it |
| Collision.TrackedEnemiesExact | CollisionManager.java:60 | with unique ids on the pane, the tracked enemies are exactly the enemies of the pane whose ids are tracked |
| Collision.PickUp | CollisionManager.java:82-103 | salt is the setter with 250 followed by its 750 revert scheduled 15 s later; pepper is `enablePepperShot` followed by its `disablePepperShot` revert scheduled 15 s later; any other event changes nothing |
| Collision.ApplyPickups | CollisionManager.java:82-103 | the pending reverts are the old ones followed by each pickup's revert in order; the cooldown is 250 iff a salt was taken; a pepper leaves a left clone referenced; lives, score and the non-clone nodes are kept |
| Collision.PepperPickups | CollisionManager.java:94-99 | with no clone referenced, the first pepper of the events sets the offsets to −80 and 80, references two fresh clones and appends exactly those two to the pane |
| Collision.PepperPickupsKeep | CollisionManager.java:94-99 | with no pepper among the events, or a clone already referenced, the offsets, references, pane and id counter are unchanged |
| Collision.SaltRepickupEndsWithFirst | CollisionManager.java:82-91 | after two salts the cooldown is 250, but 15 s after the first it is back to 750 |
| Collision.PepperEndsWithItsRevert | CollisionManager.java:94-103 | 15 s after a pepper pickup its revert has cleared the offsets and both references and taken the referenced clones, including any the pickup added, off the pane |
| Collision.Settle | CollisionManager.java:112-135 | life 2 removes icon 3, life 1 removes icon 2, life 0 removes icon 1, hides the player, removes every clone and stops the loop; the offsets, references, reverts and fire cooldown are kept |
| Collision.RemoveClones | CollisionManager.java:128-129 | exactly the clones leave the pane |
| Collision.Update | CollisionManager.java:16-136 | the score rises by exactly 5 per projectile of the snapshot that hits a tracked on-screen enemy, and the best score becomes the max of the old best and the new score when any hit; lives fall by at most one, exactly when a hurtable player touches a hostile; the game-over branch runs iff life is 0, hides the player, removes the clones and stops the loop; the icons follow the lives |
| Collision.UpdateSweeps | CollisionManager.java:59-104 | a node other than a clone survives the pass exactly when no node of the snapshot swept its id; no new node other than a clone appears |
| Collision.UpdatePickups | CollisionManager.java:82-103 | every power-up the player touches starts its revert 15 s later, in snapshot order; the cooldown is 250 iff a salt was touched |
| Collision.UpdatePepper | CollisionManager.java:94-99 | a pepper touched while no clone is referenced gives offsets −80 and 80 and references two fresh clones |
| Collision.UpdateWithoutPepper | CollisionManager.java:94-99 | without a pepper touched, the offsets and clone references stay |
| Session.Launch | Main.java:19-20 | the application starts on the title screen with the loop stopped, in a valid state |
| Session.OnKeyPress | Main.java:69-89 | the key always reaches the manager; ENTER on the title starts and returns; ENTER on the continue screen restarts; ESCAPE exits only on the continue screen; `started` is never cleared |
| Session.OnKeyRelease | Main.java:91-93 | the key reaches the manager and nothing else changes |
| Session.Frame | Main.java:49-52 | a pulse runs only while the loop runs, and then the manager is exactly the one the frame produces; it loses at most one life and never lowers score or best score; the continue screen shows exactly when the pass ends the game |
| Session.Elapse | CollisionManager.java:88-102 | finishing due reverts never changes the phase, lives or score; the manager is exactly the one the due reverts leave, so the cooldown is back to 750 iff a salt revert was due, the pepper shot is off iff a pepper revert was due, and only later reverts stay pending |
| Session.Animate | Projectile.java:26-33 | in every phase a projectile frame, an enemy projectile pulse, a path step or a path end changes only the pane, as the corresponding timeline or transition does |
| Session.AnimationsOutliveTheGame | EnemyProjectile.java:32-44 | behind the continue screen the animations still run: enemy projectiles keep falling while phase, lives and score stay |
| Session.StepKeepsValid | Main.java:69-93 | every input keeps the session consistent (loop running iff playing, continue screen iff no life left, lives and score in range) and moves only title → playing → continue → playing or exit |
| Session.PressKeepsValid | Main.java:69-89 | a key press keeps the session consistent and follows the allowed phase changes |
| Session.FrameKeepsValid | Main.java:49-52 | a pulse keeps the session consistent; the last life ends the game |
| Session.RunKeepsValid | Main.java:19-93 | every reachable session is consistent, the title never returns, and exit is final |
| Session.PressAlwaysReachesManager | Main.java:69-71 | in every phase a press updates the manager's held keys and fire flag |
| Session.PulseAfterGameOverIsIdle | CollisionManager.java:131-133 | behind the continue screen a pulse changes nothing, so the game-over callback runs once per game |
| Session.EscapeOutsideContinueIgnored | Main.java:80-88 | ESCAPE outside the continue screen does not exit |
| Session.EnterWhilePlayingIgnored | Main.java:73-88 | ENTER during play neither starts nor restarts anything |
| Session.StartKeepsScore | GameManager.java:70-85 | leaving the title keeps score and best score and starts the loop |

## Left out

- Path motion: the JavaFX path transition that moves an enemy (15 s) or a pepper (20 s) along its polyline is not interpolated. Each step of it is an input carrying the position reached (`Session.Animation.PathStep`, `GameLoop.MoveTraveller`), so a caller can place the sprite anywhere, not only on its polyline, and the position is the sprite's top-left corner rather than the centre the transition moves. The end of the path, which removes the sprite, is modelled (`GameLoop.FinishPath`).
- Frame timing: the game loop's pulses, the player projectiles' 16 ms frames and the enemy projectiles' timer pulses arrive as explicit inputs (`Session.Frame`, `Session.Animate`), in whatever order the input sequence gives, not at a frame rate.
- Pause transitions are `Pending` deadlines. The exact ordering of a revert against a frame at the same millisecond is not modelled.
- `Projectile`'s timeline is never stopped in the source. The model drops a projectile once it leaves the pane, which is all the game can observe.
- Sound (`SoundManager`), the sprite flash, the explosion image, fonts, score text and the continue screen are presentation and are left out. The explosion centre is reported in the `EnemyDestroyed` event.
- `UIManager.updateLives` is left out; the life icons are the set of icon numbers still shown.
- `System.exit` is modelled as the terminal `exited` flag.
- Salt.java is not part of this model. A salt's bounds come in as a parameter of `Game.HandlePowerUpSpawning`.
- GameState.java is not part of this model. Its four fields are inferred from their uses.
- Image heights depend on image files the model cannot read. They arrive through the `Sizes` record.
- JavaFX `Bounds.intersects` is assumed to be a closed-interval overlap test that is false for a box of negative width or height.
- Scene coordinates are taken to equal pane coordinates.
- The collision pass walks a snapshot of the pane. Removals made during the walk take effect after it. Nothing is claimed about a removed enemy being scored again later in the same pass, since the source mutates the list it iterates.
- Hash-set iteration order (tracked enemies, fire offsets) is modelled as a sequence; the tracked enemies are a sequence of ids, each naming its node on the pane. Every result stated above holds for any order.
- `resetGame`'s removal of `LifeIcon` nodes from the game pane is a no-op there (icons live on the UI pane) and is left out.
- GameLoop.UpdateGameLoop: states the lives, score and phase facts of a frame; the positions of new sprites are stated by the handlers it composes, not restated here.
- Game.EnemiesFireIndependently: stated for distinct tracked ids older than the next fresh id, which is how the tracked set is built; a list with repeats is not described.
- Collision.UpdatePepper: stated for a pass that starts with no clone referenced; with one referenced the pepper pickups change nothing, which `Collision.PepperPickupsKeep` states for the pickups alone.
