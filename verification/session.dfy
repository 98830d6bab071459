/**
 The application's own state around the game manager: whether the title
 screen has been left, whether the continue screen is showing, and the
 scene's key handlers that move between the two. The frame pulses of the
 game loop, the firing of timed reverts and the animations that run on
 their own timers arrive as inputs too, so a whole session is a fold over a
 sequence of inputs.
 */
module Session {
  import opened Game
  import GameLoop

  /** `gameHasStarted`, `gameOver`, and whether the process has exited. */
  datatype Session = Session(manager: Manager, started: bool, gameOver: bool, exited: bool)

  /** What the player sees. */
  datatype Phase = Title | Playing | Continue | Exited

  function PhaseOf(s: Session): Phase {
    if s.exited then Exited
    else if !s.started then Title
    else if s.gameOver then Continue
    else Playing
  }

  /** The session right after start-up: title screen, loop not running. */
  function Launch(sizes: Sizes): (s: Session)
    ensures PhaseOf(s) == Title
    ensures !s.manager.timerRunning
    ensures Valid(s)
  {
    Session(NewManager(sizes), false, false, false)
  }

  /**
   What holds of every reachable session: the loop runs exactly while a
   game is being played; the title screen shows three lives; the continue
   screen shows exactly when no life is left; lives stay between 0 and 3
   and the score between 0 and the best score.
   */
  predicate Valid(s: Session) {
    Sane(s.manager.game) &&
    (s.manager.timerRunning <==> s.started && !s.gameOver) &&
    (!s.started ==> !s.gameOver && s.manager.game.life == StartingLife) &&
    (s.gameOver <==> s.manager.game.life == 0)
  }

  /**
   The scene's key-press handler. The key always reaches the manager first.
   ENTER on the title screen starts the game and nothing more; ENTER on the
   continue screen restarts it; ESCAPE on the continue screen exits.
   */
  function OnKeyPress(s: Session, k: Key, now: int): (r: Session)
    ensures s.exited ==> r == s
    ensures !s.exited && !s.started && k == Enter ==>
      r == s.(manager := GameLoop.StartGame(HandleKeyPress(s.manager, k), now), started := true)
    ensures !s.exited && s.started && s.gameOver && k == Enter ==>
      r == s.(manager := ResetGame(HandleKeyPress(s.manager, k), now), gameOver := false)
    ensures !s.exited && !(k == Enter && (!s.started || s.gameOver)) ==>
      r.manager == HandleKeyPress(s.manager, k) && r.started == s.started && r.gameOver == s.gameOver
    ensures r.exited <==> s.exited || (s.gameOver && k == Escape)
    ensures s.started ==> r.started
    ensures r.gameOver ==> s.gameOver
  {
    if s.exited then s
    else
      var m := HandleKeyPress(s.manager, k);
      if !s.started && k == Enter then
        Session(GameLoop.StartGame(m, now), true, s.gameOver, s.exited)
      else if s.gameOver && k == Enter then
        Session(ResetGame(m, now), s.started, false, s.exited)
      else if s.gameOver && k == Escape then
        s.(manager := m, exited := true)
      else s.(manager := m)
  }

  /** The scene's key-release handler: the key only reaches the manager. */
  function OnKeyRelease(s: Session, k: Key): (r: Session)
    ensures s.exited ==> r == s
    ensures !s.exited ==> r == s.(manager := HandleKeyRelease(s.manager, k))
    ensures r.manager.timerRunning == s.manager.timerRunning && r.manager.game == s.manager.game
  {
    if s.exited then s else s.(manager := HandleKeyRelease(s.manager, k))
  }

  /**
   One pulse of the game loop's timer. It pulses only while running; when
   the pass ends the game, the callback shows the continue screen.
   */
  function Frame(s: Session, now: int, d: GameLoop.Draws): (r: Session)
    ensures s.exited || !s.manager.timerRunning ==> r == s
    ensures r.started == s.started && r.exited == s.exited
    ensures r.gameOver <==> s.gameOver || (!s.exited && s.manager.timerRunning && r.manager.game.life == 0)
    ensures !s.exited && s.manager.timerRunning ==> r.manager == GameLoop.UpdateGameLoop(s.manager, now, d).manager
    ensures r.manager.game.life == s.manager.game.life || r.manager.game.life == s.manager.game.life - 1
    ensures r.manager.game.score >= s.manager.game.score
    ensures r.manager.game.highScore >= s.manager.game.highScore
  {
    if s.exited || !s.manager.timerRunning then s
    else
      var o := GameLoop.UpdateGameLoop(s.manager, now, d);
      s.(manager := o.manager, gameOver := s.gameOver || o.gameOver)
  }

  /** The pause transitions whose time has come finish. */
  function Elapse(s: Session, now: int): (r: Session)
    ensures s.exited ==> r == s
    ensures r.started == s.started && r.gameOver == s.gameOver && r.exited == s.exited
    ensures r.manager.game == s.manager.game && r.manager.timerRunning == s.manager.timerRunning
    ensures !s.exited ==> r.manager == RunDueReverts(s.manager, now)
    ensures !s.exited ==> forall p :: p in r.manager.pending ==> p.due > now
    ensures !s.exited ==> forall p :: p in s.manager.pending && p.due > now ==> p in r.manager.pending
    ensures !s.exited && Due(s.manager.pending, now, RestoreFireCooldown) ==> r.manager.fireCooldown == DefaultFireCooldown
    ensures !s.exited && !Due(s.manager.pending, now, RestoreFireCooldown) ==> r.manager.fireCooldown == s.manager.fireCooldown
    ensures !s.exited && Due(s.manager.pending, now, EndPepperShot) ==>
      r.manager.fireOffsets == [] && r.manager.leftClone.None? && r.manager.rightClone.None?
    ensures !s.exited && !Due(s.manager.pending, now, EndPepperShot) ==>
      r.manager.fireOffsets == s.manager.fireOffsets && r.manager.pane == s.manager.pane
  {
    if s.exited then s else s.(manager := RunDueReverts(s.manager, now))
  }

  /**
   The animations that run on their own timers, whatever the phase: a frame
   of the player projectiles' timelines, a pulse of the enemy projectiles'
   timers, a step of an enemy's or pepper's path to the position (x, y) its
   path transition has reached, or the end of that path. None of them stops
   with the game loop, and none touches anything but the pane.
   */
  datatype Animation = ShotFrame | FallPulse | PathStep(id: nat, x: real, y: real) | PathDone(id: nat)

  function Animate(s: Session, a: Animation): (r: Session)
    ensures s.exited ==> r == s
    ensures r == s.(manager := s.manager.(pane := r.manager.pane))
    ensures !s.exited && a.PathStep? ==> r.manager.pane == GameLoop.MoveTraveller(s.manager.pane, a.id, a.x, a.y)
    ensures !s.exited && a.PathDone? ==> r.manager == GameLoop.FinishPath(s.manager, a.id)
    ensures !s.exited && a.ShotFrame? ==> r.manager.pane == GameLoop.AdvancePlayerShots(s.manager.pane)
    ensures !s.exited && a.FallPulse? ==> r.manager.pane == GameLoop.AdvanceEnemyShots(s.manager.pane)
  {
    if s.exited then s
    else match a
      case ShotFrame => s.(manager := s.manager.(pane := GameLoop.AdvancePlayerShots(s.manager.pane)))
      case FallPulse => s.(manager := s.manager.(pane := GameLoop.AdvanceEnemyShots(s.manager.pane)))
      case PathStep(id, x, y) => s.(manager := s.manager.(pane := GameLoop.MoveTraveller(s.manager.pane, id, x, y)))
      case PathDone(id) => s.(manager := GameLoop.FinishPath(s.manager, id))
  }

  /** The inputs a running application receives: keys, the two timers of the manager, and the sprites' own animations. */
  datatype Input =
    | KeyDown(key: Key, at: int)
    | KeyUp(key: Key)
    | Pulse(at: int, draws: GameLoop.Draws)
    | Wait(until: int)
    | Tick(animation: Animation)

  function Step(s: Session, i: Input): Session {
    match i
    case KeyDown(k, t) => OnKeyPress(s, k, t)
    case KeyUp(k) => OnKeyRelease(s, k)
    case Pulse(t, d) => Frame(s, t, d)
    case Wait(t) => Elapse(s, t)
    case Tick(a) => Animate(s, a)
  }

  function Run(s: Session, inputs: seq<Input>): Session
    decreases |inputs|
  {
    if |inputs| == 0 then s else Run(Step(s, inputs[0]), inputs[1..])
  }

  /** The phase changes an input can cause. */
  predicate Allowed(p: Phase, q: Phase) {
    p == q ||
    (p == Title && q == Playing) ||
    (p == Playing && q == Continue) ||
    (p == Continue && (q == Playing || q == Exited))
  }

  /** Every input keeps the session valid and moves the phase only along the allowed edges. */
  lemma StepKeepsValid(s: Session, i: Input)
    requires Valid(s)
    ensures Valid(Step(s, i))
    ensures Allowed(PhaseOf(s), PhaseOf(Step(s, i)))
  {
    match i
    case KeyDown(k, t) => PressKeepsValid(s, k, t);
    case KeyUp(k) =>
    case Pulse(t, d) => FrameKeepsValid(s, t, d);
    case Wait(t) =>
    case Tick(a) =>
  }

  /** A key press keeps the session valid and moves the phase only along the allowed edges. */
  lemma PressKeepsValid(s: Session, k: Key, now: int)
    requires Valid(s)
    ensures Valid(OnKeyPress(s, k, now))
    ensures Allowed(PhaseOf(s), PhaseOf(OnKeyPress(s, k, now)))
  {
    if !s.exited && s.gameOver && k == Enter {
      ResetKeepsHighScore(HandleKeyPress(s.manager, k), now);
    }
  }

  /** A pulse of the loop keeps the session valid: it costs at most one life, and the last one ends the game. */
  lemma FrameKeepsValid(s: Session, now: int, d: GameLoop.Draws)
    requires Valid(s)
    ensures Valid(Frame(s, now, d))
    ensures Allowed(PhaseOf(s), PhaseOf(Frame(s, now, d)))
  {
    if !s.exited && s.manager.timerRunning {
      var o := GameLoop.UpdateGameLoop(s.manager, now, d);
      assert Frame(s, now, d) == s.(manager := o.manager, gameOver := o.gameOver);
    }
  }

  /** Every session reached from start-up is valid; the title screen, once left, is never shown again. */
  lemma {:induction false} RunKeepsValid(s: Session, inputs: seq<Input>)
    requires Valid(s)
    ensures Valid(Run(s, inputs))
    ensures s.started ==> Run(s, inputs).started
    ensures s.exited ==> Run(s, inputs) == s
    decreases |inputs|
  {
    if |inputs| > 0 {
      StepKeepsValid(s, inputs[0]);
      RunKeepsValid(Step(s, inputs[0]), inputs[1..]);
    }
  }

  /** Whatever the phase, a press reaches the manager's key tracking before anything else happens. */
  lemma PressAlwaysReachesManager(s: Session, k: Key, now: int)
    requires !s.exited
    ensures OnKeyPress(s, k, now).manager.keys == s.manager.keys + {k}
    ensures OnKeyPress(s, k, now).manager.spacePressed == (k == Space || s.manager.spacePressed)
  {
  }

  /**
   Behind the continue screen the sprites still move on their own: enemy
   projectiles keep falling and enemies and peppers finish their paths,
   while lives and score stay as they are.
   */
  lemma AnimationsOutliveTheGame(s: Session, a: Animation)
    requires Valid(s) && s.gameOver && !s.exited
    ensures var r := Animate(s, a);
      PhaseOf(r) == Continue && r.manager.game == s.manager.game &&
      (a.FallPulse? ==> r.manager.pane == GameLoop.AdvanceEnemyShots(s.manager.pane))
  {
  }

  /** Behind the continue screen the loop is stopped, so a pulse changes nothing and the callback runs once per game. */
  lemma PulseAfterGameOverIsIdle(s: Session, now: int, d: GameLoop.Draws)
    requires Valid(s) && s.gameOver
    ensures Frame(s, now, d) == s
  {
  }

  /** ESCAPE while playing or on the title screen is only a key for the manager. */
  lemma EscapeOutsideContinueIgnored(s: Session, now: int)
    requires Valid(s) && !s.gameOver
    ensures !OnKeyPress(s, Escape, now).exited || s.exited
    ensures !s.exited ==> OnKeyPress(s, Escape, now).manager == HandleKeyPress(s.manager, Escape)
  {
  }

  /** ENTER while playing neither restarts nor resets anything. */
  lemma EnterWhilePlayingIgnored(s: Session, now: int)
    requires Valid(s) && s.started && !s.gameOver && !s.exited
    ensures OnKeyPress(s, Enter, now) == s.(manager := HandleKeyPress(s.manager, Enter))
  {
  }

  /** Starting from the title leaves score and best score as they were; only a restart zeroes the score. */
  lemma StartKeepsScore(s: Session, now: int)
    requires !s.exited && !s.started
    ensures OnKeyPress(s, Enter, now).manager.game == s.manager.game
    ensures OnKeyPress(s, Enter, now).manager.timerRunning
  {
  }
}
