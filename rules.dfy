/**
 * The game rules of the flight simulator as functions on a value of the
 * whole rule state: shooting with a cooldown, score decay and the win
 * threshold, the crash test, restart, the mouse controls, and the order of
 * the steps in one animation frame. The simulator class executes these
 * rules in place; each of its methods is proved to produce what the
 * function of the same name here computes.
 */
module Rules {
  import opened Entities
  import opened Collision
  import opened Lifetimes

  /**
   * What the rules read but never change: the scene objects other than the
   * airplane, bullets and explosions (terrain, trees, mountains, buildings,
   * lakes, the sun, lights, clouds, cats), the airplane's object id, and
   * the box test.
   */
  datatype World = World(scenery: seq<Obj>, planeId: int, intersects: (Box, Box) -> bool)

  /**
   * The state the rules change. `gameOverCount` and `gameWonCount` count how
   * many times the game-over and win transitions have run (each puts up its
   * overlay).
   */
  datatype GameState = GameState(
    score: int,
    lastShotTime: int,
    lastScoreUpdate: int,
    isGameOver: bool,
    isGameWon: bool,
    isPointerLocked: bool,
    flight: Flight,
    bullets: seq<Bullet>,
    explosions: seq<Explosion>,
    gameOverCount: nat,
    gameWonCount: nat)

  /**
   * The airplane's position and how it is flown: pitch and yaw follow the
   * mouse, speed and the afterburner the right button.
   */
  datatype Flight = Flight(pos: Vec, pitch: real, yaw: real, speed: real, isBoostActive: bool)

  /** Level flight at base speed from the start position, without afterburner. */
  const Takeoff: Flight := Flight(StartPosition, 0.0, 0.0, BaseSpeed, false)

  predicate Playing(s: GameState) {
    !s.isGameOver && !s.isGameWon
  }

  /** What every reachable state satisfies: the score is never negative, and the game is never both lost and won. */
  predicate Inv(s: GameState) {
    s.score >= 0 && !(s.isGameOver && s.isGameWon)
  }

  function Terminations(s: GameState): nat {
    s.gameOverCount + s.gameWonCount
  }

  /** The state right after construction at time `now`. */
  function Initial(now: int): (s: GameState)
    ensures Inv(s) && Playing(s) && !s.isPointerLocked
    ensures s.score == 0 && s.bullets == [] && s.explosions == []
    ensures s.lastShotTime == 0 && s.lastScoreUpdate == now && s.flight == Takeoff
  {
    GameState(0, 0, now, false, false, false, Takeoff, [], [], 0, 0)
  }

  function PlaneObj(w: World, s: GameState): Obj {
    Obj(w.planeId, Airplane, s.flight.pos, 0)
  }

  // ----------------------------------------------------------------------
  // Shooting
  // ----------------------------------------------------------------------

  /** A shot goes off only with the pointer locked, during play, and once the cooldown has passed. */
  predicate MayShoot(s: GameState, now: int) {
    s.isPointerLocked && Playing(s) && now - s.lastShotTime >= ShotCooldown
  }

  /**
   * The bullet a shot creates: `forward` is the airplane's unit heading,
   * which the graphics library derives from the airplane's orientation.
   */
  function NewBullet(w: World, s: GameState, now: int, forward: Vec, meshId: int): Bullet {
    Bullet(meshId, s.flight.pos.Plus(forward.Scale(MuzzleOffset)), forward.Scale(BulletSpeed), now, w.planeId)
  }

  function Shoot(w: World, s: GameState, now: int, forward: Vec, meshId: int): (r: GameState)
    // a refused shot changes nothing at all
    ensures !MayShoot(s, now) ==> r == s
    // a shot that goes off appends exactly one bullet, born now, fired by the airplane,
    ensures MayShoot(s, now) ==>
              |r.bullets| == |s.bullets| + 1 && r.bullets[..|s.bullets|] == s.bullets
              && r.bullets[|s.bullets|].timeCreated == now && r.bullets[|s.bullets|].shooterId == w.planeId
    // restarts the cooldown and costs one point, never going below zero,
    // 15 units ahead of the airplane, moving 20 units per frame along the heading, with the mesh's id;
    ensures MayShoot(s, now) ==>
              r.bullets[|s.bullets|].pos == s.flight.pos.Plus(forward.Scale(MuzzleOffset))
              && r.bullets[|s.bullets|].velocity == forward.Scale(BulletSpeed)
              && r.bullets[|s.bullets|].id == meshId
    ensures MayShoot(s, now) ==> r.lastShotTime == now && r.score == Penalized(s.score)
    // and touches nothing else
    ensures r.(score := s.score, lastShotTime := s.lastShotTime, bullets := s.bullets) == s
    ensures Inv(s) ==> Inv(r)
  {
    if !MayShoot(s, now) then s
    else s.(lastShotTime := now,
            score := Penalized(s.score),
            bullets := s.bullets + [NewBullet(w, s, now, forward, meshId)])
  }

  /**
   * Two shots less than the cooldown apart put at most one bullet into the
   * list, and once the first has gone off the second changes nothing.
   */
  lemma CooldownAllowsOneShot(w: World, s: GameState, t1: int, t2: int, f1: Vec, f2: Vec, id1: int, id2: int)
    requires t1 <= t2 < t1 + ShotCooldown
    ensures MayShoot(s, t1) ==> Shoot(w, Shoot(w, s, t1, f1, id1), t2, f2, id2) == Shoot(w, s, t1, f1, id1)
    ensures |Shoot(w, Shoot(w, s, t1, f1, id1), t2, f2, id2).bullets| <= |s.bullets| + 1
  {
    var s1 := Shoot(w, s, t1, f1, id1);
    if !MayShoot(s, t1) {
      assert s1 == s;
    } else {
      assert !MayShoot(s1, t2);
    }
  }

  // ----------------------------------------------------------------------
  // Score
  // ----------------------------------------------------------------------

  /** One point decays once a second has passed since the last decay, while there is a point to lose and play goes on. */
  predicate DecayDue(s: GameState, now: int) {
    now - s.lastScoreUpdate >= ScoreTick && s.score > 0 && Playing(s)
  }

  /** The win transition: the flag, and one more win overlay. */
  function GameWon(s: GameState): GameState {
    s.(isGameWon := true, gameWonCount := s.gameWonCount + 1)
  }

  function UpdateScore(s: GameState, now: int): (r: GameState)
    // the score drops by exactly one, and the decay clock restarts, exactly when a decay is due
    ensures DecayDue(s, now) ==> r.score == s.score - 1 && r.lastScoreUpdate == now
    ensures !DecayDue(s, now) ==> r.score == s.score && r.lastScoreUpdate == s.lastScoreUpdate
    ensures s.score >= 0 ==> r.score >= 0
    // the game is won once the score reaches the threshold, and the win fires only once
    ensures r.isGameWon <==> s.isGameWon || r.score >= WinScore
    ensures r.gameWonCount == s.gameWonCount + (if !s.isGameWon && r.score >= WinScore then 1 else 0)
    ensures s.isGameWon ==> r.gameWonCount == s.gameWonCount
    // nothing else changes
    ensures r.(score := s.score, lastScoreUpdate := s.lastScoreUpdate,
               isGameWon := s.isGameWon, gameWonCount := s.gameWonCount) == s
  {
    var decayed := if DecayDue(s, now) then s.(score := Penalized(s.score), lastScoreUpdate := now) else s;
    if decayed.score >= WinScore && !decayed.isGameWon then GameWon(decayed) else decayed
  }

  // ----------------------------------------------------------------------
  // Crashing
  // ----------------------------------------------------------------------

  /** The game-over transition: the flag, a large explosion where the airplane is, one more overlay. */
  function GameOver(s: GameState, now: int): GameState {
    s.(isGameOver := true,
       explosions := s.explosions + [Explosion(s.flight.pos, now, CrashBlastSize)],
       gameOverCount := s.gameOverCount + 1)
  }

  /** The scene's children as the crash test walks them (explosions are skipped by it, and left out here). */
  function SceneChildren(w: World, s: GameState): seq<Obj> {
    w.scenery + [PlaneObj(w, s)] + BulletObjs(s.bullets)
  }

  /**
   * An object the airplane crashes into: not the airplane, the terrain, a
   * cloud or an explosion; a mesh or a group; and its box meets the
   * airplane's (no margin in this test).
   */
  predicate Obstructs(w: World, s: GameState, o: Obj) {
    && o.kind != Airplane && o.kind != Terrain && o.kind != Cloud && o.kind != Blast
    && (o.kind.IsMesh() || o.kind.IsGroup())
    && w.intersects(Box(PlaneObj(w, s), 0.0), Box(o, 0.0))
  }

  predicate Crashed(w: World, s: GameState) {
    s.flight.pos.y < CrashAltitude
    || exists k | 0 <= k < |SceneChildren(w, s)| :: Obstructs(w, s, SceneChildren(w, s)[k])
  }

  function CheckCollisions(w: World, s: GameState, now: int): (r: GameState)
    // outside play nothing happens
    ensures !Playing(s) ==> r == s
    // during play the game ends exactly when the airplane is too low or meets an obstacle
    ensures Playing(s) ==> (r.isGameOver <==> Crashed(w, s))
    ensures Playing(s) && Crashed(w, s) ==> r.gameOverCount == s.gameOverCount + 1
    ensures Playing(s) && Crashed(w, s) ==>
              r.explosions == s.explosions + [Explosion(s.flight.pos, now, CrashBlastSize)]
    // a crash changes only the game-over flag, the explosions and the count; no crash changes nothing
    ensures Playing(s) && Crashed(w, s) ==>
              r.(isGameOver := s.isGameOver, explosions := s.explosions, gameOverCount := s.gameOverCount) == s
    ensures Playing(s) && !Crashed(w, s) ==> r == s
    // the score, the win flag and the bullets are never touched
    ensures r.score == s.score && r.isGameWon == s.isGameWon && r.bullets == s.bullets
    ensures Inv(s) ==> Inv(r)
  {
    if !Playing(s) then s
    else if Crashed(w, s) then GameOver(s, now)
    else s
  }

  // ----------------------------------------------------------------------
  // Restart
  // ----------------------------------------------------------------------

  function Restart(s: GameState): (r: GameState)
    // both flags clear, score zero, level flight at base speed from the start position
    ensures !r.isGameOver && !r.isGameWon && r.score == 0
    ensures r.flight.pitch == 0.0 && r.flight.yaw == 0.0 && r.flight.speed == BaseSpeed && !r.flight.isBoostActive
    ensures r.flight.pos == StartPosition
    // no bullets and no explosions
    ensures r.bullets == [] && r.explosions == []
    // the shot and decay clocks, the pointer lock and the overlay counts are kept
    ensures r.lastShotTime == s.lastShotTime && r.lastScoreUpdate == s.lastScoreUpdate
    ensures r.isPointerLocked == s.isPointerLocked
    ensures r.gameOverCount == s.gameOverCount && r.gameWonCount == s.gameWonCount
    ensures Inv(r) && Playing(r)
  {
    s.(isGameOver := false, isGameWon := false, flight := Takeoff,
       bullets := [], explosions := [], score := 0)
  }

  // ----------------------------------------------------------------------
  // Mouse
  // ----------------------------------------------------------------------

  function Clamp(lo: real, hi: real, v: real): (r: real)
    requires lo <= hi
    ensures lo <= r <= hi
    ensures lo <= v <= hi ==> r == v
    ensures v > hi ==> r == hi
    ensures v < lo ==> r == lo
  {
    if v > hi then hi else if v < lo then lo else v
  }

  /** Looking around: yaw and pitch follow the mouse, pitch kept within a quarter turn either way. */
  function MouseMove(s: GameState, dx: real, dy: real): (r: GameState)
    ensures !s.isPointerLocked ==> r == s
    ensures s.isPointerLocked ==> -HalfPi <= r.flight.pitch <= HalfPi
    ensures s.isPointerLocked ==> r.flight.yaw == s.flight.yaw - dx * MouseSensitivity
    ensures s.isPointerLocked && -HalfPi <= s.flight.pitch - dy * MouseSensitivity <= HalfPi ==>
              r.flight.pitch == s.flight.pitch - dy * MouseSensitivity
    ensures s.isPointerLocked ==> r.flight.pitch == Clamp(-HalfPi, HalfPi, s.flight.pitch - dy * MouseSensitivity)
    ensures r.flight.(pitch := s.flight.pitch, yaw := s.flight.yaw) == s.flight
    ensures r.(flight := s.flight) == s
  {
    if !s.isPointerLocked then s
    else s.(flight := s.flight.(yaw := s.flight.yaw - dx * MouseSensitivity,
                                pitch := Clamp(-HalfPi, HalfPi, s.flight.pitch - dy * MouseSensitivity)))
  }

  /** Left button shoots; right button engages the afterburner. Both need the pointer lock. */
  function MouseDown(w: World, s: GameState, button: int, now: int, forward: Vec, meshId: int): (r: GameState)
    ensures !s.isPointerLocked ==> r == s
    ensures button == LeftButton ==> r == Shoot(w, s, now, forward, meshId)
    ensures s.isPointerLocked && button == RightButton ==>
              r.flight.isBoostActive && r.flight.speed == BoostFactor * BaseSpeed
    ensures button != LeftButton ==> r.flight.(speed := s.flight.speed, isBoostActive := s.flight.isBoostActive) == s.flight
    ensures button != LeftButton ==> r.(flight := s.flight) == s
    ensures button != LeftButton && button != RightButton ==> r == s
    ensures Inv(s) ==> Inv(r)
  {
    if !s.isPointerLocked then s
    else if button == LeftButton then Shoot(w, s, now, forward, meshId)
    else if button == RightButton then s.(flight := s.flight.(isBoostActive := true, speed := BaseSpeed * BoostFactor))
    else s
  }

  /** Releasing the right button drops back to base speed, with or without the pointer lock. */
  function MouseUp(s: GameState, button: int): (r: GameState)
    ensures button == RightButton ==> !r.flight.isBoostActive && r.flight.speed == BaseSpeed
    ensures button != RightButton ==> r == s
    ensures r.flight.(speed := s.flight.speed, isBoostActive := s.flight.isBoostActive) == s.flight
    ensures r.(flight := s.flight) == s
  {
    if button == RightButton then s.(flight := s.flight.(isBoostActive := false, speed := BaseSpeed)) else s
  }

  // ----------------------------------------------------------------------
  // One animation frame
  // ----------------------------------------------------------------------

  function ArenaOf(w: World, s: GameState, now: int): Arena {
    Arena(HitTest(w.scenery + [PlaneObj(w, s)], w.intersects), now)
  }

  /** The bullet pass of `Lifetimes`, applied to the state's lists. */
  function UpdateBullets(w: World, s: GameState, now: int): (r: GameState)
    ensures r.(bullets := s.bullets, explosions := s.explosions) == s
    ensures forall b :: b in r.bullets ==> b.pos.y > 0.0 && now - b.timeCreated <= BulletLifetime
    // the old explosions stay in front, and one is added per hit and per ground contact
    ensures |r.explosions| == |s.explosions| + Bursts(ArenaOf(w, s, now), Frame(s.bullets, s.explosions), 0)
    ensures r.explosions[..|s.explosions|] == s.explosions
    // the survivors are the moved bullets whose flag is set, in their original order
    ensures r.bullets == Select(AdvancedAll(s.bullets), KeptMask(ArenaOf(w, s, now), Frame(s.bullets, s.explosions), 0))
  {
    var f := Run(ArenaOf(w, s, now), Frame(s.bullets, s.explosions), 0);
    SurvivorsAirborneAndYoung(ArenaOf(w, s, now), Frame(s.bullets, s.explosions));
    RunExplosionCount(ArenaOf(w, s, now), Frame(s.bullets, s.explosions), 0);
    UpdateBulletsOutcome(ArenaOf(w, s, now), Frame(s.bullets, s.explosions));
    s.(bullets := f.bullets, explosions := f.explosions)
  }

  function UpdateExplosions(s: GameState, now: int): (r: GameState)
    ensures forall e :: e in r.explosions <==> e in s.explosions && Lingers(e, now)
    ensures r.explosions == Select(s.explosions, LingerMask(s.explosions, now))
    ensures r.(explosions := s.explosions) == s
  {
    LiveIsSelect(s.explosions, now);
    s.(explosions := Live(s.explosions, now))
  }

  /**
   * One frame. After the game has ended only the explosions age; during
   * play the score is updated first, then the crash test, then the
   * bullets, then the explosions.
   */
  function Animate(w: World, s: GameState, now: int): (r: GameState)
    // a finished game is frozen: only explosions fade
    ensures !Playing(s) ==> r == s.(explosions := Live(s.explosions, now))
    ensures Inv(s) ==> Inv(r)
    // one frame ends the game at most once, and a finished game stays finished
    ensures Terminations(s) <= Terminations(r) <= Terminations(s) + 1
    ensures Terminations(r) == Terminations(s) + 1 ==> Playing(s) && !Playing(r)
    ensures !Playing(s) ==> !Playing(r) && Terminations(r) == Terminations(s)
  {
    if !Playing(s) then UpdateExplosions(s, now)
    else
      var scored := UpdateScore(s, now);
      var checked := CheckCollisions(w, scored, now);
      var shot := UpdateBullets(w, checked, now);
      UpdateExplosions(shot, now)
  }

  // ----------------------------------------------------------------------
  // Runs of input events
  // ----------------------------------------------------------------------

  datatype Event =
    | MouseMoved(dx: real, dy: real)
    | MousePressed(button: int, at: int, forward: Vec, meshId: int)
    | MouseReleased(button: int)
    | PointerLockChanged(locked: bool)
    | FrameTick(at: int)
    | RestartClicked

  function Apply(w: World, s: GameState, e: Event): (r: GameState)
    ensures Inv(s) ==> Inv(r)
    ensures !e.RestartClicked? ==> Terminations(s) <= Terminations(r) <= Terminations(s) + 1
    ensures !e.RestartClicked? && Terminations(r) == Terminations(s) + 1 ==> !Playing(r)
    ensures !e.RestartClicked? && !Playing(s) ==> !Playing(r) && Terminations(r) == Terminations(s)
  {
    match e
    case MouseMoved(dx, dy) => MouseMove(s, dx, dy)
    case MousePressed(button, at, forward, meshId) => MouseDown(w, s, button, at, forward, meshId)
    case MouseReleased(button) => MouseUp(s, button)
    case PointerLockChanged(locked) => s.(isPointerLocked := locked)
    case FrameTick(at) => Animate(w, s, at)
    case RestartClicked => Restart(s)
  }

  function Play(w: World, s: GameState, events: seq<Event>): GameState
    decreases |events|
  {
    if events == [] then s else Play(w, Apply(w, s, events[0]), events[1..])
  }

  /** After any sequence of events the score is still not negative and the game is not both lost and won. */
  lemma {:induction false} InvAlways(w: World, s: GameState, events: seq<Event>)
    requires Inv(s)
    ensures Inv(Play(w, s, events))
    decreases |events|
  {
    if events != [] {
      InvAlways(w, Apply(w, s, events[0]), events[1..]);
    }
  }

  /**
   * No event raises the score: shots and decay only lower it, never below
   * zero, and the only bonus (a bullet hitting a cat) is never tested.
   * A state with no points and no win therefore keeps both.
   */
  lemma ScoreStaysZero(w: World, s: GameState, e: Event)
    requires s.score == 0 && !s.isGameWon
    ensures var r := Apply(w, s, e); r.score == 0 && !r.isGameWon && r.gameWonCount == s.gameWonCount
  {
    match e
    case FrameTick(at) =>
      if Playing(s) {
        var scored := UpdateScore(s, at);
        assert scored.score == 0 && !scored.isGameWon && scored.gameWonCount == s.gameWonCount;
      }
    case _ =>
  }

  /**
   * From a state with no points and no win, no sequence of events ever wins
   * the game: the win at 120 points is unreachable.
   */
  lemma {:induction false} NeverWon(w: World, s: GameState, events: seq<Event>)
    requires s.score == 0 && !s.isGameWon
    ensures var r := Play(w, s, events); r.score == 0 && !r.isGameWon && r.gameWonCount == s.gameWonCount
    decreases |events|
  {
    if events != [] {
      ScoreStaysZero(w, s, events[0]);
      NeverWon(w, Apply(w, s, events[0]), events[1..]);
    }
  }

  /**
   * Between two restarts the game ends at most once: the game-over and win
   * transitions together run at most once from a state in play, and never
   * from a finished one, which stays finished.
   */
  lemma {:induction false} GameEndsOnce(w: World, s: GameState, events: seq<Event>)
    requires forall k :: 0 <= k < |events| ==> !events[k].RestartClicked?
    ensures Terminations(s) <= Terminations(Play(w, s, events)) <= Terminations(s) + (if Playing(s) then 1 else 0)
    ensures !Playing(s) ==> !Playing(Play(w, s, events))
    decreases |events|
  {
    if events != [] {
      var next := Apply(w, s, events[0]);
      assert !events[0].RestartClicked?;
      GameEndsOnce(w, next, events[1..]);
    }
  }
}
