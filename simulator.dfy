/**
 * The flight simulator's game state as an object whose methods update it in
 * place, as the browser game does on every mouse event and animation frame.
 * Every method is proved to leave exactly the state that the function of
 * the same name in `Rules` computes from the state it found, so the
 * properties proved about `Rules` (score never negative, the game ends at
 * most once between restarts, frozen after the end) hold of the object.
 */
module Simulator {
  import opened Entities
  import opened Collision
  import opened Lifetimes
  import Rules

  class FlightSimulator {
    /** The scene children other than the airplane, bullets and explosions; the rules never move them. */
    const scenery: seq<Obj>
    const planeId: int
    /** The box test of the graphics library. */
    const intersects: (Box, Box) -> bool

    var score: int
    var lastShotTime: int
    var lastScoreUpdate: int
    var isGameOver: bool
    var isGameWon: bool
    var isPointerLocked: bool
    /** The airplane's position, pitch, yaw, speed and afterburner state. */
    var flight: Rules.Flight
    var bullets: seq<Bullet>
    var explosions: seq<Explosion>
    /** How many game-over and win overlays have been put up. */
    var gameOverCount: nat
    var gameWonCount: nat

    function State(): Rules.GameState
      reads this
    {
      Rules.GameState(score, lastShotTime, lastScoreUpdate, isGameOver, isGameWon, isPointerLocked,
                      flight, bullets, explosions, gameOverCount, gameWonCount)
    }

    function World(): Rules.World {
      Rules.World(scenery, planeId, intersects)
    }

    function PlaneObj(): Obj
      reads this
    {
      Rules.PlaneObj(World(), State())
    }

    constructor (now: int, scenery: seq<Obj>, planeId: int, intersects: (Box, Box) -> bool)
      ensures State() == Rules.Initial(now)
      ensures World() == Rules.World(scenery, planeId, intersects)
    {
      this.scenery := scenery;
      this.planeId := planeId;
      this.intersects := intersects;
      score := 0;
      lastShotTime := 0;
      lastScoreUpdate := now;
      isGameOver := false;
      isGameWon := false;
      isPointerLocked := false;
      flight := Rules.Takeoff;
      bullets := [];
      explosions := [];
      gameOverCount := 0;
      gameWonCount := 0;
    }

    /** Fires a bullet along `forward` (the airplane's unit heading); `meshId` is the new bullet's object id. */
    method Shoot(now: int, forward: Vec, meshId: int)
      modifies this`lastShotTime, this`score, this`bullets
      ensures State() == Rules.Shoot(World(), old(State()), now, forward, meshId)
    {
      if !isPointerLocked || isGameOver || isGameWon {
        return;
      }
      if now - lastShotTime < ShotCooldown {
        return;
      }
      lastShotTime := now;
      score := Penalized(score);
      var bullet := Bullet(meshId, flight.pos.Plus(forward.Scale(MuzzleOffset)),
                           forward.Scale(BulletSpeed), now, planeId);
      bullets := bullets + [bullet];
    }

    method GameWon()
      modifies this`isGameWon, this`gameWonCount
      ensures State() == Rules.GameWon(old(State()))
    {
      isGameWon := true;
      gameWonCount := gameWonCount + 1;
    }

    method UpdateScore(now: int)
      modifies this`score, this`lastScoreUpdate, this`isGameWon, this`gameWonCount
      ensures State() == Rules.UpdateScore(old(State()), now)
    {
      if now - lastScoreUpdate >= ScoreTick && score > 0 && !isGameOver && !isGameWon {
        score := Penalized(score);
        lastScoreUpdate := now;
      }
      if score >= WinScore && !isGameWon {
        GameWon();
      }
    }

    method GameOver(now: int)
      modifies this`isGameOver, this`explosions, this`gameOverCount
      ensures State() == Rules.GameOver(old(State()), now)
    {
      isGameOver := true;
      explosions := explosions + [Explosion(flight.pos, now, CrashBlastSize)];
      gameOverCount := gameOverCount + 1;
    }

    /** The crash test: too low, or the airplane's box meets an obstacle's. */
    method CheckCollisions(now: int)
      modifies this`isGameOver, this`explosions, this`gameOverCount
      ensures State() == Rules.CheckCollisions(World(), old(State()), now)
    {
      if isGameOver || isGameWon {
        return;
      }
      var airplane := PlaneObj();
      if flight.pos.y < CrashAltitude {
        GameOver(now);
        return;
      }
      var children := scenery + [airplane] + BulletObjs(bullets);
      assert children == Rules.SceneChildren(World(), State());
      var k := 0;
      while k < |children|
        invariant 0 <= k <= |children|
        invariant State() == old(State())
        invariant forall j :: 0 <= j < k ==> !Rules.Obstructs(World(), State(), children[j])
      {
        var obj := children[k];
        if obj.kind != Airplane && obj.kind != Terrain && obj.kind != Cloud && obj.kind != Blast {
          if obj.kind.IsMesh() || obj.kind.IsGroup() {
            if intersects(Box(airplane, 0.0), Box(obj, 0.0)) {
              assert Rules.Obstructs(World(), State(), children[k]);
              GameOver(now);
              return;
            }
          }
        }
        k := k + 1;
      }
    }

    /** The pairwise test; hitting a cat with a bullet also scores. */
    method CheckCollision(object1: Obj, object2: Obj) returns (hit: bool)
      modifies this`score
      ensures hit == Dispatch(object1, object2, planeId, intersects).Collides()
      ensures score == old(score) + Dispatch(object1, object2, planeId, intersects).Bonus()
    {
      if object1.kind == Projectile || object2.kind == Projectile {
        var bulletFirst := object1.kind == Projectile;
        var bullet := if bulletFirst then object1 else object2;
        var otherObject := if bulletFirst then object2 else object1;
        if otherObject.kind == Airplane && bullet.shooterId == planeId {
          return false;
        }
      }
      if object1.kind.IsInert() || object2.kind.IsInert() {
        return false;
      }
      if object1.kind == Airplane || object2.kind == Airplane {
        var margin1 := if object1.kind == Airplane then PlaneMargin else 0.0;
        var margin2 := if object1.kind == Airplane then 0.0 else PlaneMargin;
        return intersects(Box(object1, margin1), Box(object2, margin2));
      }
      if object1.kind == Projectile && object2.kind == Cat {
        score := score + CatBonus;
        return true;
      }
      if object2.kind == Projectile && object1.kind == Cat {
        score := score + CatBonus;
        return true;
      }
      return intersects(Box(object1, 0.0), Box(object2, 0.0));
    }

    /**
     * The scan of the bullet update: the bullet is tested, with the pairwise
     * test, against every single mesh of the scene other than the terrain,
     * until the first hit.
     */
    method HitsAny(bullet: Bullet, scene: seq<Obj>) returns (hasCollision: bool)
      modifies this`score
      ensures hasCollision == HitsScene(intersects, bullet, scene)
      ensures score == old(score)
    {
      hasCollision := false;
      var j := 0;
      while j < |scene| && !hasCollision
        invariant 0 <= j <= |scene|
        invariant hasCollision <==> exists k | 0 <= k < j :: Strikes(intersects, bullet, scene[k])
        invariant score == old(score)
      {
        var obj := scene[j];
        if obj.kind.IsMesh() && obj.kind != Terrain {
          var hit := CheckCollision(bullet.AsObj(), obj);
          BulletAgainstMeshNeverScores(bullet.AsObj(), obj, planeId, intersects);
          if hit {
            hasCollision := true;
          }
        }
        j := j + 1;
      }
    }

    /**
     * One turn of the bullet update, on the bullet at index `i`: it moves
     * by its velocity, is tested against the scene, leaves an explosion for
     * a hit and another for touching the ground, and is spliced out if it
     * hit, touched the ground or is too old.
     */
    method UpdateBullet(bs: seq<Bullet>, es: seq<Explosion>, i: nat, now: int, ghost a: Arena)
      returns (bs': seq<Bullet>, es': seq<Explosion>)
      requires i < |bs|
      requires a == Arena(HitTest(scenery + [PlaneObj()], intersects), now)
      modifies this`score
      ensures Frame(bs', es') == Step(a, Frame(bs, es), i)
      ensures score == old(score)
    {
      bs', es' := bs, es;
      var bullet := bs'[i].Advanced();
      bs' := bs'[i := bullet];
      var scene := scenery + [PlaneObj()] + BulletObjs(bs'[..i]) + BulletObjs(bs'[i + 1..]);
      SceneAtIgnoresSelf(scenery + [PlaneObj()], bs, i, bullet);
      var hasCollision := HitsAny(bullet, scene);
      ghost var hit := hasCollision;
      assert hit == a.hits(bullet, bs, i);
      if hasCollision {
        es' := es' + [Explosion(bullet.pos, now, ImpactBlastSize)];
      }
      if bullet.pos.y <= 0.0 {
        hasCollision := true;
        es' := es' + [Explosion(bullet.pos, now, ImpactBlastSize)];
      }
      if hasCollision || now - bullet.timeCreated > BulletLifetime {
        bs' := bs'[..i] + bs'[i + 1..];
      }
      StepInPlace(a, Frame(bs, es), i, hit, hasCollision || now - bullet.timeCreated > BulletLifetime, bs', es');
    }

    /**
     * Moves every bullet one step, from the last to the first, removing the
     * ones that hit a mesh, reach the ground or grow too old, and leaving an
     * explosion for each hit and each ground contact.
     */
    method UpdateBullets(now: int)
      modifies this`bullets, this`explosions, this`score
      ensures State() == Rules.UpdateBullets(World(), old(State()), now)
    {
      ghost var a := Rules.ArenaOf(World(), State(), now);
      ghost var f0 := Frame(bullets, explosions);
      var live := bullets;
      var bursts := explosions;
      var i := |live| - 1;
      while i >= 0
        invariant -1 <= i < |f0.bullets|
        invariant Frame(live, bursts) == Run(a, f0, i + 1)
        invariant score == old(score)
        decreases i
      {
        live, bursts := UpdateBullet(live, bursts, i, now, a);
        RunNext(a, f0, i);
        i := i - 1;
      }
      assert Frame(live, bursts) == Run(a, f0, 0);
      bullets := live;
      explosions := bursts;
    }

    /** Removes the explosions older than their lifetime, from the last to the first. */
    method UpdateExplosions(now: int)
      modifies this`explosions
      ensures State() == Rules.UpdateExplosions(old(State()), now)
    {
      ghost var e0 := explosions;
      var live := explosions;
      var i := |live| - 1;
      while i >= 0
        invariant -1 <= i < |e0|
        invariant live == e0[..i + 1] + Live(e0[i + 1..], now)
        decreases i
      {
        AgeInPlace(e0, live, i, now);
        var age := now - live[i].createdAt;
        if age > ExplosionLifetime {
          live := live[..i] + live[i + 1..];
        }
        i := i - 1;
      }
      assert e0[0..] == e0;
      explosions := live;
    }

    method RestartGame()
      modifies this
      ensures State() == Rules.Restart(old(State()))
    {
      isGameOver := false;
      isGameWon := false;
      flight := Rules.Takeoff;
      bullets := [];
      explosions := [];
      score := 0;
    }

    method OnPointerLockChange(locked: bool)
      modifies this`isPointerLocked
      ensures State() == old(State()).(isPointerLocked := locked)
    {
      isPointerLocked := locked;
    }

    method OnMouseMove(movementX: real, movementY: real)
      modifies this`flight
      ensures State() == Rules.MouseMove(old(State()), movementX, movementY)
    {
      if !isPointerLocked {
        return;
      }
      var pitch := flight.pitch - movementY * MouseSensitivity;
      pitch := Rules.Clamp(-HalfPi, HalfPi, pitch);
      flight := flight.(yaw := flight.yaw - movementX * MouseSensitivity, pitch := pitch);
    }

    method OnMouseDown(button: int, now: int, forward: Vec, meshId: int)
      modifies this`lastShotTime, this`score, this`bullets, this`flight
      ensures State() == Rules.MouseDown(World(), old(State()), button, now, forward, meshId)
    {
      if !isPointerLocked {
        return;
      }
      if button == LeftButton {
        Shoot(now, forward, meshId);
      } else if button == RightButton {
        flight := flight.(isBoostActive := true, speed := BaseSpeed * BoostFactor);
      }
    }

    method OnMouseUp(button: int)
      modifies this`flight
      ensures State() == Rules.MouseUp(old(State()), button)
    {
      if button == RightButton {
        flight := flight.(isBoostActive := false, speed := BaseSpeed);
      }
    }

    /** One animation frame. */
    method Animate(now: int)
      modifies this
      ensures State() == Rules.Animate(World(), old(State()), now)
    {
      if isGameOver || isGameWon {
        UpdateExplosions(now);
        return;
      }
      UpdateScore(now);
      CheckCollisions(now);
      UpdateBullets(now);
      UpdateExplosions(now);
    }
  }
}
