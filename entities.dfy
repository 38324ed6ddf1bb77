/**
 * The values the flight simulator's game rules work on: the rule constants,
 * positions, the kinds of object that live in the scene, bullets and
 * explosions. Geometry is reduced to what the rules look at: a position,
 * and an abstract box test supplied from outside (see `Box`).
 */
module Entities {

  /** Minimum time between two shots, in milliseconds. */
  const ShotCooldown: int := 100
  /** A bullet older than this (milliseconds) is removed. */
  const BulletLifetime: int := 2000
  /** An explosion older than this (milliseconds) is removed. */
  const ExplosionLifetime: int := 1000
  /** The score decays by one point per this many milliseconds. */
  const ScoreTick: int := 1000
  /** Reaching this score wins the game. */
  const WinScore: int := 120
  /** Points for hitting a flying cat. */
  const CatBonus: int := 12
  /** Extra size added on every side of the airplane's box in a pairwise test. */
  const PlaneMargin: real := 2.0
  /** Flying lower than this is a crash. */
  const CrashAltitude: real := 10.0
  const BaseSpeed: real := 2.0
  const BoostFactor: real := 3.0
  /** A new bullet appears this far ahead of the airplane ... */
  const MuzzleOffset: real := 15.0
  /** ... and moves this far along the airplane's heading every frame. */
  const BulletSpeed: real := 20.0
  const MouseSensitivity: real := 0.005
  /** The pitch bound: the shortest decimal that rounds to the double nearest pi / 2. */
  const HalfPi: real := 1.5707963267948966
  /** Size of the explosion left by a crash; bullet impacts use size 1. */
  const CrashBlastSize: real := 3.0
  const ImpactBlastSize: real := 1.0

  const LeftButton: int := 0
  const RightButton: int := 2

  datatype Vec = Vec(x: real, y: real, z: real)
  {
    function Plus(v: Vec): Vec { Vec(x + v.x, y + v.y, z + v.z) }
    function Scale(k: real): Vec { Vec(k * x, k * y, k * z) }
  }

  /** Where the airplane starts, and where a restart puts it. */
  const StartPosition: Vec := Vec(0.0, 500.0, 0.0)

  /**
   * Every kind of object the scene holds. The rules tell them apart by
   * list membership and identity; the model uses this tag instead.
   * `Afterburner` is the glow mesh attached to the airplane: it is never a
   * direct child of the scene, but the pairwise test still names it.
   */
  datatype Kind =
    | Terrain | Tree | Mountain | Building | Lake | Sun | Light
    | Cloud | Cat | Airplane | Afterburner | Projectile | Blast
  {
    /** The object is a single mesh (as opposed to a group or a point cloud). */
    predicate IsMesh() {
      match this
      case Terrain | Mountain | Building | Lake | Sun | Cloud | Afterburner | Projectile => true
      case Tree | Light | Cat | Airplane | Blast => false
    }

    /** The object is a group of meshes: trees, cats and the airplane. */
    predicate IsGroup() {
      Tree? || Cat? || Airplane?
    }

    /** Clouds, explosions and the afterburner glow never take part in a collision. */
    predicate IsInert() {
      Cloud? || Blast? || Afterburner?
    }
  }

  /** A scene object as the collision rules see it; `shooterId` matters for bullets only. */
  datatype Obj = Obj(id: int, kind: Kind, pos: Vec, shooterId: int)

  /** The bounding box of an object, grown by `margin` on every side. */
  datatype Box = Box(of: Obj, margin: real)

  datatype Bullet = Bullet(id: int, pos: Vec, velocity: Vec, timeCreated: int, shooterId: int)
  {
    function AsObj(): (o: Obj)
      ensures o.kind == Projectile && o.pos == pos && o.shooterId == shooterId
    {
      Obj(id, Projectile, pos, shooterId)
    }

    /** The bullet one frame later: moved by its velocity, otherwise unchanged. */
    function Advanced(): Bullet {
      this.(pos := pos.Plus(velocity))
    }
  }

  /** A particle burst, remembered by where and when it appeared and its size. */
  datatype Explosion = Explosion(pos: Vec, createdAt: int, size: real)

  /** The scene objects that stand for the given bullets, in the same order. */
  function BulletObjs(bs: seq<Bullet>): (os: seq<Obj>)
    ensures |os| == |bs|
    ensures forall k :: 0 <= k < |bs| ==> os[k] == bs[k].AsObj()
  {
    if bs == [] then [] else [bs[0].AsObj()] + BulletObjs(bs[1..])
  }

  /** `Math.max(0, score - 1)`: the one-point loss of a shot and of the score decay, never below zero. */
  function Penalized(score: int): (r: int)
    ensures r >= 0
    ensures score >= 1 ==> r == score - 1
    ensures score < 1 ==> r == 0
  {
    if score - 1 > 0 then score - 1 else 0
  }
}
