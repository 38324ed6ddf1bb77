/**
 * The decision logic of the simulator's pairwise collision test. The test
 * looks at its two objects in a fixed order of branches; `Dispatch` returns
 * the branch that decided, so that the lemmas and the simulator can tell a
 * cat hit (which also scores) from a plain box overlap.
 */
module Collision {
  import opened Entities

  datatype Verdict =
    | SelfShot             // a bullet against the airplane that fired it
    | Inert                // a cloud, an explosion or the afterburner glow is involved
    | PlaneBoxes(hit: bool) // the airplane is involved: its box is grown by the margin
    | CatHit               // a bullet against a cat: always a hit, and it scores
    | Boxes(hit: bool)      // any other pair: plain box overlap
  {
    /** The boolean the pairwise test returns. */
    predicate Collides() {
      match this
      case SelfShot | Inert => false
      case CatHit => true
      case PlaneBoxes(h) => h
      case Boxes(h) => h
    }

    /** The points the pairwise test adds to the score. */
    function Bonus(): int {
      if CatHit? then CatBonus else 0
    }
  }

  /**
   * The bullet of the pair is the first object if it is a bullet, else the
   * second if that one is; the exemption applies when the other object is
   * the airplane and the bullet records the airplane as its shooter.
   */
  predicate ShotByPlane(o1: Obj, o2: Obj, planeId: int) {
    if o1.kind == Projectile then o2.kind == Airplane && o1.shooterId == planeId
    else o2.kind == Projectile && o1.kind == Airplane && o2.shooterId == planeId
  }

  function Dispatch(o1: Obj, o2: Obj, planeId: int, intersects: (Box, Box) -> bool): (v: Verdict)
    // a bullet never collides with the airplane that fired it, whichever argument it is
    ensures (o1.kind == Projectile && o2.kind == Airplane && o1.shooterId == planeId) ==> !v.Collides()
    ensures (o2.kind == Projectile && o1.kind == Airplane && o2.shooterId == planeId) ==> !v.Collides()
    // clouds, explosions and the afterburner glow never collide
    ensures o1.kind.IsInert() || o2.kind.IsInert() ==> !v.Collides()
    // the cat branch is taken exactly for a bullet and a cat, and then hits whatever the boxes
    ensures v.CatHit? <==> ((o1.kind == Projectile && o2.kind == Cat) || (o2.kind == Projectile && o1.kind == Cat))
    ensures v.CatHit? ==> v.Collides() && v.Bonus() == CatBonus
    ensures !v.CatHit? ==> v.Bonus() == 0
    // the airplane is tested with its box grown by the margin
    ensures o1.kind == Airplane && !o2.kind.IsInert() && !(o2.kind == Projectile && o2.shooterId == planeId) ==>
              v == PlaneBoxes(intersects(Box(o1, PlaneMargin), Box(o2, 0.0)))
    ensures o2.kind == Airplane && o1.kind != Airplane && !o1.kind.IsInert() && !(o1.kind == Projectile && o1.shooterId == planeId) ==>
              v == PlaneBoxes(intersects(Box(o1, 0.0), Box(o2, PlaneMargin)))
    // every other collision is a plain box overlap
    ensures v.Collides() && !v.CatHit? && o1.kind != Airplane && o2.kind != Airplane ==>
              intersects(Box(o1, 0.0), Box(o2, 0.0))
    // and every other pair collides exactly when the plain boxes meet
    ensures !ShotByPlane(o1, o2, planeId) && !o1.kind.IsInert() && !o2.kind.IsInert()
            && o1.kind != Airplane && o2.kind != Airplane && !v.CatHit? ==>
              v == Boxes(intersects(Box(o1, 0.0), Box(o2, 0.0)))
  {
    if ShotByPlane(o1, o2, planeId) then SelfShot
    else if o1.kind.IsInert() || o2.kind.IsInert() then Inert
    else if o1.kind == Airplane then PlaneBoxes(intersects(Box(o1, PlaneMargin), Box(o2, 0.0)))
    else if o2.kind == Airplane then PlaneBoxes(intersects(Box(o1, 0.0), Box(o2, PlaneMargin)))
    else if o1.kind == Projectile && o2.kind == Cat then CatHit
    else if o2.kind == Projectile && o1.kind == Cat then CatHit
    else Boxes(intersects(Box(o1, 0.0), Box(o2, 0.0)))
  }

  /**
   * With a symmetric box test, the pairwise test gives the same answer
   * whichever way round the two objects are passed (only two airplanes,
   * which never meet, would break this: the margin goes on the first).
   */
  lemma DispatchSymmetric(o1: Obj, o2: Obj, planeId: int, intersects: (Box, Box) -> bool)
    requires forall b1, b2 :: intersects(b1, b2) == intersects(b2, b1)
    requires !(o1.kind == Airplane && o2.kind == Airplane)
    ensures Dispatch(o1, o2, planeId, intersects).Collides() == Dispatch(o2, o1, planeId, intersects).Collides()
    ensures Dispatch(o1, o2, planeId, intersects).Bonus() == Dispatch(o2, o1, planeId, intersects).Bonus()
  {
    if !ShotByPlane(o1, o2, planeId) && !o1.kind.IsInert() && !o2.kind.IsInert() {
      if o1.kind == Airplane {
        assert intersects(Box(o1, PlaneMargin), Box(o2, 0.0)) == intersects(Box(o2, 0.0), Box(o1, PlaneMargin));
      } else if o2.kind == Airplane {
        assert intersects(Box(o1, 0.0), Box(o2, PlaneMargin)) == intersects(Box(o2, PlaneMargin), Box(o1, 0.0));
      } else {
        assert intersects(Box(o1, 0.0), Box(o2, 0.0)) == intersects(Box(o2, 0.0), Box(o1, 0.0));
      }
    }
  }

  /**
   * A bullet tested against a single mesh, as the bullet update does, can
   * never reach the cat branch (cats are groups) nor the shooter exemption
   * (the airplane is a group): such a test never changes the score.
   */
  lemma BulletAgainstMeshNeverScores(b: Obj, o: Obj, planeId: int, intersects: (Box, Box) -> bool)
    requires b.kind == Projectile && o.kind.IsMesh()
    ensures Dispatch(b, o, planeId, intersects).Bonus() == 0
    ensures Dispatch(b, o, planeId, intersects).Collides() ==
              (!o.kind.IsInert() && intersects(Box(b, 0.0), Box(o, 0.0)))
  {
  }
}
