/**
 * The two per-frame list passes of the simulator: explosions age out, and
 * every bullet advances, is tested against the scene and is removed when it
 * hit something, reached the ground or lived too long. Both passes walk
 * their list from the last index down to the first, removing in place; the
 * functions here state the result of such a walk, and the lemmas say what
 * that result is in terms of the input list.
 */
module Lifetimes {
  import opened Entities

  /** `a` is `b` with some elements left out, the rest in their original order. */
  predicate IsSubseq<T(==)>(a: seq<T>, b: seq<T>)
    decreases |b|
  {
    if a == [] then true
    else if b == [] then false
    else (a[0] == b[0] && IsSubseq(a[1..], b[1..])) || IsSubseq(a, b[1..])
  }

  /** The elements of `s` whose flag in `keep` is set, in order. */
  function Select<T>(s: seq<T>, keep: seq<bool>): (r: seq<T>)
    requires |keep| == |s|
    ensures |r| <= |s|
  {
    if s == [] then [] else (if keep[0] then [s[0]] else []) + Select(s[1..], keep[1..])
  }

  lemma {:induction false} SelectIsSubseq<T>(s: seq<T>, keep: seq<bool>)
    requires |keep| == |s|
    ensures IsSubseq(Select(s, keep), s)
  {
    if s != [] {
      SelectIsSubseq(s[1..], keep[1..]);
      var rest := Select(s[1..], keep[1..]);
      if keep[0] {
        assert Select(s, keep) == [s[0]] + rest;
        assert ([s[0]] + rest)[1..] == rest;
      } else {
        assert Select(s, keep) == rest;
      }
    }
  }

  lemma {:induction false} SelectMember<T>(s: seq<T>, keep: seq<bool>, x: T)
    requires |keep| == |s|
    requires x in Select(s, keep)
    ensures exists k :: 0 <= k < |s| && keep[k] && s[k] == x
  {
    var rest := Select(s[1..], keep[1..]);
    if keep[0] && x == s[0] {
      assert keep[0] && s[0] == x;
    } else {
      assert x in rest;
      SelectMember(s[1..], keep[1..], x);
      var k :| 0 <= k < |s| - 1 && keep[1..][k] && s[1..][k] == x;
      assert keep[k + 1] && s[k + 1] == x;
    }
  }

  // ----------------------------------------------------------------------
  // Explosions
  // ----------------------------------------------------------------------

  /** An explosion stays while it is at most `ExplosionLifetime` ms old. */
  predicate Lingers(e: Explosion, now: int) {
    now - e.createdAt <= ExplosionLifetime
  }

  /** The explosions left after ageing at time `now`. */
  function Live(es: seq<Explosion>, now: int): (r: seq<Explosion>)
    ensures |r| <= |es|
    ensures forall e :: e in r <==> e in es && Lingers(e, now)
  {
    if es == [] then []
    else
      assert es == [es[0]] + es[1..];
      (if Lingers(es[0], now) then [es[0]] else []) + Live(es[1..], now)
  }

  /**
   * One turn of the ageing walk from the last index down, done in place:
   * when the walk has reached index `i`, `live` holds the untouched prefix
   * up to `i` followed by the aged rest, and dropping or keeping entry `i`
   * extends the aged part by one.
   */
  lemma AgeInPlace(e0: seq<Explosion>, live: seq<Explosion>, i: nat, now: int)
    requires i < |e0| && live == e0[..i + 1] + Live(e0[i + 1..], now)
    ensures live[i] == e0[i]
    ensures (if Lingers(e0[i], now) then live else live[..i] + live[i + 1..]) == e0[..i] + Live(e0[i..], now)
  {
    var rest := Live(e0[i + 1..], now);
    assert e0[i..][1..] == e0[i + 1..];
    assert Live(e0[i..], now) == (if Lingers(e0[i], now) then [e0[i]] else []) + rest;
    assert e0[..i + 1] == e0[..i] + [e0[i]];
    if Lingers(e0[i], now) {
      assert live == e0[..i] + ([e0[i]] + rest);
    } else {
      assert live[..i] == e0[..i];
      assert live[i + 1..] == rest;
    }
  }

  /** For each explosion of `es`, whether it is still young enough at `now`. */
  function LingerMask(es: seq<Explosion>, now: int): (m: seq<bool>)
    ensures |m| == |es|
  {
    seq(|es|, k requires 0 <= k < |es| => Lingers(es[k], now))
  }

  /**
   * Ageing keeps exactly the entries that linger, position by position, so
   * equal explosions survive or go together and keep their number.
   */
  lemma {:induction false} LiveIsSelect(es: seq<Explosion>, now: int)
    ensures Live(es, now) == Select(es, LingerMask(es, now))
  {
    if es != [] {
      LiveIsSelect(es[1..], now);
      var m := LingerMask(es, now);
      forall k | 0 <= k < |es| - 1 ensures m[1..][k] == LingerMask(es[1..], now)[k] {
        assert m[1..][k] == m[k + 1];
      }
      assert m[1..] == LingerMask(es[1..], now);
    }
  }

  /** Ageing keeps the surviving explosions in their original order. */
  lemma {:induction false} LiveKeepsOrder(es: seq<Explosion>, now: int)
    ensures IsSubseq(Live(es, now), es)
  {
    if es != [] {
      LiveKeepsOrder(es[1..], now);
      var rest := Live(es[1..], now);
      if Lingers(es[0], now) {
        assert Live(es, now) == [es[0]] + rest;
        assert ([es[0]] + rest)[1..] == rest;
      } else {
        assert Live(es, now) == rest;
      }
    }
  }

  /**
   * Ageing at one time and then at a later one leaves what ageing once at
   * the later time leaves; in particular ageing twice at the same time is
   * ageing once.
   */
  lemma {:induction false} LiveLater(es: seq<Explosion>, now: int, later: int)
    requires now <= later
    ensures Live(Live(es, now), later) == Live(es, later)
  {
    if es != [] {
      LiveLater(es[1..], now, later);
      var rest := Live(es[1..], now);
      if Lingers(es[0], now) {
        assert Live(es, now) == [es[0]] + rest;
        assert ([es[0]] + rest)[1..] == rest;
      } else {
        assert Live(es, now) == rest;
        assert !Lingers(es[0], later);
        assert Live(es, later) == Live(es[1..], later);
      }
    }
  }

  // ----------------------------------------------------------------------
  // Bullets
  // ----------------------------------------------------------------------

  /**
   * The bullet pass tests only single meshes, never the terrain, with the
   * pairwise test; for a bullet against a mesh that test comes down to the
   * mesh not being inert and the plain boxes meeting (see
   * `BulletAgainstMeshNeverScores`).
   */
  predicate Strikes(intersects: (Box, Box) -> bool, b: Bullet, o: Obj) {
    o.kind.IsMesh() && o.kind != Terrain && !o.kind.IsInert() && intersects(Box(b.AsObj(), 0.0), Box(o, 0.0))
  }

  predicate HitsScene(intersects: (Box, Box) -> bool, b: Bullet, scene: seq<Obj>) {
    exists k | 0 <= k < |scene| :: Strikes(intersects, b, scene[k])
  }

  /**
   * The scene children bullet `i` of `bs` is tested against: the children
   * that are neither bullets nor explosions, then every other bullet.
   */
  function SceneAt(fixed: seq<Obj>, bs: seq<Bullet>, i: nat): seq<Obj>
    requires i < |bs|
  {
    fixed + BulletObjs(bs[..i]) + BulletObjs(bs[i + 1..])
  }

  /** The hit test of the bullet pass in a scene whose other children are `fixed`. */
  function HitTest(fixed: seq<Obj>, intersects: (Box, Box) -> bool): (Bullet, seq<Bullet>, nat) -> bool {
    (b: Bullet, bs: seq<Bullet>, i: nat) => i < |bs| && HitsScene(intersects, b, SceneAt(fixed, bs, i))
  }

  /**
   * What the bullet pass needs besides the two lists: whether a moved
   * bullet, standing at index `i` of the current list, hits anything (in the
   * simulator this is always a `HitTest`), and the time the pass reads.
   */
  datatype Arena = Arena(hits: (Bullet, seq<Bullet>, nat) -> bool, now: int)

  /** The two lists the pass changes. */
  datatype Frame = Frame(bullets: seq<Bullet>, explosions: seq<Explosion>)

  predicate Expired(a: Arena, b: Bullet) {
    a.now - b.timeCreated > BulletLifetime
  }

  predicate Grounded(b: Bullet) {
    b.pos.y <= 0.0
  }

  /** Bullet `i` of the frame goes: after advancing it hit something, is at or below ground, or is too old. */
  predicate Removed(a: Arena, f: Frame, i: nat)
    requires i < |f.bullets|
  {
    var b := f.bullets[i].Advanced();
    a.hits(b, f.bullets, i) || Grounded(b) || Expired(a, b)
  }

  function Impact(a: Arena, b: Bullet): Explosion {
    Explosion(b.pos, a.now, ImpactBlastSize)
  }

  /** One turn of the pass, on the bullet at index `i`. */
  function Step(a: Arena, f: Frame, i: nat): (r: Frame)
    requires i < |f.bullets|
    ensures i <= |r.bullets| <= |f.bullets| && r.bullets[..i] == f.bullets[..i]
    ensures r.bullets == if Removed(a, f, i) then f.bullets[..i] + f.bullets[i + 1..]
                         else f.bullets[i := f.bullets[i].Advanced()]
    // one explosion for a hit and one for reaching the ground, after the old ones
    ensures |r.explosions| == |f.explosions| + (if a.hits(f.bullets[i].Advanced(), f.bullets, i) then 1 else 0)
                                              + (if Grounded(f.bullets[i].Advanced()) then 1 else 0)
    ensures r.explosions[..|f.explosions|] == f.explosions
    ensures forall j :: |f.explosions| <= j < |r.explosions| ==> r.explosions[j] == Impact(a, f.bullets[i].Advanced())
  {
    var b := f.bullets[i].Advanced();
    var hit := a.hits(b, f.bullets, i);
    var burst := if hit then [Impact(a, b)] else [];
    var crater := if Grounded(b) then [Impact(a, b)] else [];
    var gone := hit || Grounded(b) || Expired(a, b);
    Frame(if gone then f.bullets[..i] + f.bullets[i + 1..] else f.bullets[i := b],
          f.explosions + burst + crater)
  }

  /** The pass from the last index down to `lo`, started on `f0`. */
  function Run(a: Arena, f0: Frame, lo: nat): (r: Frame)
    requires lo <= |f0.bullets|
    ensures lo <= |r.bullets| <= |f0.bullets| && r.bullets[..lo] == f0.bullets[..lo]
    ensures |f0.explosions| <= |r.explosions| && r.explosions[..|f0.explosions|] == f0.explosions
    ensures forall j :: |f0.explosions| <= j < |r.explosions| ==>
              r.explosions[j].createdAt == a.now && r.explosions[j].size == ImpactBlastSize
    decreases |f0.bullets| - lo
  {
    if lo == |f0.bullets| then f0
    else
      var prev := Run(a, f0, lo + 1);
      assert prev.bullets[..lo] == prev.bullets[..lo + 1][..lo];
      Step(a, prev, lo)
  }

  /** One more turn of the pass. */
  lemma RunNext(a: Arena, f0: Frame, lo: nat)
    requires lo < |f0.bullets|
    ensures Run(a, f0, lo) == Step(a, Run(a, f0, lo + 1), lo)
  {
  }

  /** Replacing bullet `i` does not change what bullet `i` is tested against. */
  lemma SceneAtIgnoresSelf(fixed: seq<Obj>, bs: seq<Bullet>, i: nat, b: Bullet)
    requires i < |bs|
    ensures SceneAt(fixed, bs[i := b], i) == SceneAt(fixed, bs, i)
  {
    assert bs[i := b][..i] == bs[..i];
    assert bs[i := b][i + 1..] == bs[i + 1..];
  }

  /**
   * A turn done in place: the bullet is replaced by its advanced copy, the
   * burst and crater are appended, and the bullet is spliced out if it hit,
   * touched the ground or expired.
   */
  lemma StepInPlace(a: Arena, f: Frame, i: nat, hit: bool, gone: bool, bs: seq<Bullet>, es: seq<Explosion>)
    requires i < |f.bullets|
    requires hit == a.hits(f.bullets[i].Advanced(), f.bullets, i)
    requires gone == (hit || Grounded(f.bullets[i].Advanced()) || Expired(a, f.bullets[i].Advanced()))
    requires var moved := f.bullets[i := f.bullets[i].Advanced()];
             bs == if gone then moved[..i] + moved[i + 1..] else moved
    requires es == f.explosions + (if hit then [Impact(a, f.bullets[i].Advanced())] else [])
                   + (if Grounded(f.bullets[i].Advanced()) then [Impact(a, f.bullets[i].Advanced())] else [])
    ensures Frame(bs, es) == Step(a, f, i)
  {
    var moved := f.bullets[i := f.bullets[i].Advanced()];
    assert moved[..i] == f.bullets[..i];
    assert moved[i + 1..] == f.bullets[i + 1..];
  }

  /**
   * For each bullet of `f0` from `lo` on, whether it survives the pass:
   * entry `j` is set when bullet `lo + j` is not removed at its own turn.
   */
  function KeptMask(a: Arena, f0: Frame, lo: nat): (m: seq<bool>)
    requires lo <= |f0.bullets|
    ensures |m| == |f0.bullets| - lo
  {
    seq(|f0.bullets| - lo, j requires 0 <= j < |f0.bullets| - lo => !Removed(a, Run(a, f0, lo + j + 1), lo + j))
  }

  function AdvancedAll(bs: seq<Bullet>): (r: seq<Bullet>)
    ensures |r| == |bs|
    ensures forall k :: 0 <= k < |bs| ==> r[k] == bs[k].Advanced()
  {
    if bs == [] then [] else [bs[0].Advanced()] + AdvancedAll(bs[1..])
  }

  /**
   * One turn of a top-down removal pass on `pre + [x] + tail`: keeping the
   * element (replaced by `y`) or dropping it leaves `pre` followed by the
   * selected part of `[y] + rest`.
   */
  lemma Assemble<T>(result: seq<T>, prev: seq<T>, pre: seq<T>, x: T, y: T, tail: seq<T>, rest: seq<T>, m: seq<bool>)
    requires prev == pre + [x] + tail
    requires |m| == |rest| + 1 && tail == Select(rest, m[1..])
    requires result == if m[0] then prev[|pre| := y] else prev[..|pre|] + prev[|pre| + 1..]
    ensures result == pre + Select([y] + rest, m)
  {
    SelectCons(y, rest, m);
    var selected := Select([y] + rest, m);
    if m[0] {
      assert selected == [y] + tail;
      ReplaceMiddle(prev, pre, x, y, tail);
      assert result == pre + ([y] + tail);
    } else {
      assert selected == tail;
      DropMiddle(prev, pre, x, tail);
      assert result == pre + tail;
    }
  }

  lemma SelectCons<T>(y: T, rest: seq<T>, m: seq<bool>)
    requires |m| == |rest| + 1
    ensures Select([y] + rest, m) == (if m[0] then [y] else []) + Select(rest, m[1..])
  {
    assert ([y] + rest)[1..] == rest;
  }

  lemma ReplaceMiddle<T>(prev: seq<T>, pre: seq<T>, x: T, y: T, tail: seq<T>)
    requires prev == pre + [x] + tail
    ensures prev[|pre| := y] == pre + ([y] + tail)
  {
    assert prev[|pre| := y] == pre + [y] + tail;
  }

  lemma DropMiddle<T>(prev: seq<T>, pre: seq<T>, x: T, tail: seq<T>)
    requires prev == pre + [x] + tail
    ensures prev[..|pre|] + prev[|pre| + 1..] == pre + tail
  {
    assert prev[..|pre|] == pre;
    assert prev[|pre| + 1..] == tail;
  }

  lemma PrefixSnoc<T>(s: seq<T>, i: nat)
    requires i < |s|
    ensures s[..i + 1] == s[..i] + [s[i]]
  {
  }

  lemma AdvancedAllFrom(bs: seq<Bullet>, i: nat)
    requires i < |bs|
    ensures AdvancedAll(bs[i..]) == [bs[i].Advanced()] + AdvancedAll(bs[i + 1..])
  {
    assert bs[i..][1..] == bs[i + 1..];
  }

  /** One turn of the pass, stated through the survival flag of the bullet it handles. */
  lemma RunTurn(a: Arena, f0: Frame, lo: nat)
    requires lo < |f0.bullets|
    ensures KeptMask(a, f0, lo)[1..] == KeptMask(a, f0, lo + 1)
    ensures Run(a, f0, lo).bullets ==
              if KeptMask(a, f0, lo)[0]
              then Run(a, f0, lo + 1).bullets[lo := Run(a, f0, lo + 1).bullets[lo].Advanced()]
              else Run(a, f0, lo + 1).bullets[..lo] + Run(a, f0, lo + 1).bullets[lo + 1..]
  {
    var m := KeptMask(a, f0, lo);
    var later := KeptMask(a, f0, lo + 1);
    forall j | 0 <= j < |later| ensures m[1..][j] == later[j] {
      assert m[1..][j] == m[j + 1];
    }
    assert m[0] == !Removed(a, Run(a, f0, lo + 1), lo);
    RunNext(a, f0, lo);
  }

  /** The explosions bullet `k` of `f0` leaves at its turn of the pass: one for a hit, one for reaching the ground. */
  function Flashes(a: Arena, f0: Frame, k: nat): nat
    requires k < |f0.bullets|
  {
    var b := f0.bullets[k].Advanced();
    (if a.hits(b, Run(a, f0, k + 1).bullets, k) then 1 else 0) + (if Grounded(b) then 1 else 0)
  }

  /** The explosions the bullets of `f0` from index `lo` on leave in the pass, added up. */
  function Bursts(a: Arena, f0: Frame, lo: nat): nat
    requires lo <= |f0.bullets|
    decreases |f0.bullets| - lo
  {
    if lo == |f0.bullets| then 0 else Flashes(a, f0, lo) + Bursts(a, f0, lo + 1)
  }

  /**
   * The pass adds exactly one explosion for every bullet that hit something
   * and one for every bullet that reached the ground.
   */
  lemma {:induction false} RunExplosionCount(a: Arena, f0: Frame, lo: nat)
    requires lo <= |f0.bullets|
    ensures |Run(a, f0, lo).explosions| == |f0.explosions| + Bursts(a, f0, lo)
    decreases |f0.bullets| - lo
  {
    if lo < |f0.bullets| {
      RunExplosionCount(a, f0, lo + 1);
      RunNext(a, f0, lo);
      var prev := Run(a, f0, lo + 1).bullets;
      assert prev[lo] == prev[..lo + 1][lo];
    }
  }

  /** The pass so far, in terms of the original list: the untouched prefix, then the survivors. */
  lemma {:induction false} RunShape(a: Arena, f0: Frame, lo: nat)
    requires lo <= |f0.bullets|
    ensures Run(a, f0, lo).bullets ==
              f0.bullets[..lo] + Select(AdvancedAll(f0.bullets[lo..]), KeptMask(a, f0, lo))
    decreases |f0.bullets| - lo
  {
    var n := |f0.bullets|;
    if lo == n {
      assert f0.bullets[..lo] == f0.bullets;
      assert f0.bullets[lo..] == [];
    } else {
      RunShape(a, f0, lo + 1);
      RunTurn(a, f0, lo);
      var x := f0.bullets[lo];
      PrefixSnoc(f0.bullets, lo);
      AdvancedAllFrom(f0.bullets, lo);
      Assemble(Run(a, f0, lo).bullets, Run(a, f0, lo + 1).bullets, f0.bullets[..lo], x, x.Advanced(),
               Select(AdvancedAll(f0.bullets[lo + 1..]), KeptMask(a, f0, lo + 1)),
               AdvancedAll(f0.bullets[lo + 1..]), KeptMask(a, f0, lo));
    }
  }

  /**
   * Bullet `k` survives the pass exactly when, at its turn, it hit no scene
   * mesh after advancing, stayed above ground and was not too old.
   */
  lemma {:induction false} KeptIff(a: Arena, f0: Frame, k: nat)
    requires k < |f0.bullets|
    ensures KeptMask(a, f0, 0)[k] <==>
              !(a.hits(f0.bullets[k].Advanced(), Run(a, f0, k + 1).bullets, k)
                || Grounded(f0.bullets[k].Advanced())
                || Expired(a, f0.bullets[k]))
  {
    var prev := Run(a, f0, k + 1).bullets;
    assert prev[k] == prev[..k + 1][k];
  }

  /**
   * The whole bullet pass: the survivors are the advanced bullets whose
   * flag is set, in their original order, and bullet `k`'s flag is set
   * exactly when, at its turn, it hit no scene mesh, stayed above ground
   * and was not too old.
   */
  lemma UpdateBulletsOutcome(a: Arena, f0: Frame)
    ensures Run(a, f0, 0).bullets == Select(AdvancedAll(f0.bullets), KeptMask(a, f0, 0))
    ensures IsSubseq(Run(a, f0, 0).bullets, AdvancedAll(f0.bullets))
    ensures forall k :: 0 <= k < |f0.bullets| ==>
              (KeptMask(a, f0, 0)[k] <==>
                !(a.hits(f0.bullets[k].Advanced(), Run(a, f0, k + 1).bullets, k)
                  || Grounded(f0.bullets[k].Advanced())
                  || Expired(a, f0.bullets[k])))
  {
    RunShape(a, f0, 0);
    assert f0.bullets[0..] == f0.bullets;
    SelectIsSubseq(AdvancedAll(f0.bullets), KeptMask(a, f0, 0));
    forall k | 0 <= k < |f0.bullets| {
      KeptIff(a, f0, k);
    }
  }

  /** Every bullet left after the pass is above ground and at most `BulletLifetime` ms old. */
  lemma SurvivorsAirborneAndYoung(a: Arena, f0: Frame)
    ensures forall b :: b in Run(a, f0, 0).bullets ==> b.pos.y > 0.0 && a.now - b.timeCreated <= BulletLifetime
  {
    var m := KeptMask(a, f0, 0);
    var all := AdvancedAll(f0.bullets);
    RunShape(a, f0, 0);
    assert f0.bullets[..0] == [] && f0.bullets[0..] == f0.bullets;
    assert Run(a, f0, 0).bullets == Select(all, m);
    forall b | b in Select(all, m)
      ensures b.pos.y > 0.0 && a.now - b.timeCreated <= BulletLifetime
    {
      SelectMember(all, m, b);
      var k :| 0 <= k < |all| && m[k] && all[k] == b;
      KeptIff(a, f0, k);
    }
  }

  /** When no two boxes ever meet, a bullet hits nothing in any scene. */
  lemma NothingToHit(intersects: (Box, Box) -> bool, b: Bullet, scene: seq<Obj>)
    requires forall b1, b2 :: !intersects(b1, b2)
    ensures !HitsScene(intersects, b, scene)
  {
    forall j | 0 <= j < |scene| ensures !Strikes(intersects, b, scene[j]) {
      assert !intersects(Box(b.AsObj(), 0.0), Box(scene[j], 0.0));
    }
  }

  /**
   * With nothing in the scene to hit, a bullet survives the pass exactly
   * when it is still above ground after advancing and not too old.
   */
  lemma OpenSkyOnlyAgeAndGround(fixed: seq<Obj>, intersects: (Box, Box) -> bool, now: int, f0: Frame)
    requires forall b1, b2 :: !intersects(b1, b2)
    ensures var a := Arena(HitTest(fixed, intersects), now);
            forall k :: 0 <= k < |f0.bullets| ==>
              (KeptMask(a, f0, 0)[k] <==>
                !Grounded(f0.bullets[k].Advanced()) && !Expired(a, f0.bullets[k]))
  {
    var a := Arena(HitTest(fixed, intersects), now);
    forall k | 0 <= k < |f0.bullets|
      ensures KeptMask(a, f0, 0)[k] <==> !Grounded(f0.bullets[k].Advanced()) && !Expired(a, f0.bullets[k])
    {
      KeptIff(a, f0, k);
      var prev := Run(a, f0, k + 1).bullets;
      NothingToHit(intersects, f0.bullets[k].Advanced(), SceneAt(fixed, prev, k));
      assert !a.hits(f0.bullets[k].Advanced(), prev, k);
    }
  }
}
