/**
 * The part of the frame loop (main.js, animate) that moves the game: the rocket
 * update, then a second pass over the bolt pool that updates each bolt again,
 * tests it against the saucer and hides it on a hit.
 */
module Game {
  import opened Geometry
  import Bolts
  import Rockets

  /** The saucer as the frame loop sees it: its world position and bounding radius. */
  datatype Target = Target(position: Vec3, radius: real)

  function DistSq(a: Vec3, b: Vec3): real
  {
    (a.x - b.x) * (a.x - b.x) + (a.y - b.y) * (a.y - b.y) + (a.z - b.z) * (a.z - b.z)
  }

  /**
   * checkCollision: the distance between the two world positions is strictly below the
   * sum of the radii. The distance is compared through its square, which needs no root.
   * Two spheres that touch are therefore close along every axis.
   */
  predicate Collides(a: Vec3, ra: real, b: Vec3, rb: real)
    ensures Collides(a, ra, b, rb) ==>
              Abs(a.x - b.x) < ra + rb && Abs(a.y - b.y) < ra + rb && Abs(a.z - b.z) < ra + rb
  {
    if 0.0 < ra + rb && DistSq(a, b) < (ra + rb) * (ra + rb) then
      AxesWithin(a, b, ra + rb);
      true
    else
      false
  }

  /** Each axis contributes a non-negative square to DistSq, so each is below the bound. */
  lemma AxesWithin(a: Vec3, b: Vec3, s: real)
    requires 0.0 < s && DistSq(a, b) < s * s
    ensures Abs(a.x - b.x) < s && Abs(a.y - b.y) < s && Abs(a.z - b.z) < s
  {
    var dx, dy, dz := a.x - b.x, a.y - b.y, a.z - b.z;
    assert 0.0 <= dx * dx && 0.0 <= dy * dy && 0.0 <= dz * dz;
    assert Abs(dx) * Abs(dx) == dx * dx && Abs(dy) * Abs(dy) == dy * dy && Abs(dz) * Abs(dz) == dz * dz;
    SquareLess(Abs(dx), s);
    SquareLess(Abs(dy), s);
    SquareLess(Abs(dz), s);
  }

  /** Squaring is strictly increasing on the non-negative reals. */
  lemma SquareLess(x: real, y: real)
    requires 0.0 <= x && 0.0 <= y
    ensures x < y <==> x * x < y * y
  {
    if x < y {
      calc {
        x * x;
      <= x * y;
      <  y * y;
      }
    } else {
      calc {
        y * y;
      <= y * x;
      <= x * x;
      }
    }
  }

  /** For the true distance d, Collides holds exactly when d < ra + rb; d == ra + rb is a miss. */
  lemma CollidesIffCloser(a: Vec3, ra: real, b: Vec3, rb: real, d: real)
    requires 0.0 <= d && d * d == DistSq(a, b)
    ensures Collides(a, ra, b, rb) <==> d < ra + rb
  {
    if 0.0 < ra + rb {
      SquareLess(d, ra + rb);
    }
  }

  /** The test does not care which of the two positions is the bolt's. */
  lemma CollidesSymmetric(a: Vec3, ra: real, b: Vec3, rb: real)
    ensures Collides(a, ra, b, rb) == Collides(b, ra, a, rb)
  {
    assert DistSq(a, b) == DistSq(b, a);
  }

  /** Whether a bolt, in the state given, overlaps the saucer; its visibility is not consulted. */
  predicate Hits(toWorld: Vec3 -> Vec3, radius: real, saucer: Target, b: Bolts.BoltState)
  {
    Collides(toWorld(b.position), radius, saucer.position, saucer.radius)
  }

  /** One turn of the loop body for one bolt: update it, then hide it if it hits. */
  function Checked(env: MathEnv, toWorld: Vec3 -> Vec3, radius: real, saucer: Target,
                   b: Bolts.BoltState): Bolts.BoltState
  {
    var u := Bolts.Advanced(env, b);
    if Hits(toWorld, radius, saucer, u) then u.(visible := false) else u
  }

  /** The pool after the loop. */
  function CheckedAll(env: MathEnv, toWorld: Vec3 -> Vec3, radius: real, saucer: Target,
                      bs: seq<Bolts.BoltState>): seq<Bolts.BoltState>
  {
    seq(|bs|, i requires 0 <= i < |bs| => Checked(env, toWorld, radius, saucer, bs[i]))
  }

  /** The slots, in pool order, for which the loop calls handleCollision. */
  function HitSlots(env: MathEnv, toWorld: Vec3 -> Vec3, radius: real, saucer: Target,
                    bs: seq<Bolts.BoltState>): seq<nat>
    decreases |bs|
  {
    if bs == [] then []
    else
      var n := |bs| - 1;
      HitSlots(env, toWorld, radius, saucer, bs[..n])
        + (if Hits(toWorld, radius, saucer, Bolts.Advanced(env, bs[n])) then [n] else [])
  }

  /**
   * handleCollision is called for slot i exactly when bolt i, once updated, overlaps the
   * saucer, whether that bolt is visible or not; the slots come in increasing order.
   */
  lemma {:induction false} HitSlotsExact(env: MathEnv, toWorld: Vec3 -> Vec3, radius: real,
                                         saucer: Target, bs: seq<Bolts.BoltState>)
    ensures forall i :: i in HitSlots(env, toWorld, radius, saucer, bs) <==>
              0 <= i < |bs| && Hits(toWorld, radius, saucer, Bolts.Advanced(env, bs[i]))
    ensures forall j, k :: 0 <= j < k < |HitSlots(env, toWorld, radius, saucer, bs)| ==>
              HitSlots(env, toWorld, radius, saucer, bs)[j] < HitSlots(env, toWorld, radius, saucer, bs)[k]
    decreases |bs|
  {
    if bs != [] {
      var n := |bs| - 1;
      var prefix := HitSlots(env, toWorld, radius, saucer, bs[..n]);
      HitSlotsExact(env, toWorld, radius, saucer, bs[..n]);
      assert forall i :: 0 <= i < n ==> bs[..n][i] == bs[i];
      forall j | 0 <= j < |prefix|
        ensures prefix[j] < n
      {
        assert prefix[j] in prefix;
      }
    }
  }

  /**
   * After the loop, slot i is the updated bolt, hidden exactly when handleCollision was
   * called for i; no other slot is touched by another slot's hit.
   */
  lemma HitHidesThatBolt(env: MathEnv, toWorld: Vec3 -> Vec3, radius: real, saucer: Target,
                         bs: seq<Bolts.BoltState>, i: nat)
    requires i < |bs|
    ensures var u := Bolts.Advanced(env, bs[i]);
            CheckedAll(env, toWorld, radius, saucer, bs)[i] ==
              if i in HitSlots(env, toWorld, radius, saucer, bs) then u.(visible := false) else u
  {
    HitSlotsExact(env, toWorld, radius, saucer, bs);
  }

  /**
   * A bolt hidden by a hit in one frame keeps its local position through the next
   * frame's two updates, and that frame reports it again exactly when, under the next
   * frame's world map `toWorld'` and saucer `saucer'`, it still overlaps. In particular,
   * if its world position and the saucer are the same as before (neither the rocket's
   * transform nor the saucer changed), handleCollision is called for it once more.
   */
  lemma HiddenBoltHitsAgain(env: MathEnv, toWorld: Vec3 -> Vec3, toWorld': Vec3 -> Vec3,
                            radius: real, saucer: Target, saucer': Target, b0: Bolts.BoltState)
    requires Hits(toWorld, radius, saucer, Bolts.Advanced(env, b0))
    ensures var b := Checked(env, toWorld, radius, saucer, b0);
            && !b.visible && b.position == Bolts.Advanced(env, b0).position
            && Checked(env, toWorld', radius, saucer', Bolts.Advanced(env, b)) == b
            && (var again := HitSlots(env, toWorld', radius, saucer', [Bolts.Advanced(env, b)]) == [0];
                again <==> Hits(toWorld', radius, saucer', b))
            && (toWorld'(b.position) == toWorld(b.position) && saucer' == saucer ==>
                  HitSlots(env, toWorld', radius, saucer', [Bolts.Advanced(env, b)]) == [0])
  {
    var b := Checked(env, toWorld, radius, saucer, b0);
    assert [Bolts.Advanced(env, b)][..0] == [];
  }

  /**
   * Over one frame a visible bolt is updated twice, once by the rocket and once by the
   * loop: while it stays in the square it moves 2 * Speed along its direction.
   */
  lemma TwoStepsPerFrame(env: MathEnv, toWorld: Vec3 -> Vec3, radius: real, saucer: Target,
                         s: Rockets.RocketState, i: nat)
    requires Rockets.Wf(s) && i < Rockets.NumBolts
    ensures var b := s.bolts[i];
            var r := CheckedAll(env, toWorld, radius, saucer, Rockets.Updated(env, s).bolts)[i];
            b.visible && Bolts.Advanced(env, Bolts.Advanced(env, b)).visible ==>
              r.position == Displaced(env, Displaced(env, b.position, b.direction, Bolts.Speed),
                                      b.direction, Bolts.Speed)
  {
  }

  /**
   * The loop of animate over the rocket's pool: update each bolt, test it against the
   * saucer, and on a hit call handleCollision (recorded in `hits`) and hide the bolt.
   */
  method AnimateBolts(rocket: Rockets.Rocket, env: MathEnv, toWorld: Vec3 -> Vec3, saucer: Target)
    returns (hits: seq<nat>)
    requires rocket.Valid()
    modifies rocket.bolts
    ensures rocket.BoltStates() == CheckedAll(env, toWorld, rocket.boltRadius, saucer, old(rocket.BoltStates()))
    ensures hits == HitSlots(env, toWorld, rocket.boltRadius, saucer, old(rocket.BoltStates()))
  {
    ghost var bs := rocket.BoltStates();
    var bolts := rocket.bolts;
    hits := [];
    var i := 0;
    while i < |bolts|
      invariant 0 <= i <= |bolts|
      invariant forall j :: 0 <= j < i ==>
                  bolts[j].State() == Checked(env, toWorld, rocket.boltRadius, saucer, bs[j])
      invariant forall j :: i <= j < |bolts| ==> bolts[j].State() == bs[j]
      invariant hits == HitSlots(env, toWorld, rocket.boltRadius, saucer, bs[..i])
    {
      var bolt := bolts[i];
      bolt.Update(env);
      if Collides(toWorld(bolt.position), bolt.boundingRadius, saucer.position, saucer.radius) {
        hits := hits + [i];
        bolt.visible := false;
      }
      assert bs[..i + 1][..i] == bs[..i];
      i := i + 1;
    }
    assert bs[..i] == bs;
  }

  /** The game-state part of one animate frame: rocket update, then the bolt loop. */
  method Animate(rocket: Rockets.Rocket, env: MathEnv, toWorld: Vec3 -> Vec3, saucer: Target)
    returns (hits: seq<nat>)
    requires rocket.Valid()
    modifies rocket, rocket.bolts
    ensures rocket.Valid()
    ensures var mid := Rockets.Updated(env, old(rocket.State()));
            && rocket.State() == mid.(bolts := CheckedAll(env, toWorld, rocket.boltRadius, saucer, mid.bolts))
            && hits == HitSlots(env, toWorld, rocket.boltRadius, saucer, mid.bolts)
  {
    rocket.Update(env);
    hits := AnimateBolts(rocket, env, toWorld, saucer);
  }
}
