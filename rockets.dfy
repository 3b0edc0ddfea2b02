/**
 * The player's rocket (getRocket): a heading turned by two rotate flags, a thrust
 * magnitude that follows a goal through a first-order low-pass filter, a position
 * integrated along the last heading thrusted at and mirrored at the screen edges,
 * a pool of ten bolts fired round-robin, and a hit animation during which the
 * position is not integrated.
 */
module Rockets {
  import opened Geometry
  import Bolts

  const NumBolts: nat := 10
  /** Heading change per update while a rotate flag is set. */
  const RotationRate: real := 0.05
  /** Fraction of the gap to the goal closed by each update. */
  const Decay: real := 0.01
  /** Added to the thrust goal by every thrust(true). */
  const ThrustStep: real := 0.05
  /** The screen bounds beyond which a coordinate is negated. */
  const ScreenX: real := 5.5
  const ScreenY: real := 4.0
  /** Where the rocket starts, and respawns after a hit. */
  const Spawn: Vec3 := Vec3(-3.0, 0.0, 0.0)

  /**
   * The rocket's state. `goal` and `thrusting` are goalThrustMag and isThrusting,
   * `fireVisible` is the visibility of the thrust flame, `tweening` is isTweening.
   */
  datatype RocketState = RocketState(
    direction: real, rotationZ: real, thrustMag: real, thrustDirection: real,
    goal: real, thrusting: bool, fireVisible: bool,
    rotatingLeft: bool, rotatingRight: bool, tweening: bool,
    boltIndex: nat, position: Vec3, bolts: seq<Bolts.BoltState>)

  /** Ten bolts and a pool index that points at one of them. */
  predicate Wf(s: RocketState)
  {
    |s.bolts| == NumBolts && s.boltIndex < NumBolts
  }

  function Initial(): RocketState
  {
    RocketState(0.0, 0.0, 0.0, 0.0, 0.0, false, false, false, false, false,
                0, Spawn, seq(NumBolts, _ => Bolts.Initial()))
  }

  lemma InitialWf()
    ensures Wf(Initial()) && Initial().boltIndex == 0
    ensures forall i :: 0 <= i < NumBolts ==> !Initial().bolts[i].visible
  {
  }

  /** The pool index after one fire: one more, back to 0 on reaching the pool size. */
  function NextSlot(index: nat, n: nat): (next: nat)
    requires index < n
    ensures next < n
    ensures next == (index + 1) % n
  {
    if index + 1 >= n then 0 else index + 1
  }

  function Thrusted(s: RocketState, on: bool): RocketState
  {
    s.(thrusting := on, fireVisible := on, goal := if on then s.goal + ThrustStep else 0.0)
  }

  function RotatedLeft(s: RocketState, on: bool): RocketState
  {
    s.(rotatingLeft := on)
  }

  function RotatedRight(s: RocketState, on: bool): RocketState
  {
    s.(rotatingRight := on)
  }

  /** fire: advance the pool index, then fire that bolt along the rocket's heading. */
  function Fired(s: RocketState): (r: RocketState)
    requires Wf(s)
    ensures Wf(r)
    ensures r.boltIndex == (s.boltIndex + 1) % NumBolts
    ensures r.bolts[r.boltIndex] == Bolts.Fired(s.direction)
    ensures forall j :: 0 <= j < NumBolts && j != r.boltIndex ==> r.bolts[j] == s.bolts[j]
    ensures r.(boltIndex := s.boltIndex, bolts := s.bolts) == s
  {
    var i := NextSlot(s.boltIndex, |s.bolts|);
    s.(boltIndex := i, bolts := s.bolts[i := Bolts.Fired(s.direction)])
  }

  /** The heading after one update: + RotationRate if turning left, then - RotationRate if turning right. */
  function Turned(s: RocketState): real
  {
    var d := if s.rotatingLeft then s.direction + RotationRate else s.direction;
    if s.rotatingRight then d - RotationRate else d
  }

  /** A coordinate beyond the bound on either side is negated; inside, it stays. */
  function Mirrored(v: real, bound: real): real
  {
    if v < -bound || v > bound then -v else v
  }

  /** update: turn, filter the thrust, lock the thrust direction, move, mirror, update every bolt. */
  function Updated(env: MathEnv, s: RocketState): (r: RocketState)
    requires Wf(s)
    ensures Wf(r)
    ensures s.rotatingLeft == s.rotatingRight ==> r.direction == s.direction
    ensures s.rotatingLeft && !s.rotatingRight ==> r.direction == s.direction + RotationRate
    ensures !s.rotatingLeft && s.rotatingRight ==> r.direction == s.direction - RotationRate
    ensures r.rotationZ == r.direction - env.pi * 0.5
    ensures r.thrustMag - s.goal == (1.0 - Decay) * (s.thrustMag - s.goal)
    ensures r.thrustDirection == if s.thrusting then r.direction else s.thrustDirection
    ensures forall i :: 0 <= i < NumBolts ==> r.bolts[i] == Bolts.Advanced(env, s.bolts[i])
    ensures r.(direction := s.direction, rotationZ := s.rotationZ, thrustMag := s.thrustMag,
               thrustDirection := s.thrustDirection, position := s.position, bolts := s.bolts) == s
  {
    var d := Turned(s);
    var mag := s.thrustMag - (s.thrustMag - s.goal) * Decay;
    var td := if s.thrusting then d else s.thrustDirection;
    var m := if s.tweening then s.position else Displaced(env, s.position, td, mag);
    s.(direction := d, rotationZ := d - env.pi * 0.5, thrustMag := mag, thrustDirection := td,
       position := Vec3(Mirrored(m.x, ScreenX), Mirrored(m.y, ScreenY), m.z),
       bolts := seq(|s.bolts|, i requires 0 <= i < |s.bolts| => Bolts.Advanced(env, s.bolts[i])))
  }

  /** The position moved by one update, before mirroring: held still while the hit animation runs. */
  function Moved(env: MathEnv, s: RocketState, r: RocketState): Vec3
  {
    if s.tweening then s.position else Displaced(env, s.position, r.thrustDirection, r.thrustMag)
  }

  /**
   * Position after update: integrated along the thrust direction unless tweening, then
   * each coordinate beyond the screen bound negated. Negation keeps the magnitude, so a
   * mirrored coordinate is still beyond the bound; a coordinate inside stays as it is.
   */
  lemma PositionStep(env: MathEnv, s: RocketState)
    requires Wf(s)
    ensures var r := Updated(env, s);
            var m := Moved(env, s, r);
            && r.position.z == m.z
            && Abs(r.position.x) == Abs(m.x) && Abs(r.position.y) == Abs(m.y)
            && (-ScreenX <= m.x <= ScreenX <==> r.position.x == m.x)
            && (-ScreenY <= m.y <= ScreenY <==> r.position.y == m.y)
            && (r.position.x != m.x ==> ScreenX < Abs(r.position.x))
            && (r.position.y != m.y ==> ScreenY < Abs(r.position.y))
  {
  }

  /** playHitAnimation, when it starts: ignored while one is running, else stop and start spinning. */
  function HitStarted(s: RocketState): RocketState
  {
    if s.tweening then s else s.(thrustMag := 0.0, tweening := true)
  }

  /** The animation's completion: back to the spawn pose, integration resumes. */
  function HitCompleted(s: RocketState): (r: RocketState)
    ensures r.position == Spawn && r.rotationZ == 0.0 && !r.tweening
    ensures r.(position := s.position, rotationZ := s.rotationZ, tweening := s.tweening) == s
  {
    s.(rotationZ := 0.0, position := Spawn, tweening := false)
  }

  function FiredN(s: RocketState, k: nat): (r: RocketState)
    requires Wf(s)
    ensures Wf(r)
    decreases k
  {
    if k == 0 then s else Fired(FiredN(s, k - 1))
  }

  function UpdatedN(env: MathEnv, s: RocketState, n: nat): (r: RocketState)
    requires Wf(s)
    ensures Wf(r)
    decreases n
  {
    if n == 0 then s else Updated(env, UpdatedN(env, s, n - 1))
  }

  function ThrustedOnN(s: RocketState, k: nat): RocketState
    decreases k
  {
    if k == 0 then s else Thrusted(ThrustedOnN(s, k - 1), true)
  }

  function Pow(b: real, n: nat): real
    decreases n
  {
    if n == 0 then 1.0 else b * Pow(b, n - 1)
  }

  /** After k fires the pool index has moved on by k, modulo the pool size. */
  lemma {:induction false} RoundRobin(s: RocketState, k: nat)
    requires Wf(s)
    ensures FiredN(s, k).boltIndex == (s.boltIndex + k) % NumBolts
    decreases k
  {
    if k > 0 {
      RoundRobin(s, k - 1);
      var b := s.boltIndex + k - 1;
      assert FiredN(s, k).boltIndex == (b % NumBolts + 1) % NumBolts;
      assert (b % NumBolts + 1) % NumBolts == (b + 1) % NumBolts by {
        var q := b / NumBolts;
        assert b == q * NumBolts + b % NumBolts;
        if b % NumBolts + 1 == NumBolts {
          assert b + 1 == (q + 1) * NumBolts;
        } else {
          assert b + 1 == q * NumBolts + (b % NumBolts + 1);
        }
      }
    }
  }

  /**
   * The k-th fire after construction fires slot k mod 10, and only that slot: the
   * first fire uses slot 1, and slot 0 first fires on the tenth call.
   */
  lemma KthFireSlot(k: nat)
    requires 1 <= k
    ensures Wf(Initial())
    ensures var before := FiredN(Initial(), k - 1);
            var after := FiredN(Initial(), k);
            && after.boltIndex == k % NumBolts
            && after.bolts[k % NumBolts] == Bolts.Fired(before.direction)
            && forall j :: 0 <= j < NumBolts && j != k % NumBolts ==> after.bolts[j] == before.bolts[j]
  {
    InitialWf();
    RoundRobin(Initial(), k);
  }

  /** Every thrust(true) adds ThrustStep to the goal, so k of them in a row add k steps. */
  lemma {:induction false} ThrustCompounds(s: RocketState, k: nat)
    ensures ThrustedOnN(s, k).goal == s.goal + ThrustStep * k as real
    ensures k > 0 ==> ThrustedOnN(s, k).thrusting && ThrustedOnN(s, k).fireVisible
    ensures ThrustedOnN(s, k).(goal := s.goal, thrusting := s.thrusting, fireVisible := s.fireVisible) == s
    decreases k
  {
    if k > 0 {
      ThrustCompounds(s, k - 1);
    }
  }

  /** thrust(false) drops the goal to exactly 0, however large it had grown. */
  lemma ThrustOffResets(s: RocketState)
    ensures Thrusted(s, false).goal == 0.0 && !Thrusted(s, false).thrusting
    ensures !Thrusted(s, false).fireVisible
  {
  }

  /** The rotate operations set their flag and nothing else. */
  lemma RotateSetsOnlyFlag(s: RocketState, on: bool)
    ensures RotatedLeft(s, on).rotatingLeft == on && RotatedLeft(s, on).(rotatingLeft := s.rotatingLeft) == s
    ensures RotatedRight(s, on).rotatingRight == on && RotatedRight(s, on).(rotatingRight := s.rotatingRight) == s
  {
  }

  /** The thrust magnitude moves toward the goal and never past it. */
  lemma ThrustNeverOvershoots(env: MathEnv, s: RocketState)
    requires Wf(s)
    ensures s.thrustMag <= s.goal ==> s.thrustMag <= Updated(env, s).thrustMag <= s.goal
    ensures s.goal <= s.thrustMag ==> s.goal <= Updated(env, s).thrustMag <= s.thrustMag
    ensures Abs(Updated(env, s).thrustMag - s.goal) == (1.0 - Decay) * Abs(s.thrustMag - s.goal)
  {
  }

  /** Across n updates with a fixed goal, the gap to the goal shrinks by the factor 0.99 each time. */
  lemma {:induction false} ThrustConverges(env: MathEnv, s: RocketState, n: nat)
    requires Wf(s)
    ensures UpdatedN(env, s, n).goal == s.goal
    ensures UpdatedN(env, s, n).thrustMag - s.goal == Pow(1.0 - Decay, n) * (s.thrustMag - s.goal)
    decreases n
  {
    if n > 0 {
      ThrustConverges(env, s, n - 1);
      var prev := UpdatedN(env, s, n - 1);
      var a, gap := Pow(1.0 - Decay, n - 1), s.thrustMag - s.goal;
      assert UpdatedN(env, s, n).thrustMag - s.goal == (1.0 - Decay) * (prev.thrustMag - s.goal);
      assert prev.thrustMag - s.goal == a * gap;
      assert (1.0 - Decay) * (a * gap) == ((1.0 - Decay) * a) * gap;
    }
  }

  /** While the hit animation runs, updates move the rocket only by mirroring: |x| and |y| stay. */
  lemma {:induction false} TweeningHoldsPosition(env: MathEnv, s: RocketState, n: nat)
    requires Wf(s) && s.tweening
    ensures UpdatedN(env, s, n).tweening
    ensures Abs(UpdatedN(env, s, n).position.x) == Abs(s.position.x)
    ensures Abs(UpdatedN(env, s, n).position.y) == Abs(s.position.y)
    ensures UpdatedN(env, s, n).position.z == s.position.z
    decreases n
  {
    if n > 0 {
      TweeningHoldsPosition(env, s, n - 1);
    }
  }

  /**
   * playHitAnimation is a no-op whenever an animation is already running, whatever the
   * state; otherwise it only zeroes the thrust magnitude and sets the tween flag. So a
   * second call right after the first changes nothing.
   */
  lemma HitStartIdempotent(s: RocketState)
    ensures s.tweening ==> HitStarted(s) == s
    ensures HitStarted(s).tweening
    ensures HitStarted(HitStarted(s)) == HitStarted(s)
    ensures !s.tweening ==> HitStarted(s).thrustMag == 0.0
    ensures HitStarted(s).(thrustMag := s.thrustMag, tweening := s.tweening) == s
  {
  }

  /** A hidden bolt stays hidden through every rocket operation except fire. */
  lemma HiddenBoltsStayHidden(env: MathEnv, s: RocketState, i: nat, on: bool)
    requires Wf(s) && i < NumBolts && !s.bolts[i].visible
    ensures !Updated(env, s).bolts[i].visible
    ensures !Thrusted(s, on).bolts[i].visible && !RotatedLeft(s, on).bolts[i].visible
    ensures !RotatedRight(s, on).bolts[i].visible
    ensures !HitStarted(s).bolts[i].visible && !HitCompleted(s).bolts[i].visible
    ensures i != Fired(s).boltIndex ==> !Fired(s).bolts[i].visible
  {
  }

  /** Builds the pool: ten new, hidden bolts, all distinct. */
  method GetBolts(radius: real) returns (bolts: seq<Bolts.Bolt>)
    requires 0.0 < radius
    ensures |bolts| == NumBolts
    ensures forall i :: 0 <= i < |bolts| ==> fresh(bolts[i])
    ensures forall i :: 0 <= i < |bolts| ==> bolts[i].State() == Bolts.Initial() && bolts[i].boundingRadius == radius
    ensures forall i, j :: 0 <= i < j < |bolts| ==> bolts[i] != bolts[j]
  {
    bolts := [];
    var i := 0;
    while i < NumBolts
      invariant 0 <= i <= NumBolts && |bolts| == i
      invariant forall k :: 0 <= k < i ==> fresh(bolts[k])
      invariant forall k :: 0 <= k < i ==> bolts[k].State() == Bolts.Initial() && bolts[k].boundingRadius == radius
      invariant forall k, l :: 0 <= k < l < i ==> bolts[k] != bolts[l]
    {
      var bolt := new Bolts.Bolt(radius);
      bolts := bolts + [bolt];
      i := i + 1;
    }
  }

  /** The rocket group and the closure state of getRocket. */
  class Rocket {
    var directionAngle: real
    var rotationZ: real
    var thrustMag: real
    var thrustDirection: real
    var goalThrustMag: real
    var isThrusting: bool
    var thrustFireVisible: bool
    var isRotatingLeft: bool
    var isRotatingRight: bool
    var isTweening: bool
    var boltIndex: nat
    var position: Vec3
    const bolts: seq<Bolts.Bolt>
    const boltRadius: real
    /** How many times fire has been called. */
    ghost var fireCount: nat

    ghost predicate Valid()
      reads this
    {
      && |bolts| == NumBolts
      && (forall i, j :: 0 <= i < j < |bolts| ==> bolts[i] != bolts[j])
      && (forall i :: 0 <= i < |bolts| ==> bolts[i].boundingRadius == boltRadius)
      && boltIndex == fireCount % NumBolts
    }

    function BoltStates(): seq<Bolts.BoltState>
      reads bolts
    {
      seq(|bolts|, i reads bolts requires 0 <= i < |bolts| => bolts[i].State())
    }

    function State(): RocketState
      reads this, bolts
    {
      RocketState(directionAngle, rotationZ, thrustMag, thrustDirection,
                  goalThrustMag, isThrusting, thrustFireVisible,
                  isRotatingLeft, isRotatingRight, isTweening,
                  boltIndex, position, BoltStates())
    }

    constructor (radius: real)
      requires 0.0 < radius
      ensures Valid() && State() == Initial() && fireCount == 0 && boltRadius == radius
      ensures forall i :: 0 <= i < |bolts| ==> fresh(bolts[i])
    {
      var pool := GetBolts(radius);
      position := Spawn;
      directionAngle := 0.0;
      rotationZ := 0.0;
      goalThrustMag := 0.0;
      isThrusting := false;
      thrustFireVisible := false;
      thrustMag := 0.0;
      thrustDirection := 0.0;
      isRotatingLeft := false;
      isRotatingRight := false;
      bolts := pool;
      boltRadius := radius;
      boltIndex := 0;
      isTweening := false;
      fireCount := 0;
    }

    method RotateLeft(on: bool)
      requires Valid()
      modifies this
      ensures Valid() && fireCount == old(fireCount)
      ensures State() == RotatedLeft(old(State()), on)
    {
      isRotatingLeft := on;
    }

    method RotateRight(on: bool)
      requires Valid()
      modifies this
      ensures Valid() && fireCount == old(fireCount)
      ensures State() == RotatedRight(old(State()), on)
    {
      isRotatingRight := on;
    }

    method Thrust(on: bool)
      requires Valid()
      modifies this
      ensures Valid() && fireCount == old(fireCount)
      ensures State() == Thrusted(old(State()), on)
    {
      isThrusting := on;
      thrustFireVisible := on;
      if on {
        goalThrustMag := goalThrustMag + ThrustStep;
      } else {
        goalThrustMag := 0.0;
      }
    }

    /** Fires the next bolt of the pool and returns it; the k-th call fires slot k mod 10. */
    method Fire() returns (bolt: Bolts.Bolt)
      requires Valid()
      modifies this, bolts
      ensures Valid() && fireCount == old(fireCount) + 1
      ensures State() == Fired(old(State()))
      ensures bolt == bolts[fireCount % NumBolts]
    {
      boltIndex := boltIndex + 1;
      if boltIndex >= |bolts| {
        boltIndex := 0;
      }
      fireCount := fireCount + 1;
      bolt := bolts[boltIndex];
      bolt.Fire(directionAngle);
      assert BoltStates() == old(BoltStates())[boltIndex := Bolts.Fired(directionAngle)];
    }

    method Update(env: MathEnv)
      requires Valid()
      modifies this, bolts
      ensures Valid() && fireCount == old(fireCount)
      ensures State() == Updated(env, old(State()))
    {
      Steer(env);
      Move(env);
      UpdateBolts(env);
    }

    /** The first half of update: turn, filter the thrust magnitude, lock the thrust direction. */
    method Steer(env: MathEnv)
      modifies this`directionAngle, this`rotationZ, this`thrustMag, this`thrustDirection
      ensures directionAngle == Turned(old(State()))
      ensures rotationZ == directionAngle - env.pi * 0.5
      ensures thrustMag == old(thrustMag) - (old(thrustMag) - goalThrustMag) * Decay
      ensures thrustDirection == if isThrusting then directionAngle else old(thrustDirection)
    {
      if isRotatingLeft {
        directionAngle := directionAngle + RotationRate;
      }
      if isRotatingRight {
        directionAngle := directionAngle - RotationRate;
      }
      var direction := directionAngle;
      rotationZ := direction - env.pi * 0.5;
      thrustMag := thrustMag - (thrustMag - goalThrustMag) * Decay;
      if isThrusting {
        thrustDirection := direction;
      }
    }

    /** The second half of update: integrate the position unless tweening, then mirror it. */
    method Move(env: MathEnv)
      modifies this`position
      ensures var m := if isTweening then old(position)
                       else Displaced(env, old(position), thrustDirection, thrustMag);
              position == Vec3(Mirrored(m.x, ScreenX), Mirrored(m.y, ScreenY), m.z)
    {
      if !isTweening {
        position := position.(x := position.x + env.cos(thrustDirection) * thrustMag);
        position := position.(y := position.y + env.sin(thrustDirection) * thrustMag);
      }
      if position.x < -ScreenX || position.x > ScreenX {
        position := position.(x := -position.x);
      }
      if position.y < -ScreenY || position.y > ScreenY {
        position := position.(y := -position.y);
      }
    }

    /** The forEach at the end of update: every bolt of the pool is updated once. */
    method UpdateBolts(env: MathEnv)
      requires Valid()
      modifies bolts
      ensures |BoltStates()| == NumBolts
      ensures forall i :: 0 <= i < NumBolts ==> BoltStates()[i] == Bolts.Advanced(env, old(BoltStates())[i])
    {
      var i := 0;
      while i < |bolts|
        invariant 0 <= i <= |bolts|
        invariant forall j :: 0 <= j < i ==> bolts[j].State() == Bolts.Advanced(env, old(bolts[j].State()))
        invariant forall j :: i <= j < |bolts| ==> bolts[j].State() == old(bolts[j].State())
      {
        bolts[i].Update(env);
        i := i + 1;
      }
    }

    method PlayHitAnimation()
      requires Valid()
      modifies this
      ensures Valid() && fireCount == old(fireCount)
      ensures State() == HitStarted(old(State()))
    {
      if !isTweening {
        thrustMag := 0.0;
        isTweening := true;
      }
    }

    /** The tween's completion callback; it exists only once an animation has started. */
    method CompleteHitAnimation()
      requires Valid() && isTweening
      modifies this
      ensures Valid() && fireCount == old(fireCount)
      ensures State() == HitCompleted(old(State()))
    {
      rotationZ := 0.0;
      position := Spawn;
      isTweening := false;
    }
  }
}
