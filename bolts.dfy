/**
 * One projectile of the rocket (getRocketBolt): hidden until fired, it then flies
 * in a straight line at a fixed speed and hides itself once it leaves the square
 * [-10, 10] x [-10, 10].
 */
module Bolts {
  import opened Geometry

  /** Distance travelled per update. */
  const Speed: real := 0.2
  /** Half the side of the square a bolt may fly in. */
  const Bound: real := 10.0
  /** Where a bolt starts, relative to the rocket: its tip. */
  const Tip: Vec3 := Vec3(0.0, -0.5, 0.0)
  /** Everything about a bolt that its operations read or change. */
  datatype BoltState = BoltState(position: Vec3, rotationZ: real, direction: real, visible: bool)

  /** The square in which a visible bolt stays; its edges belong to it. */
  predicate InBox(p: Vec3)
  {
    -Bound <= p.x <= Bound && -Bound <= p.y <= Bound
  }

  /** A freshly made bolt: hidden, at the tip, not rotated. */
  function Initial(): BoltState
  {
    BoltState(Tip, 0.0, 0.0, false)
  }

  /** A bolt just fired at the given angle; nothing of its earlier state survives. */
  function Fired(angle: real): BoltState
  {
    BoltState(Tip, angle, angle, true)
  }

  /** One update: a hidden bolt stays as it is; a visible one moves and hides beyond the square. */
  function Advanced(env: MathEnv, s: BoltState): (r: BoltState)
    ensures !s.visible ==> r == s
    ensures s.visible ==> r.position == Displaced(env, s.position, s.direction, Speed)
    ensures r.direction == s.direction && r.rotationZ == s.rotationZ
    ensures r.visible <==> s.visible && InBox(r.position)
  {
    if !s.visible then s
    else
      var p := Displaced(env, s.position, s.direction, Speed);
      if p.x > Bound || p.x < -Bound || p.y > Bound || p.y < -Bound then
        s.(position := p, visible := false)
      else
        s.(position := p)
  }

  /** n updates in a row. */
  function AdvancedN(env: MathEnv, s: BoltState, n: nat): BoltState
    decreases n
  {
    if n == 0 then s else Advanced(env, AdvancedN(env, s, n - 1))
  }

  /** What can happen to a bolt: its fire, its update, or being hidden by a hit. */
  datatype Event = Fire(angle: real) | Step(env: MathEnv) | Hide

  function Apply(s: BoltState, e: Event): BoltState
  {
    match e
    case Fire(a) => Fired(a)
    case Step(env) => Advanced(env, s)
    case Hide => s.(visible := false)
  }

  function Run(s: BoltState, events: seq<Event>): BoltState
    decreases |events|
  {
    if events == [] then s else Run(Apply(s, events[0]), events[1..])
  }

  /** Firing forgets the bolt's history: the result does not depend on the earlier state. */
  lemma FireResets(s: BoltState, t: BoltState, angle: real)
    ensures Apply(s, Fire(angle)) == Apply(t, Fire(angle))
    ensures Apply(s, Fire(angle)).visible && Apply(s, Fire(angle)).position == Tip
  {
  }

  /** Once hidden, a bolt stays hidden whatever updates and hits follow, until it is fired. */
  lemma {:induction false} HiddenUntilFired(s: BoltState, events: seq<Event>)
    requires !s.visible
    requires forall i :: 0 <= i < |events| ==> !events[i].Fire?
    ensures !Run(s, events).visible
    decreases |events|
  {
    if events != [] {
      var rest := events[1..];
      assert forall i :: 0 <= i < |rest| ==> rest[i] == events[i + 1];
      HiddenUntilFired(Apply(s, events[0]), rest);
    }
  }

  /** Any number of updates leaves a hidden bolt exactly as it was. */
  lemma {:induction false} HiddenBoltFrozen(env: MathEnv, s: BoltState, n: nat)
    requires !s.visible
    ensures AdvancedN(env, s, n) == s
    decreases n
  {
    if n > 0 {
      HiddenBoltFrozen(env, s, n - 1);
    }
  }

  /**
   * With cos 0 = 1 and sin 0 = 0, a bolt fired at angle 0 is, after n <= 50 updates,
   * still visible at x = 0.2 n: reaching x = 10 exactly does not hide it.
   */
  lemma {:induction false} StraightFlight(env: MathEnv, n: nat)
    requires env.cos(0.0) == 1.0 && env.sin(0.0) == 0.0
    requires n <= 50
    ensures AdvancedN(env, Fired(0.0), n) == BoltState(Vec3(Speed * n as real, -0.5, 0.0), 0.0, 0.0, true)
    decreases n
  {
    if n > 0 {
      StraightFlight(env, n - 1);
    }
  }

  /** The same bolt is hidden by its 51st update, at x = 10.2. */
  lemma HiddenAfter51(env: MathEnv)
    requires env.cos(0.0) == 1.0 && env.sin(0.0) == 0.0
    ensures AdvancedN(env, Fired(0.0), 51).position.x == 10.2
    ensures !AdvancedN(env, Fired(0.0), 51).visible
  {
    StraightFlight(env, 50);
    assert AdvancedN(env, Fired(0.0), 51) == Advanced(env, AdvancedN(env, Fired(0.0), 50));
  }

  /** The mesh of one bolt; `visible`, `position` and `rotationZ` are three.js properties. */
  class Bolt {
    var position: Vec3
    var rotationZ: real
    var direction: real
    var visible: bool
    const boundingRadius: real

    function State(): BoltState
      reads this
    {
      BoltState(position, rotationZ, direction, visible)
    }

    /**
     * The game passes half the diagonal of the 0.04 x 0.4 x 0.04 box, the square root
     * of 0.0408; the model takes any positive radius.
     */
    constructor (radius: real)
      requires 0.0 < radius
      ensures State() == Initial() && boundingRadius == radius
    {
      position := Tip;
      rotationZ := 0.0;
      visible := false;
      boundingRadius := radius;
      direction := 0.0;
    }

    method Update(env: MathEnv)
      modifies this
      ensures State() == Advanced(env, old(State()))
    {
      if visible {
        position := position.(x := position.x + env.cos(direction) * Speed);
        position := position.(y := position.y + env.sin(direction) * Speed);
        if position.x > Bound || position.x < -Bound || position.y > Bound || position.y < -Bound {
          visible := false;
        }
      }
    }

    method Fire(angle: real)
      modifies this
      ensures State() == Fired(angle)
    {
      visible := true;
      direction := angle;
      rotationZ := angle;
      position := Tip;
    }
  }
}
