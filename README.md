# Rocket game: rocket, bolt pool and collision step

This project models the game-state logic of a small three.js arcade game and proves
properties about it in Dafny. The player's rocket turns, thrusts and fires bolts at a
saucer. The model covers:

- **Bolts** (`bolts.dfy`, from `src/getRocketBolt.js`): one bolt. It is hidden until it
  is fired. After that it moves `(cos d, sin d) * 0.2` per update. It hides itself when
  it leaves the square [-10, 10] x [-10, 10], and the edges belong to the square.
- **Rockets** (`rockets.dfy`, from `src/getRocket.js`): the rocket as a class.
  - Its state is the heading, thrust magnitude, thrust goal, thrust direction, the two
    rotate flags, the hit-animation flag, the position and the pool index.
  - It owns a pool of ten bolts and fires them round-robin.
  - `update` turns the rocket and low-pass filters the thrust magnitude toward the goal.
    It then integrates the position unless the hit animation runs, negates any
    coordinate beyond (5.5, 4), and updates every bolt.
  - The hit animation is modelled as two events, its start and its completion.
- **Game** (`game.dfy`, from `src/main.js`): the collision test, and the part of
  `animate` that moves the game. First the rocket is updated. Then every bolt is updated
  a second time, tested against the saucer, and hidden on a hit.

`geometry.dfy` holds the points and `MathEnv`. `MathEnv` carries `Math.cos`, `Math.sin`
and `Math.PI` as values. The model builds in no property of them: one step of length k
along the angle d moves a point by `(cos d, sin d) * k`, whatever cos and sin are. The
two lemmas about a bolt fired at heading 0 (`Bolts.StraightFlight`, `Bolts.HiddenAfter51`)
take cos 0 = 1 and sin 0 = 0 as preconditions; no other lemma needs a value of them.
Each class has a pure state function, `Bolt.State()` or `Rocket.State()`. Each method
that models one of the game's operations (construction, fire, thrust, the rotations,
update, the hit animation's start and completion, a bolt's fire and update) proves its
new state equal to a specification function of the old state. The helpers that make up
`Rocket.Update` (`Steer`, `Move`, `UpdateBolts`) state their part field by field, and
`GetBolts` states the pool it builds. The lemmas then state the game's properties about
the specification functions.

Positions and angles are `real`, an exact stand-in for the game's doubles. The
distance test `distance < r1 + r2` is written without a square root. It holds when
`0 < r1 + r2` and the squared distance is below `(r1 + r2)^2`.
`Game.CollidesIffCloser` proves this equals the test on the true distance.

Three behaviours of the code differ from what a reader of the game might expect, and the
model follows the code in each:

- Hidden bolts are not excluded from collision tests. The loop in
  `animate` tests every bolt of the pool, hidden or not. A bolt hidden by a hit stays
  where it was in the rocket's frame. The next frame calls `handleCollision` for it again
  whenever its world position still overlaps the saucer; in particular it does when
  neither the saucer nor the rocket's transform has changed (`Game.HiddenBoltHitsAgain`).
- A bolt fired at heading 0 from x = 0 does not hide after
  ceil(10 / 0.2) = 50 updates. The code hides it only beyond 10, and x = 10 is reached
  on update 50. So it hides on update 51 (`Bolts.StraightFlight`, `Bolts.HiddenAfter51`).
- The pool is not updated once per frame. `animate` updates each
  bolt twice: once inside the rocket's `update` and once in its own loop
  (`Game.TwoStepsPerFrame`).

## Model

| member | source | states |
|---|---|---|
| `Bolts.Bolt.constructor` | src/getRocketBolt.js:13-19 | a new bolt is hidden, at the tip (0, -0.5, 0), with rotation 0, and keeps the positive bounding radius it is given |
| `Bolts.Advanced` | src/getRocketBolt.js:21-36 | a hidden bolt is unchanged; a visible one moves by (cos d, sin d) * 0.2; direction and rotation never change; afterwards the bolt is visible iff it was visible and lies in [-10, 10]² (so exactly ±10 keeps it visible) |
| `Bolts.Bolt.Update` | src/getRocketBolt.js:21-36 | the bolt's new state is `Advanced` of its old state |
| `Bolts.Bolt.Fire` | src/getRocketBolt.js:41-47 | the bolt becomes visible, with direction and rotation equal to the angle and position reset to the tip |
| `Bolts.FireResets` | src/getRocketBolt.js:41-47 | the state after fire does not depend on the state before it |
| `Bolts.HiddenUntilFired` | src/getRocketBolt.js:21-47 | a hidden bolt stays hidden through any sequence of updates and hits that contains no fire |
| `Bolts.HiddenBoltFrozen` | src/getRocketBolt.js:21-22 | any number of updates leaves a hidden bolt exactly as it was |
| `Bolts.StraightFlight` | src/getRocketBolt.js:23-38 | with cos 0 = 1 and sin 0 = 0, a bolt fired at angle 0 is still visible at (0.2 n, -0.5, 0) after n <= 50 updates |
| `Bolts.HiddenAfter51` | src/getRocketBolt.js:27-34 | that bolt is hidden by its 51st update, at x = 10.2 |
| `Rockets.GetBolts` | src/getRocket.js:9-19 | the pool holds ten new, distinct bolts, each in the initial bolt state |
| `Rockets.Rocket.constructor` | src/getRocket.js:21-83 | the rocket starts at (-3, 0, 0) with heading, thrust, goal and rotation 0, all flags false, pool index 0 and ten hidden bolts |
| `Rockets.InitialWf` | src/getRocket.js:82-83 | the initial state has ten bolts, all hidden, and pool index 0 |
| `Rockets.NextSlot` | src/getRocket.js:86-89 | the increment with reset at the pool size equals (index + 1) mod size, and it stays below the size |
| `Rockets.Fired` | src/getRocket.js:85-94 | the pool index becomes (index + 1) mod 10; the bolt in that slot is fired at the rocket's heading; every other bolt and every other field is unchanged |
| `Rockets.Rocket.Fire` | src/getRocket.js:85-94 | the new state is `Fired` of the old one; the returned bolt is the one in slot (number of fires so far) mod 10 |
| `Rockets.RoundRobin` | src/getRocket.js:83-90 | after k fires the pool index is (index + k) mod 10 |
| `Rockets.KthFireSlot` | src/getRocket.js:83-93 | the k-th fire after construction fires slot k mod 10 (the first fire uses slot 1), and only that slot changes |
| `Rockets.ThrustCompounds` | src/getRocket.js:71-79 | k calls of thrust(true) raise the goal by 0.05 k and set the thrust flag and the flame's visibility; nothing else changes |
| `Rockets.ThrustOffResets` | src/getRocket.js:71-79 | thrust(false) sets the goal to exactly 0 and clears the thrust flag and the flame's visibility |
| `Rockets.Rocket.Thrust` | src/getRocket.js:71-79 | the new state is `Thrusted` of the old one |
| `Rockets.RotateSetsOnlyFlag` | src/getRocket.js:62-69 | rotateLeft and rotateRight set their own flag and change nothing else |
| `Rockets.Rocket.RotateLeft` | src/getRocket.js:62-65 | the new state is `RotatedLeft` of the old one |
| `Rockets.Rocket.RotateRight` | src/getRocket.js:67-69 | the new state is `RotatedRight` of the old one |
| `Rockets.Updated` | src/getRocket.js:98-128 | with both rotate flags set (or neither) the heading is unchanged, otherwise it moves by ±0.05; rotation.z is heading - π/2; the gap to the goal shrinks to 0.99 of itself; the thrust direction becomes the new heading only while thrusting; every bolt is advanced once; the goal, flags, tween flag and pool index are unchanged |
| `Rockets.Rocket.Update` | src/getRocket.js:98-128 | the new state is `Updated` of the old one |
| `Rockets.Rocket.Steer` | src/getRocket.js:99-110 | heading turned by the flags, rotation.z, filtered thrust magnitude, thrust direction locked to the heading while thrusting |
| `Rockets.Rocket.UpdateBolts` | src/getRocket.js:127 | every bolt of the pool is advanced exactly once, each by its own `Advanced`, and the pool keeps ten bolts |
| `Rockets.Rocket.Move` | src/getRocket.js:111-126 | the position is integrated unless tweening, then each coordinate beyond its bound is negated |
| `Rockets.PositionStep` | src/getRocket.js:111-126 | the position moves only when not tweening; mirroring keeps each coordinate's magnitude; a coordinate inside its bound is kept and one beyond it is negated; a negated coordinate is still beyond the bound, so this is not a modulo wrap |
| `Rockets.ThrustNeverOvershoots` | src/getRocket.js:107 | the thrust magnitude moves toward the goal and never past it; the distance to the goal becomes exactly 0.99 of what it was |
| `Rockets.ThrustConverges` | src/getRocket.js:107 | after n updates the goal is unchanged and thrustMag - goal = 0.99ⁿ (thrustMag₀ - goal) |
| `Rockets.TweeningHoldsPosition` | src/getRocket.js:111-126 | while tweening, any number of updates keep the tween flag and keep \|x\|, \|y\| and z of the position |
| `Rockets.HitStartIdempotent` | src/getRocket.js:132-136 | whenever an animation is already running the call is a no-op, whatever the state; otherwise it sets the tween flag, zeroes the thrust magnitude and changes nothing else; hence a second start right after the first changes nothing |
| `Rockets.Rocket.PlayHitAnimation` | src/getRocket.js:132-147 | the new state is `HitStarted` of the old one |
| `Rockets.HitCompleted` | src/getRocket.js:140-144 | on completion the position is (-3, 0, 0), rotation.z is 0 and the tween flag is cleared; nothing else changes |
| `Rockets.Rocket.CompleteHitAnimation` | src/getRocket.js:140-144 | the new state is `HitCompleted` of the old one |
| `Rockets.HiddenBoltsStayHidden` | src/getRocket.js:62-147 | a hidden bolt stays hidden through thrust, rotate, update and both hit-animation events, and through a fire that uses another slot |
| `Game.Collides` | src/main.js:87-102 | checkCollision holds when the squared distance is below (r1 + r2)² with r1 + r2 > 0 (its exact meaning is `Game.CollidesIffCloser`); a collision implies that the two positions are closer than r1 + r2 along each of the three axes |
| `Game.CollidesIffCloser` | src/main.js:87-102 | for the true distance d, the test holds iff d < r1 + r2; equal distance is a miss |
| `Game.CollidesSymmetric` | src/main.js:96 | the test gives the same answer with the two positions swapped |
| `Game.HitSlotsExact` | src/main.js:130-137 | handleCollision is called for slot i exactly when bolt i overlaps the saucer after its update, visible or not; the slots come in increasing order |
| `Game.HitHidesThatBolt` | src/main.js:114-137 | after the loop, each bolt is its updated state, hidden exactly when its slot was hit; a hit changes no other bolt |
| `Game.HiddenBoltHitsAgain` | src/main.js:127-137 | a bolt hidden by a hit keeps its local position through the next frame's two updates; that frame reports it again exactly when it overlaps the saucer under the next frame's world map and saucer, and so certainly when its world position and the saucer are unchanged |
| `Game.TwoStepsPerFrame` | src/main.js:127-131 | in one frame a visible bolt that stays in the square moves twice: by 2 × (cos d, sin d) × 0.2 |
| `Game.AnimateBolts` | src/main.js:130-137 | each bolt's new state is its update followed by hiding on a hit; the hit slots are returned in pool order |
| `Game.Animate` | src/main.js:121-137 | one frame is the rocket's `Updated` followed by the bolt loop over the updated pool |

## Left out

- Rendering is not modelled: the scene, renderer, camera, lights, orbit controls, GLTF
  loading and the loading manager. None of them holds game state.
- The keyboard and pointer listeners are not modelled. They only call `rotateLeft`,
  `rotateRight`, `thrust` and `fire`, which are modelled.
- The success message and its `setTimeout` are not modelled. Console logging is left out.
- The tween.js spin is left out: 12π over 2000 ms, with linear easing and wall-clock time.
  Only its start (`PlayHitAnimation`) and its completion (`CompleteHitAnimation`) are
  events. Rotation values in between are not modelled, and neither is the time at which
  completion comes. Only rotation.z is kept; rotation.x and rotation.y are 0 throughout.
- `getWorldPosition` is a parameter `toWorld` of the frame step. It maps a bolt's local
  position to its world position through the rocket group's transform in that frame.
  The scene-graph math behind it is not modelled.
- The saucer (`getSaucer.js`) is not part of this model. The frame step sees it as a
  world position and a radius that do not change during the bolt loop.
  `saucer.userData.update(t)` and its own `playHitAnimation` are outside the model. Each
  call of `handleCollision` is recorded as a slot number in the list the frame step
  returns.
- The starfield (`getStarfield.js`) and `vite.config.js` are not part of this model.
- Bolt colour (`Math.random` hue), geometry and materials are not modelled.
- `Bolts.Bolt.constructor`, `Rockets.GetBolts`, `Rockets.Rocket.constructor`: the bolt's
  bounding radius is not computed with `Math.sqrt`. It is a constructor argument that is
  only required to be positive. The game's value, the square root of
  (0.04² + 0.4² + 0.04²) / 4 = 0.0408, is irrational, so no Dafny caller could supply it
  exactly; no proof depends on its value.
- The rocket's mesh, scale, collision sphere and flame geometry are not modelled. The
  flame is kept only as a visibility flag. The rocket's own radius 0.18 is left out,
  because no collision test in the frame loop uses it.
- `goalThrustMag` and `isThrusting` are module-level variables in the source. Here they
  are fields of the one `Rocket`. Sharing them between several rockets is not modelled;
  the game creates only one rocket.
- The `undefined` branch of `fire` (`curBolt?.`) is not modelled, because the pool always
  holds ten bolts.
- Floating-point rounding is not modelled; reals are exact.
