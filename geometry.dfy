/** Points of the three.js scene and the parts of JavaScript's Math object the game uses. */
module Geometry {

  /** A position or offset in the scene. Reals stand in for JavaScript doubles, without rounding. */
  datatype Vec3 = Vec3(x: real, y: real, z: real)

  /**
   * Math.cos, Math.sin and Math.PI. The model builds in no property of them: every
   * operation that needs them receives the environment as a parameter, and a lemma
   * that needs a value of them states it as a precondition.
   */
  datatype MathEnv = MathEnv(cos: real -> real, sin: real -> real, pi: real)

  /** p moved in the plane by k along the angle d, that is by (cos d, sin d) * k; z stays. */
  function Displaced(env: MathEnv, p: Vec3, d: real, k: real): Vec3
  {
    Vec3(p.x + env.cos(d) * k, p.y + env.sin(d) * k, p.z)
  }

  function Abs(r: real): real
  {
    if r < 0.0 then -r else r
  }
}
