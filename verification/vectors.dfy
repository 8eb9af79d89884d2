/**
 The three-component vector arithmetic of `THREE.Vector3` that the mesh
 metrics and the camera framing use, over exact reals.

 `Math.sqrt` (behind `Vector3.length()`) cannot be computed over the reals, so
 `Sqrt` is an uninterpreted function: the only facts the model knows about it
 are that it is never negative and that the root of zero is zero.
 */
module Vectors {

  datatype Vec3 = Vec3(x: real, y: real, z: real)

  const Zero := Vec3(0.0, 0.0, 0.0)

  function Add(u: Vec3, v: Vec3): Vec3 {
    Vec3(u.x + v.x, u.y + v.y, u.z + v.z)
  }

  /** `u.sub(v)` */
  function Sub(u: Vec3, v: Vec3): Vec3 {
    Vec3(u.x - v.x, u.y - v.y, u.z - v.z)
  }

  function Scale(v: Vec3, s: real): Vec3 {
    Vec3(s * v.x, s * v.y, s * v.z)
  }

  /** `u.dot(v)` */
  function Dot(u: Vec3, v: Vec3): real {
    u.x * v.x + u.y * v.y + u.z * v.z
  }

  /** `new Vector3().crossVectors(u, v)` */
  function Cross(u: Vec3, v: Vec3): Vec3 {
    Vec3(u.y * v.z - u.z * v.y,
         u.z * v.x - u.x * v.z,
         u.x * v.y - u.y * v.x)
  }

  function Abs(r: real): (a: real)
    ensures a >= 0.0
    ensures a == r || a == -r
  {
    if r < 0.0 then -r else r
  }

  /** `Math.max(a, b, c)` on non-NaN arguments */
  function Max3(a: real, b: real, c: real): (m: real)
    ensures m >= a && m >= b && m >= c
    ensures m == a || m == b || m == c
  {
    if a >= b && a >= c then a else if b >= c then b else c
  }

  /** `Math.sqrt`, uninterpreted apart from the two facts below. */
  ghost function Sqrt(r: real): (s: real)
    ensures s >= 0.0
    ensures r == 0.0 ==> s == 0.0
  {
    var s: real :| s >= 0.0 && (r == 0.0 ==> s == 0.0); s
  }

  /** `v.length()` */
  ghost function Length(v: Vec3): (l: real)
    ensures l >= 0.0
    ensures v == Zero ==> l == 0.0
  {
    Sqrt(Dot(v, v))
  }

  /** The cross product is anti-commutative. */
  lemma CrossAntiCommutes(u: Vec3, v: Vec3)
    ensures Cross(v, u) == Scale(Cross(u, v), -1.0)
  {
  }

  /** Parallel vectors have a zero cross product; in particular `u × u = 0`. */
  lemma CrossParallel(u: Vec3, s: real)
    ensures Cross(u, Scale(u, s)) == Zero
    ensures Cross(Scale(u, s), u) == Zero
  {
  }

  /** Negating a vector does not change its length. */
  lemma LengthOfNegation(v: Vec3)
    ensures Length(Scale(v, -1.0)) == Length(v)
  {
    assert Dot(Scale(v, -1.0), Scale(v, -1.0)) == Dot(v, v);
  }
}
