/**
 The camera placement computed after a model is loaded, identical in
 `updateScene` and in the viewer's load callback: the camera looks at the
 bounding box's centre from a point in front of it, at a distance set by an
 empirical heuristic `5 · |maxDim / 2 · tan(2 · fov)|`.

 The bounding box (`Box3.setFromObject`) is an input. `Math.tan` is
 uninterpreted apart from `tan(0) = 0` and its sign between 0 and π: its
 value may differ from argument to argument, but the model knows nothing
 else about it.
 */
module Framing {
  import opened Vectors

  /** An axis-aligned bounding box. */
  datatype Box3 = Box3(min: Vec3, max: Vec3)

  /** `box.getSize(...)` */
  function Size(b: Box3): (s: Vec3)
    ensures Add(b.min, s) == b.max
  {
    Sub(b.max, b.min)
  }

  /** `box.getCenter(...)`: halfway between the corners. */
  function Center(b: Box3): (c: Vec3)
    ensures c == Add(b.min, Scale(Size(b), 0.5))
    ensures Sub(c, b.min) == Sub(b.max, c)
  {
    Scale(Add(b.min, b.max), 0.5)
  }

  function Translate(b: Box3, t: Vec3): Box3 {
    Box3(Add(b.min, t), Add(b.max, t))
  }

  /** `Math.PI` */
  const Pi: real := 3.141592653589793

  /** What the model knows about `t = tan(r)`: `tan(0) = 0`, and its sign on
      the first two quarter turns. */
  predicate TanFacts(r: real, t: real) {
    && (r == 0.0 ==> t == 0.0)
    && (0.0 < r < Pi / 2.0 ==> t > 0.0)
    && (Pi / 2.0 < r < Pi ==> t < 0.0)
  }

  /** `Math.tan`, uninterpreted apart from `TanFacts`. */
  ghost function Tan(r: real): (t: real)
    ensures TanFacts(r, t)
  {
    assert TanFacts(r, if 0.0 < r < Pi / 2.0 then 1.0 else if Pi / 2.0 < r < Pi then -1.0 else 0.0);
    var t: real :| TanFacts(r, t); t
  }

  /** Where the camera sits, the point it looks at, and the orbit-controls target. */
  datatype Placement = Placement(position: Vec3, lookAt: Vec3, target: Vec3)

  /** The camera's distance from the box along z: `cameraZ * 5`. */
  ghost function CameraDistance(size: Vec3, fovDegrees: real): (z: real)
    ensures z >= 0.0
    ensures Max3(size.x, size.y, size.z) == 0.0 ==> z == 0.0
  {
    var maxDim := Max3(size.x, size.y, size.z);
    var fov := fovDegrees * (Pi / 180.0);
    var cameraZ := Abs(maxDim / 2.0 * Tan(fov * 2.0));
    cameraZ * 5.0
  }

  /** The camera's z depends on the box only through its largest extent. */
  lemma CameraDistanceDependsOnlyOnMaxDim(s1: Vec3, s2: Vec3, fovDegrees: real)
    requires Max3(s1.x, s1.y, s1.z) == Max3(s2.x, s2.y, s2.z)
    ensures CameraDistance(s1, fovDegrees) == CameraDistance(s2, fovDegrees)
  {
  }

  lemma AbsOfProduct(m: real, x: real)
    ensures Abs(m * x) == Abs(m) * Abs(x)
  {
  }

  /** For a fixed field of view the camera's z is proportional to the box's
      largest extent: it is `|maxDim|` times the z for the unit cube. */
  lemma CameraDistanceIsLinearInMaxDim(size: Vec3, fovDegrees: real)
    ensures CameraDistance(size, fovDegrees)
         == Abs(Max3(size.x, size.y, size.z)) * CameraDistance(Vec3(1.0, 1.0, 1.0), fovDegrees)
  {
    var m := Max3(size.x, size.y, size.z);
    var t := Tan(fovDegrees * (Pi / 180.0) * 2.0);
    assert Max3(1.0, 1.0, 1.0) == 1.0;
    assert m / 2.0 * t == m * (1.0 / 2.0 * t);
    AbsOfProduct(m, 1.0 / 2.0 * t);
  }

  /** Unless `tan(2 · fov)` is 0 or undefined (fov a multiple of 45 degrees),
      a box with a non-zero extent puts the camera strictly in front of it. */
  lemma CameraDistanceIsPositive(size: Vec3, fovDegrees: real)
    requires Max3(size.x, size.y, size.z) != 0.0
    requires 0.0 < fovDegrees < 45.0 || 45.0 < fovDegrees < 90.0
    ensures CameraDistance(size, fovDegrees) > 0.0
  {
    var r := fovDegrees * (Pi / 180.0) * 2.0;
    assert 0.0 < r < Pi / 2.0 || Pi / 2.0 < r < Pi;
    assert Tan(r) != 0.0;
    AbsOfProduct(Max3(size.x, size.y, size.z) / 2.0, Tan(r));
  }

  /** The camera framing of `box` for a camera with the given vertical field
      of view in degrees. */
  ghost function Frame(box: Box3, fovDegrees: real): (p: Placement)
    ensures p.lookAt == Center(box)
    ensures p.target == Center(box)
    ensures p.position.x == Center(box).x
    ensures p.position.y == Center(box).y - Size(box).y / 4.0
    ensures p.position.z >= 0.0
  {
    var center := Center(box);
    var size := Size(box);
    Placement(Vec3(center.x, center.y - size.y / 4.0, CameraDistance(size, fovDegrees)),
              center, center)
  }

  /** Translating the box by `t` moves the look-at point and target by `t` and
      the camera by `t` in x and y; the camera's z does not move, because it
      depends only on the box's size and the field of view. */
  lemma FrameTranslation(box: Box3, t: Vec3, fovDegrees: real)
    ensures Size(Translate(box, t)) == Size(box)
    ensures Center(Translate(box, t)) == Add(Center(box), t)
    ensures Frame(Translate(box, t), fovDegrees).lookAt == Add(Frame(box, fovDegrees).lookAt, t)
    ensures Frame(Translate(box, t), fovDegrees).target == Add(Frame(box, fovDegrees).target, t)
    ensures Frame(Translate(box, t), fovDegrees).position.x == Frame(box, fovDegrees).position.x + t.x
    ensures Frame(Translate(box, t), fovDegrees).position.y == Frame(box, fovDegrees).position.y + t.y
    ensures Frame(Translate(box, t), fovDegrees).position.z == Frame(box, fovDegrees).position.z
  {
    var moved := Translate(box, t);
    assert Size(moved) == Size(box);
    assert Center(moved) == Add(Center(box), t);
  }

  /** With a zero field of view the camera sits in the plane z = 0, since
      `tan(0) = 0`. */
  lemma ZeroFieldOfViewCollapsesDistance(box: Box3)
    ensures Frame(box, 0.0).position.z == 0.0
  {
  }

  /** Two boxes of the same size put the camera at the same z, wherever they are. */
  lemma FrameDistanceDependsOnlyOnSize(b1: Box3, b2: Box3, fovDegrees: real)
    requires Size(b1) == Size(b2)
    ensures Frame(b1, fovDegrees).position.z == Frame(b2, fovDegrees).position.z
  {
  }

  /** The placement is not guarded against a box that has collapsed to a point:
      the camera then sits at z = 0, on the target itself when the point lies
      in the plane z = 0. */
  lemma DegenerateBoxIsNotGuarded(p: Vec3, fovDegrees: real)
    ensures Frame(Box3(p, p), fovDegrees).position == Vec3(p.x, p.y, 0.0)
    ensures p.z == 0.0 ==> Frame(Box3(p, p), fovDegrees).position == Frame(Box3(p, p), fovDegrees).lookAt
  {
    assert Size(Box3(p, p)) == Zero;
    assert Center(Box3(p, p)) == p;
  }
}
