/**
 `calculateMeshProperties`: surface area and enclosed volume of one triangle
 mesh, walked either through its index buffer or as consecutive runs of nine
 floats. Each triangle (A, B, C) adds `|(B - A) × (C - A)| / 2` to the area and
 the signed tetrahedron volume `A · ((B - A) × (C - A)) / 6` to the volume; the
 reported volume is the absolute value of the signed total.
 */
module MeshProperties {
  import opened Wrappers
  import opened Vectors

  /** A `BufferGeometry`: a flat position array (three floats per vertex) and
      an optional index buffer. */
  datatype Geometry = Geometry(position: seq<real>, index: Option<seq<nat>>)

  datatype Triangle = Triangle(a: Vec3, b: Vec3, c: Vec3)

  /** The object `calculateMeshProperties` returns. */
  datatype Metrics = Metrics(area: real, volume: real)

  /** `position.count`: the number of vertices in a position buffer. */
  function VertexCount(buf: seq<real>): nat {
    |buf| / 3
  }

  /** `new Vector3().fromArray(buf, offset)` */
  function VertexAt(buf: seq<real>, offset: nat): Vec3
    requires offset + 3 <= |buf|
  {
    Vec3(buf[offset], buf[offset + 1], buf[offset + 2])
  }

  /** Every index names a vertex of the buffer. */
  predicate IndicesInRange(buf: seq<real>, idx: seq<nat>) {
    forall i :: 0 <= i < |idx| ==> idx[i] < VertexCount(buf)
  }

  /** The buffers read by `calculateMeshProperties` stay in bounds, so no
      `undefined` (and hence no NaN) enters the sums. */
  predicate Valid(g: Geometry) {
    && |g.position| % 3 == 0
    && match g.index
       case Some(idx) => |idx| % 3 == 0 && IndicesInRange(g.position, idx)
       case None => |g.position| % 9 == 0
  }

  /** The triangles the indexed loop visits, three indices per step. */
  function IndexedTriangles(buf: seq<real>, idx: seq<nat>): (ts: seq<Triangle>)
    requires |idx| % 3 == 0 && IndicesInRange(buf, idx)
    ensures |ts| == |idx| / 3
    ensures forall k :: 0 <= k < |ts| ==>
      ts[k] == Triangle(VertexAt(buf, 3 * idx[3 * k]),
                        VertexAt(buf, 3 * idx[3 * k + 1]),
                        VertexAt(buf, 3 * idx[3 * k + 2]))
    decreases |idx|
  {
    if |idx| == 0 then []
    else
      var rest := IndexedTriangles(buf, idx[3..]);
      var ts := [Triangle(VertexAt(buf, 3 * idx[0]), VertexAt(buf, 3 * idx[1]), VertexAt(buf, 3 * idx[2]))] + rest;
      assert forall k :: 1 <= k < |ts| ==> ts[k] == rest[k - 1] && idx[3..][3 * (k - 1)] == idx[3 * k];
      ts
  }

  /** The triangles the non-indexed loop visits, nine floats per step. */
  function NonIndexedTriangles(buf: seq<real>): (ts: seq<Triangle>)
    requires |buf| % 9 == 0
    ensures |ts| == |buf| / 9
    ensures forall k :: 0 <= k < |ts| ==>
      ts[k] == Triangle(Vec3(buf[9 * k], buf[9 * k + 1], buf[9 * k + 2]),
                        Vec3(buf[9 * k + 3], buf[9 * k + 4], buf[9 * k + 5]),
                        Vec3(buf[9 * k + 6], buf[9 * k + 7], buf[9 * k + 8]))
    decreases |buf|
  {
    if |buf| == 0 then []
    else
      var rest := NonIndexedTriangles(buf[9..]);
      var ts := [Triangle(VertexAt(buf, 0), VertexAt(buf, 3), VertexAt(buf, 6))] + rest;
      assert forall k :: 1 <= k < |ts| ==> ts[k] == rest[k - 1];
      ts
  }

  /** The triangles of a geometry, by whichever branch applies. */
  function Triangles(g: Geometry): seq<Triangle>
    requires Valid(g)
  {
    match g.index
    case Some(idx) => IndexedTriangles(g.position, idx)
    case None => NonIndexedTriangles(g.position)
  }

  /** `(B - A) × (C - A)`, twice the triangle's vector area. */
  function Normal(t: Triangle): Vec3 {
    Cross(Sub(t.b, t.a), Sub(t.c, t.a))
  }

  ghost function TriangleArea(t: Triangle): real {
    Length(Normal(t)) / 2.0
  }

  /** Signed volume of the tetrahedron spanned by the origin and the triangle. */
  function TetraVolume(t: Triangle): real {
    Dot(t.a, Normal(t)) / 6.0
  }

  /** `totalArea` after the loop has visited every triangle of `ts`. */
  ghost function AreaSum(ts: seq<Triangle>): (s: real)
    ensures s >= 0.0
    ensures |ts| == 0 ==> s == 0.0
  {
    if |ts| == 0 then 0.0 else AreaSum(ts[..|ts| - 1]) + TriangleArea(ts[|ts| - 1])
  }

  /** `totalVolume` after the loop has visited every triangle of `ts`. */
  function SignedVolume(ts: seq<Triangle>): real {
    if |ts| == 0 then 0.0 else SignedVolume(ts[..|ts| - 1]) + TetraVolume(ts[|ts| - 1])
  }

  /** `calculateMeshProperties(geometry)` */
  ghost function Measure(g: Geometry): (m: Metrics)
    requires Valid(g)
    ensures m.area == AreaSum(Triangles(g)) && m.area >= 0.0
    ensures m.volume >= 0.0
    ensures m.volume == SignedVolume(Triangles(g)) || m.volume == -SignedVolume(Triangles(g))
  {
    var ts := Triangles(g);
    Metrics(AreaSum(ts), Abs(SignedVolume(ts)))
  }

  /** `(u - v) × w = u × w - v × w` */
  lemma CrossSubLeft(u: Vec3, v: Vec3, w: Vec3)
    ensures Cross(Sub(u, v), w) == Sub(Cross(u, w), Cross(v, w))
  {
  }

  /** `u × (v - w) = u × v - u × w` */
  lemma CrossSubRight(u: Vec3, v: Vec3, w: Vec3)
    ensures Cross(u, Sub(v, w)) == Sub(Cross(u, v), Cross(u, w))
  {
  }

  /** `(B - A) × (C - A) = B × C - B × A - A × C`, by bilinearity. */
  lemma CrossOfDifferences(a: Vec3, b: Vec3, c: Vec3)
    ensures Cross(Sub(b, a), Sub(c, a)) == Sub(Sub(Cross(b, c), Cross(b, a)), Cross(a, c))
  {
    CrossSubLeft(b, a, Sub(c, a));
    CrossSubRight(b, c, a);
    CrossSubRight(a, c, a);
    assert Cross(a, a) == Zero;
  }

  lemma DotOfDifference(a: Vec3, u: Vec3, v: Vec3)
    ensures Dot(a, Sub(u, v)) == Dot(a, u) - Dot(a, v)
  {
  }

  /** A triple product with a repeated vector vanishes. */
  lemma RepeatedTripleProduct(a: Vec3, b: Vec3)
    ensures Dot(a, Cross(b, a)) == 0.0
    ensures Dot(a, Cross(a, b)) == 0.0
  {
  }

  /** The per-triangle volume term is the scalar triple product `A · (B × C) / 6`. */
  lemma TetraVolumeIsTripleProduct(t: Triangle)
    ensures TetraVolume(t) == Dot(t.a, Cross(t.b, t.c)) / 6.0
  {
    var a, b, c := t.a, t.b, t.c;
    CrossOfDifferences(a, b, c);
    DotOfDifference(a, Sub(Cross(b, c), Cross(b, a)), Cross(a, c));
    DotOfDifference(a, Cross(b, c), Cross(b, a));
    RepeatedTripleProduct(a, b);
    RepeatedTripleProduct(a, c);
  }

  /** The volume as a plain sum of triple products, first triangle first. */
  function TripleProductSum(ts: seq<Triangle>): real {
    if |ts| == 0 then 0.0 else Dot(ts[0].a, Cross(ts[0].b, ts[0].c)) / 6.0 + TripleProductSum(ts[1..])
  }

  /** `totalVolume` is the sum of the triangles' triple products `A · (B × C) / 6`,
      so it does not depend on which vertex the loop subtracts. */
  lemma {:induction false} SignedVolumeIsTripleProductSum(ts: seq<Triangle>)
    ensures SignedVolume(ts) == TripleProductSum(ts)
    decreases |ts|
  {
    if |ts| > 0 {
      var t := ts[0];
      assert [t] + ts[1..] == ts;
      assert [t][..0] == [];
      SumsAdditive([t], ts[1..]);
      TetraVolumeIsTripleProduct(t);
      SignedVolumeIsTripleProductSum(ts[1..]);
    }
  }

  /** A triangle with a repeated vertex, or with C on the line through A and B,
      adds nothing to either sum. */
  lemma DegenerateTriangle(t: Triangle, s: real)
    requires t.b == t.a || t.c == t.a || Sub(t.c, t.a) == Scale(Sub(t.b, t.a), s)
    ensures TriangleArea(t) == 0.0
    ensures TetraVolume(t) == 0.0
  {
    if t.b != t.a && t.c != t.a {
      CrossParallel(Sub(t.b, t.a), s);
    }
    assert Normal(t) == Zero;
  }

  /** Both sums are additive over concatenated triangle lists. */
  lemma {:induction false} SumsAdditive(s: seq<Triangle>, t: seq<Triangle>)
    ensures AreaSum(s + t) == AreaSum(s) + AreaSum(t)
    ensures SignedVolume(s + t) == SignedVolume(s) + SignedVolume(t)
    decreases |t|
  {
    if |t| == 0 {
      assert s + t == s;
    } else {
      var t' := t[..|t| - 1];
      assert (s + t)[..|s + t| - 1] == s + t';
      assert (s + t)[|s + t| - 1] == t[|t| - 1];
      SumsAdditive(s, t');
    }
  }

  /** Swapping B and C: the triangle with the opposite winding. */
  function FlipTriangle(t: Triangle): Triangle {
    Triangle(t.a, t.c, t.b)
  }

  function Flip(ts: seq<Triangle>): (fs: seq<Triangle>)
    ensures |fs| == |ts|
    ensures forall k :: 0 <= k < |ts| ==> fs[k] == FlipTriangle(ts[k])
  {
    seq(|ts|, k requires 0 <= k < |ts| => FlipTriangle(ts[k]))
  }

  /** Flipping the winding of one triangle negates its volume term and keeps its area. */
  lemma FlipTriangleTerms(t: Triangle)
    ensures TetraVolume(FlipTriangle(t)) == -TetraVolume(t)
    ensures TriangleArea(FlipTriangle(t)) == TriangleArea(t)
  {
    CrossAntiCommutes(Sub(t.b, t.a), Sub(t.c, t.a));
    LengthOfNegation(Normal(t));
  }

  /** Flipping the winding of every triangle negates the signed volume and
      keeps the area, so the reported volume `|signed volume|` is unchanged. */
  lemma {:induction false} FlipWinding(ts: seq<Triangle>)
    ensures SignedVolume(Flip(ts)) == -SignedVolume(ts)
    ensures AreaSum(Flip(ts)) == AreaSum(ts)
    ensures Abs(SignedVolume(Flip(ts))) == Abs(SignedVolume(ts))
    decreases |ts|
  {
    if |ts| > 0 {
      var init := ts[..|ts| - 1];
      assert Flip(ts)[..|ts| - 1] == Flip(init);
      FlipWinding(init);
      FlipTriangleTerms(ts[|ts| - 1]);
    }
  }

  /** The index buffer with the second and third index of every triple swapped. */
  function FlipIndices(idx: seq<nat>): (f: seq<nat>)
    requires |idx| % 3 == 0
    ensures |f| == |idx|
    ensures forall k :: 0 <= k < |idx| / 3 ==>
      f[3 * k] == idx[3 * k] && f[3 * k + 1] == idx[3 * k + 2] && f[3 * k + 2] == idx[3 * k + 1]
    decreases |idx|
  {
    if |idx| == 0 then []
    else
      var rest := FlipIndices(idx[3..]);
      var f := [idx[0], idx[2], idx[1]] + rest;
      forall k | 1 <= k < |idx| / 3
        ensures f[3 * k] == idx[3 * k] && f[3 * k + 1] == idx[3 * k + 2] && f[3 * k + 2] == idx[3 * k + 1]
      {
        var j := k - 1;
        assert j < |idx[3..]| / 3;
        assert f[3 * k] == rest[3 * j] && f[3 * k + 1] == rest[3 * j + 1] && f[3 * k + 2] == rest[3 * j + 2];
        assert idx[3..][3 * j] == idx[3 * k] && idx[3..][3 * j + 1] == idx[3 * k + 1] && idx[3..][3 * j + 2] == idx[3 * k + 2];
      }
      f
  }

  /** Reversing the winding through the index buffer leaves both reported
      metrics unchanged. */
  lemma FlippedIndexBuffer(buf: seq<real>, idx: seq<nat>)
    requires Valid(Geometry(buf, Some(idx)))
    ensures Valid(Geometry(buf, Some(FlipIndices(idx))))
    ensures Triangles(Geometry(buf, Some(FlipIndices(idx)))) == Flip(Triangles(Geometry(buf, Some(idx))))
    ensures Measure(Geometry(buf, Some(FlipIndices(idx)))) == Measure(Geometry(buf, Some(idx)))
  {
    var f := FlipIndices(idx);
    assert forall i :: 0 <= i < |f| ==> f[i] in idx by {
      forall i | 0 <= i < |f| ensures f[i] in idx {
        var k := i / 3;
        assert f[3 * k] == idx[3 * k] && f[3 * k + 1] == idx[3 * k + 2] && f[3 * k + 2] == idx[3 * k + 1];
      }
    }
    var ts := IndexedTriangles(buf, idx);
    var fs := IndexedTriangles(buf, f);
    assert fs == Flip(ts);
    FlipWinding(ts);
  }

  /** The identity index buffer `0, 1, ..., n - 1`. */
  function Identity(n: nat): (idx: seq<nat>)
    ensures |idx| == n
    ensures forall i :: 0 <= i < n ==> idx[i] == i
  {
    seq(n, i requires 0 <= i < n => i as nat)
  }

  /** Indexing a buffer through the identity sequence visits the same
      triangles as reading it as consecutive nine-float runs, so both branches
      report the same metrics. */
  lemma IdentityIndexMatchesNonIndexed(buf: seq<real>)
    requires |buf| % 9 == 0
    ensures Valid(Geometry(buf, Some(Identity(VertexCount(buf)))))
    ensures Valid(Geometry(buf, None))
    ensures Triangles(Geometry(buf, Some(Identity(VertexCount(buf))))) == Triangles(Geometry(buf, None))
    ensures Measure(Geometry(buf, Some(Identity(VertexCount(buf))))) == Measure(Geometry(buf, None))
  {
    var idx := Identity(VertexCount(buf));
    var ts := IndexedTriangles(buf, idx);
    var ns := NonIndexedTriangles(buf);
    assert |idx| == |buf| / 3 && |idx| % 3 == 0 && |idx| / 3 == |buf| / 9;
    assert |ts| == |ns|;
    forall k | 0 <= k < |ts| ensures ts[k] == ns[k] {
      assert idx[3 * k] == 3 * k && idx[3 * k + 1] == 3 * k + 1 && idx[3 * k + 2] == 3 * k + 2;
      assert 3 * (3 * k) == 9 * k && 3 * (3 * k + 1) == 9 * k + 3 && 3 * (3 * k + 2) == 9 * k + 6;
    }
  }

  /** Both sums over a two-triangle list (one square face). */
  lemma PairSums(x: Triangle, y: Triangle)
    ensures SignedVolume([x, y]) == TetraVolume(x) + TetraVolume(y)
    ensures AreaSum([x, y]) == TriangleArea(x) + TriangleArea(y)
  {
    assert [x, y][..1] == [x];
    assert [x][..0] == [];
    assert SignedVolume([x]) == TetraVolume(x);
    assert SignedVolume([x, y]) == SignedVolume([x]) + TetraVolume(y);
  }

  /** Face `i` of the cube `[0,s]^3` as two triangles, each wound
      counter-clockwise seen from outside when `s > 0`. */
  function CubeFaceTriangles(s: real, i: nat): seq<Triangle> {
    var o, x, xy, y := Vec3(0.0, 0.0, 0.0), Vec3(s, 0.0, 0.0), Vec3(s, s, 0.0), Vec3(0.0, s, 0.0);
    var z, xz, xyz, yz := Vec3(0.0, 0.0, s), Vec3(s, 0.0, s), Vec3(s, s, s), Vec3(0.0, s, s);
    match i
    case 0 => [Triangle(o, xy, x), Triangle(o, y, xy)]        // z = 0
    case 1 => [Triangle(z, xz, xyz), Triangle(z, xyz, yz)]    // z = s
    case 2 => [Triangle(o, x, xz), Triangle(o, xz, z)]        // y = 0
    case 3 => [Triangle(y, yz, xyz), Triangle(y, xyz, xy)]    // y = s
    case 4 => [Triangle(o, z, yz), Triangle(o, yz, y)]        // x = 0
    case _ => [Triangle(x, xy, xyz), Triangle(x, xyz, xz)]    // x = s
  }

  /** The twelve triangles of the cube, two per face. */
  function CubeFaces(s: real): seq<seq<Triangle>> {
    [CubeFaceTriangles(s, 0), CubeFaceTriangles(s, 1), CubeFaceTriangles(s, 2),
     CubeFaceTriangles(s, 3), CubeFaceTriangles(s, 4), CubeFaceTriangles(s, 5)]
  }

  function Cube(s: real): seq<Triangle> {
    var f := CubeFaces(s);
    f[0] + f[1] + f[2] + f[3] + f[4] + f[5]
  }

  /** The outward normal (scaled by `s^2`) of face `i` of the cube. */
  function CubeNormal(s: real, i: nat): Vec3 {
    var s2 := s * s;
    match i
    case 0 => Vec3(0.0, 0.0, -s2)
    case 1 => Vec3(0.0, 0.0, s2)
    case 2 => Vec3(0.0, -s2, 0.0)
    case 3 => Vec3(0.0, s2, 0.0)
    case 4 => Vec3(-s2, 0.0, 0.0)
    case _ => Vec3(s2, 0.0, 0.0)
  }

  /** What the cube's area and volume need to know about face `i`: both
      triangles start at the same corner and have the face's outward normal
      `n`, `n · n = s^4`, and the shared corner lies at height `s^3` along `n`
      for the three faces away from the origin, and `0` for the others. */
  predicate CubeFaceFacts(s: real, i: nat) {
    var f, n := CubeFaceTriangles(s, i), CubeNormal(s, i);
    && |f| == 2
    && Normal(f[0]) == n && Normal(f[1]) == n
    && f[0].a == f[1].a
    && Dot(f[0].a, n) == (if i % 2 == 1 then s * s * s else 0.0)
    && Dot(n, n) == s * s * s * s
  }

  lemma BottomFace(s: real) ensures CubeFaceFacts(s, 0) {}
  lemma TopFace(s: real) ensures CubeFaceFacts(s, 1) {}
  lemma FrontFace(s: real) ensures CubeFaceFacts(s, 2) {}
  lemma BackFace(s: real) ensures CubeFaceFacts(s, 3) {}
  lemma LeftFace(s: real) ensures CubeFaceFacts(s, 4) {}
  lemma RightFace(s: real) ensures CubeFaceFacts(s, 5) {}

  lemma CubeFaceFactsHold(s: real, i: nat)
    requires i < 6
    ensures CubeFaceFacts(s, i)
  {
    match i
    case 0 => BottomFace(s);
    case 1 => TopFace(s);
    case 2 => FrontFace(s);
    case 3 => BackFace(s);
    case 4 => LeftFace(s);
    case 5 => RightFace(s);
  }

  /** A square face split into two triangles with the same normal `n`. */
  lemma FaceSums(t0: Triangle, t1: Triangle, n: Vec3)
    requires Normal(t0) == n && Normal(t1) == n
    ensures AreaSum([t0, t1]) == Sqrt(Dot(n, n))
    ensures SignedVolume([t0, t1]) == (Dot(t0.a, n) + Dot(t1.a, n)) / 6.0
  {
    PairSums(t0, t1);
  }

  /** Each face of the cube has area `sqrt(s^4)`; the three faces away from
      the origin add `s^3 / 3` to the signed volume, the three through it add 0. */
  lemma CubeFace(s: real, i: nat)
    requires i < 6
    ensures SignedVolume(CubeFaces(s)[i]) == if i % 2 == 1 then s * s * s / 3.0 else 0.0
    ensures AreaSum(CubeFaces(s)[i]) == Sqrt(s * s * s * s)
  {
    var f := CubeFaceTriangles(s, i);
    var n := CubeNormal(s, i);
    assert CubeFaces(s)[i] == f;
    CubeFaceFactsHold(s, i);
    assert f == [f[0], f[1]];
    FaceSums(f[0], f[1], n);
  }

  /** On a closed, consistently wound surface the sums give the enclosed
      volume: the cube of side `s` reports volume `|s|^3`, and its area is six
      roots of `s^4`. */
  lemma CubeMetrics(s: real)
    ensures SignedVolume(Cube(s)) == s * s * s
    ensures AreaSum(Cube(s)) == 6.0 * Sqrt(s * s * s * s)
  {
    var f := CubeFaces(s);
    var v, r := s * s * s / 3.0, Sqrt(s * s * s * s);
    CubeFace(s, 0); CubeFace(s, 1); CubeFace(s, 2); CubeFace(s, 3); CubeFace(s, 4); CubeFace(s, 5);
    var p1 := f[0] + f[1];
    SumsAdditive(f[0], f[1]);
    var p2 := p1 + f[2];
    SumsAdditive(p1, f[2]);
    var p3 := p2 + f[3];
    SumsAdditive(p2, f[3]);
    var p4 := p3 + f[4];
    SumsAdditive(p3, f[4]);
    SumsAdditive(p4, f[5]);
    assert Cube(s) == p4 + f[5];
  }
}
