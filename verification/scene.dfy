/**
 The details accumulation inside `updateScene`: `object.traverse` visits the
 loaded hierarchy depth-first (a node before its children, children in
 order), and every node that is a mesh with a geometry issues one `setDetails`
 update. Each update ADDS the leaf's vertex and triangle counts to the running
 totals, but OVERWRITES surface area and volume with that leaf's own metrics
 and copies the whole object's bounding-box size into the three size fields.
 The React updater queue is modelled as a sequential left fold.
 */
module Scene {
  import opened Wrappers
  import opened Vectors
  import opened MeshProperties

  /** A node of the loaded hierarchy. A mesh may itself have children, and
      `traverse` visits them as well. */
  datatype Node =
    | Group(children: seq<Node>)
    | Mesh(geometry: Option<Geometry>, children: seq<Node>)

  /** The geometry a node contributes on its own: present exactly for
      `child.isMesh && child.geometry`. */
  function Own(n: Node): seq<Geometry> {
    match n
    case Mesh(Some(g), _) => [g]
    case _ => []
  }

  /** The geometries reaching the `isMesh && geometry` branch, in visiting
      order: a mesh is visited before anything below it. */
  function MeshGeometries(n: Node): (gs: seq<Geometry>)
    ensures n.Mesh? && n.geometry.Some? ==> |gs| > 0 && gs[0] == n.geometry.value
    decreases n, 1
  {
    Own(n) + ForestGeometries(n.children)
  }

  function ForestGeometries(ns: seq<Node>): seq<Geometry>
    decreases ns, 0
  {
    if |ns| == 0 then [] else MeshGeometries(ns[0]) + ForestGeometries(ns[1..])
  }

  predicate AllValid(gs: seq<Geometry>) {
    forall i :: 0 <= i < |gs| ==> Valid(gs[i])
  }

  /** The fields of the details panel that `updateScene` writes. */
  datatype Details = Details(
    vertices: int,
    triangles: real,
    sizeX: real,
    sizeY: real,
    sizeZ: real,
    surfaceArea: real,
    volume: real)

  /** `child.geometry.index ? index.count / 3 : vertices / 3`, a JavaScript
      (real-valued) division. */
  function TriangleCount(g: Geometry): (r: real)
    ensures r >= 0.0
    ensures Valid(g) ==> r == |Triangles(g)| as real
  {
    match g.index
    case Some(idx) => |idx| as real / 3.0
    case None => VertexCount(g.position) as real / 3.0
  }

  /** One `setDetails(prevDetails => ...)` update for one mesh geometry. */
  ghost function Apply(d: Details, g: Geometry, size: Vec3): (r: Details)
    requires Valid(g)
    ensures r.vertices == d.vertices + VertexCount(g.position)
    ensures r.triangles == d.triangles + |Triangles(g)| as real
    ensures r.surfaceArea == Measure(g).area && r.surfaceArea >= 0.0
    ensures r.volume == Measure(g).volume && r.volume >= 0.0
    ensures r.sizeX == size.x && r.sizeY == size.y && r.sizeZ == size.z
  {
    var m := Measure(g);
    d.(vertices := d.vertices + VertexCount(g.position),
       triangles := d.triangles + TriangleCount(g),
       sizeX := size.x, sizeY := size.y, sizeZ := size.z,
       surfaceArea := m.area, volume := m.volume)
  }

  /** Total vertex count of a list of geometries. */
  function SumVertices(gs: seq<Geometry>): int {
    if |gs| == 0 then 0 else VertexCount(gs[0].position) + SumVertices(gs[1..])
  }

  /** Total triangle count of a list of geometries. */
  function SumTriangles(gs: seq<Geometry>): real {
    if |gs| == 0 then 0.0 else TriangleCount(gs[0]) + SumTriangles(gs[1..])
  }

  /** The details after the updates for `gs`, applied in order to `d`. Counts
      accumulate; area, volume and size are those of the last update. */
  ghost function Fold(d: Details, gs: seq<Geometry>, size: Vec3): (r: Details)
    requires AllValid(gs)
    ensures r.vertices == d.vertices + SumVertices(gs)
    ensures r.triangles == d.triangles + SumTriangles(gs)
    ensures |gs| == 0 ==> r == d
    ensures |gs| > 0 ==>
      && r.surfaceArea == Measure(gs[|gs| - 1]).area
      && r.volume == Measure(gs[|gs| - 1]).volume
      && r.sizeX == size.x && r.sizeY == size.y && r.sizeZ == size.z
    decreases |gs|
  {
    if |gs| == 0 then d
    else
      var rest := gs[1..];
      assert AllValid(rest) by {
        forall i | 0 <= i < |rest| ensures Valid(rest[i]) {
          assert rest[i] == gs[i + 1];
        }
      }
      assert |rest| > 0 ==> rest[|rest| - 1] == gs[|gs| - 1];
      Fold(Apply(d, gs[0], size), rest, size)
  }

  /** The last element of a list, if any. */
  function Last(gs: seq<Geometry>): Option<Geometry> {
    if |gs| == 0 then None else Some(gs[|gs| - 1])
  }

  /** The mesh geometry whose update runs last in a subtree, found node by
      node: the last one among the children, or else the node's own. */
  function LastMesh(n: Node): Option<Geometry>
    decreases n, 1
  {
    match ForestLastMesh(n.children)
    case Some(g) => Some(g)
    case None => if n.Mesh? then n.geometry else None
  }

  function ForestLastMesh(ns: seq<Node>): Option<Geometry>
    decreases ns, 0
  {
    if |ns| == 0 then None
    else
      match ForestLastMesh(ns[1..])
      case Some(g) => Some(g)
      case None => LastMesh(ns[0])
  }

  lemma LastOfConcat(a: seq<Geometry>, b: seq<Geometry>)
    ensures Last(a + b) == if |b| == 0 then Last(a) else Last(b)
  {
    if |b| == 0 {
      assert a + b == a;
    }
  }

  /** The leaf whose area, volume and size `updateScene` leaves behind is the
      last mesh of the traversal, found node by node. */
  lemma {:induction false} LastMeshIsLastVisited(n: Node)
    ensures LastMesh(n) == Last(MeshGeometries(n))
    decreases n, 1
  {
    ForestLastMeshIsLastVisited(n.children);
    LastOfConcat(Own(n), ForestGeometries(n.children));
  }

  lemma {:induction false} ForestLastMeshIsLastVisited(ns: seq<Node>)
    ensures ForestLastMesh(ns) == Last(ForestGeometries(ns))
    decreases ns, 0
  {
    if |ns| > 0 {
      LastMeshIsLastVisited(ns[0]);
      ForestLastMeshIsLastVisited(ns[1..]);
      LastOfConcat(MeshGeometries(ns[0]), ForestGeometries(ns[1..]));
    }
  }

  /** Vertex count of a subtree, summed node by node: a mesh with a geometry
      contributes its `position.count`, every other node contributes 0. */
  function TreeVertices(n: Node): int
    decreases n, 1
  {
    (match n case Mesh(Some(g), _) => VertexCount(g.position) case _ => 0)
    + ForestVertices(n.children)
  }

  function ForestVertices(ns: seq<Node>): int
    decreases ns, 0
  {
    if |ns| == 0 then 0 else TreeVertices(ns[0]) + ForestVertices(ns[1..])
  }

  /** Triangle count of a subtree, summed node by node. */
  function TreeTriangles(n: Node): real
    decreases n, 1
  {
    (match n case Mesh(Some(g), _) => TriangleCount(g) case _ => 0.0)
    + ForestTriangles(n.children)
  }

  function ForestTriangles(ns: seq<Node>): real
    decreases ns, 0
  {
    if |ns| == 0 then 0.0 else TreeTriangles(ns[0]) + ForestTriangles(ns[1..])
  }

  lemma {:induction false} SumsOverConcat(a: seq<Geometry>, b: seq<Geometry>)
    ensures SumVertices(a + b) == SumVertices(a) + SumVertices(b)
    ensures SumTriangles(a + b) == SumTriangles(a) + SumTriangles(b)
    decreases |a|
  {
    if |a| == 0 {
      assert a + b == b;
    } else {
      assert (a + b)[1..] == a[1..] + b;
      SumsOverConcat(a[1..], b);
    }
  }

  /** The counts the traversal accumulates are the node-by-node sums over the
      whole tree: meshes add their counts, all other nodes add nothing. */
  lemma {:induction false} TraversalCounts(n: Node)
    ensures SumVertices(MeshGeometries(n)) == TreeVertices(n)
    ensures SumTriangles(MeshGeometries(n)) == TreeTriangles(n)
    decreases n, 1
  {
    ForestCounts(n.children);
    SumsOverConcat(Own(n), ForestGeometries(n.children));
    match n
    case Mesh(Some(g), _) =>
      assert Own(n)[1..] == [];
    case _ =>
  }

  lemma {:induction false} ForestCounts(ns: seq<Node>)
    ensures SumVertices(ForestGeometries(ns)) == ForestVertices(ns)
    ensures SumTriangles(ForestGeometries(ns)) == ForestTriangles(ns)
    decreases ns, 0
  {
    if |ns| > 0 {
      TraversalCounts(ns[0]);
      ForestCounts(ns[1..]);
      SumsOverConcat(MeshGeometries(ns[0]), ForestGeometries(ns[1..]));
    }
  }

  /** Every individual update, not only the last one, writes the same
      whole-object size, and writes the area and volume of the leaf it is
      processing. */
  lemma EveryUpdateOverwrites(d: Details, gs: seq<Geometry>, size: Vec3, k: nat)
    requires AllValid(gs)
    requires k < |gs|
    ensures AllValid(gs[..k + 1])
    ensures Fold(d, gs[..k + 1], size).sizeX == size.x
    ensures Fold(d, gs[..k + 1], size).sizeY == size.y
    ensures Fold(d, gs[..k + 1], size).sizeZ == size.z
    ensures Fold(d, gs[..k + 1], size).surfaceArea == Measure(gs[k]).area
    ensures Fold(d, gs[..k + 1], size).volume == Measure(gs[k]).volume
  {
    assert gs[..k + 1][k] == gs[k];
  }

  /** Whenever two leaves have different areas, the area the traversal
      reports is not their sum: with two mesh leaves the reported area is the
      second leaf's alone. */
  lemma AreaIsOverwrittenNotSummed(d: Details, g1: Geometry, g2: Geometry, size: Vec3)
    requires Valid(g1) && Valid(g2)
    ensures AllValid([g1, g2])
    ensures Fold(d, [g1, g2], size).surfaceArea == Measure(g2).area
    ensures Measure(g1).area > 0.0 ==>
      Fold(d, [g1, g2], size).surfaceArea != Measure(g1).area + Measure(g2).area
  {
  }
}
