/**
 The `FileLoader` extension switch and `updateScene`, which frames the camera
 on a freshly loaded object and folds its mesh leaves into the details panel.
 */
module FileLoader {
  import opened Wrappers
  import opened MeshProperties
  import opened Scene
  import opened Framing

  /** The three.js loader classes the viewer can construct. */
  datatype Loader = GLTF | OBJ | FBX | STL | PLY | VRML

  /** The extensions `FileLoader` accepts; the switch compares exactly, with
      no case folding. */
  const Supported: set<string> := {"gltf", "glb", "obj", "fbx", "stl", "ply", "wrl", "vrml"}

  /** `FileLoader(extension)`; `None` is the `null` of the default case. */
  function ForExtension(extension: string): (r: Option<Loader>)
    ensures r.Some? <==> extension in Supported
    ensures r == Some(GLTF) <==> extension == "gltf" || extension == "glb"
    ensures r == Some(VRML) <==> extension == "wrl" || extension == "vrml"
    ensures r == Some(OBJ) <==> extension == "obj"
    ensures r == Some(FBX) <==> extension == "fbx"
    ensures r == Some(STL) <==> extension == "stl"
    ensures r == Some(PLY) <==> extension == "ply"
  {
    if extension == "gltf" || extension == "glb" then Some(GLTF)
    else if extension == "obj" then Some(OBJ)
    else if extension == "fbx" then Some(FBX)
    else if extension == "stl" then Some(STL)
    else if extension == "ply" then Some(PLY)
    else if extension == "wrl" || extension == "vrml" then Some(VRML)
    else None
  }

  /** The switch does not fold case: upper-case and empty extensions find no loader. */
  lemma ForExtensionIsCaseSensitive()
    ensures ForExtension("OBJ") == None
    ensures ForExtension("GLTF") == None
    ensures ForExtension("Stl") == None
    ensures ForExtension("") == None
    ensures ForExtension("obj") == Some(OBJ)
  {
  }

  /** What `updateScene` produces: the camera placement and the details panel
      after every queued update has run. */
  datatype SceneUpdate = SceneUpdate(camera: Placement, details: Details)

  /** `updateScene(object, ...)` for the loaded hierarchy `root`, given its
      bounding box and the camera's field of view in degrees. */
  ghost function UpdateScene(root: Node, box: Box3, fovDegrees: real, prior: Details): (u: SceneUpdate)
    requires AllValid(MeshGeometries(root))
    ensures u.camera.lookAt == Center(box) && u.camera.target == Center(box)
    ensures u.camera.position.x == Center(box).x
    ensures u.camera.position.y == Center(box).y - Size(box).y / 4.0
    ensures u.camera.position.z >= 0.0
    ensures u.details.vertices == prior.vertices + TreeVertices(root)
    ensures u.details.triangles == prior.triangles + TreeTriangles(root)
    ensures MeshGeometries(root) == [] ==> u.details == prior
    ensures MeshGeometries(root) != [] ==>
      var last := MeshGeometries(root)[|MeshGeometries(root)| - 1];
      && u.details.surfaceArea == Measure(last).area
      && u.details.volume == Measure(last).volume
      && u.details.sizeX == Size(box).x
      && u.details.sizeY == Size(box).y
      && u.details.sizeZ == Size(box).z
  {
    TraversalCounts(root);
    SceneUpdate(Frame(box, fovDegrees), Fold(prior, MeshGeometries(root), Size(box)))
  }

  /** A single mesh with a geometry (what the PLY and STL handlers pass in):
      its counts are added, and area and volume are its own metrics. */
  lemma SingleMeshUpdate(g: Geometry, box: Box3, fovDegrees: real, prior: Details)
    requires Valid(g)
    ensures AllValid(MeshGeometries(Mesh(Some(g), [])))
    ensures UpdateScene(Mesh(Some(g), []), box, fovDegrees, prior).details
         == prior.(vertices := prior.vertices + VertexCount(g.position),
                   triangles := prior.triangles + TriangleCount(g),
                   sizeX := Size(box).x, sizeY := Size(box).y, sizeZ := Size(box).z,
                   surfaceArea := Measure(g).area, volume := Measure(g).volume)
  {
    assert MeshGeometries(Mesh(Some(g), [])) == [g];
    assert ForestVertices([]) == 0;
    assert ForestTriangles([]) == 0.0;
  }
}
