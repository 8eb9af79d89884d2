# 3D viewer: mesh metrics, details aggregation, loader selection and camera framing

A Dafny model of the computational core of a browser-based 3D model viewer
built on three.js:

- **Mesh metrics** (`calculateMeshProperties`, module `MeshProperties`). A
  triangle mesh is read either through its index buffer (three indices per
  triangle) or as consecutive nine-float runs. Each triangle (A, B, C) adds
  `|(B - A) × (C - A)| / 2` to the surface area. It also adds the signed
  tetrahedron volume `A · ((B - A) × (C - A)) / 6` to the volume. The reported
  volume is the absolute value of the signed total.
- **Details aggregation** (the traversal in `updateScene`, module `Scene`).
  The loaded hierarchy is a tree of `Group` and `Mesh` nodes, visited
  depth-first, a node before its children. Every mesh with a geometry issues
  one details update. Each update adds the leaf's vertex and triangle counts to
  the running totals. It overwrites surface area and volume with that leaf's
  own metrics. It copies the whole object's bounding-box size into the three
  size fields. The React updater queue is modelled as a sequential left fold.
- **Camera framing** (module `Framing`, used by `FileLoader.UpdateScene` and
  `ThreeDViewer.LoadedPlacement`). The camera looks at the bounding-box
  centre. It sits at `(center.x, center.y - size.y/4, 5·|maxDim/2 · tan(2·fov)|)`,
  with fov in radians.
- **Loader selection**. `FileLoader` (module `FileLoader`,
  `ForExtension`) is an exact, case-sensitive switch over eight extensions.
  The viewer's `selectLoader` (module `ThreeDViewer`) lower-cases the file
  name, takes the text after its last '.', and uses its own switch, which has
  no VRML case.

Coordinates are exact `real`s. `Math.sqrt` and `Math.tan` are uninterpreted
ghost functions whose values may differ from argument to argument. The only
facts known about them are `sqrt(x) >= 0`, `sqrt(0) = 0`, `tan(0) = 0`, and the
sign of `tan` between 0 and π (positive below π/2, negative above). As a result, area,
`Measure`, the details fold and the framing are ghost functions.
`Math.PI` is the decimal literal `3.141592653589793`. The bounding box
(`Box3.setFromObject`) and the camera's field of view are inputs.

The triangle count is a JavaScript division (`count / 3`), so it is modelled
as a `real`. `Scene.TriangleCount` states that it is a whole
number equal to the number of triangles visited, as long as the buffers are
well formed.

## Model

| member | source | states |
|---|---|---|
| `Vectors.Abs` | resources/js/components/MeshProperties.jsx:41 | `Math.abs` is never negative and is its argument or the negation of it |
| `Vectors.Max3` | resources/js/components/FileLoader.jsx:225 | `Math.max(size.x, size.y, size.z)` is at least each argument and is one of them |
| `Vectors.Length` | resources/js/components/MeshProperties.jsx:23 | `cross.length()` is never negative and is 0 for the zero vector |
| `MeshProperties.IndexedTriangles` | resources/js/components/MeshProperties.jsx:13-20 | the indexed loop visits exactly `indices.length/3` triangles; triangle k reads its vertices at float offsets `3*indices[3k]`, `3*indices[3k+1]`, `3*indices[3k+2]` |
| `MeshProperties.NonIndexedTriangles` | resources/js/components/MeshProperties.jsx:27-30 | the non-indexed loop visits `vertices.length/9` triangles; triangle k is made of floats `9k..9k+8` as A, B, C |
| `MeshProperties.AreaSum` | resources/js/components/MeshProperties.jsx:22-35 | the accumulated area is never negative, because each step adds a length over 2 |
| `MeshProperties.Measure` | resources/js/components/MeshProperties.jsx:3-42 | the reported area is the accumulated area of exactly the triangles the loop visits, and is never negative; the volume is never negative and is the signed sum or its negation |
| `MeshProperties.SignedVolumeIsTripleProductSum` | resources/js/components/MeshProperties.jsx:22-35 | the `totalVolume` accumulator equals the plain sum of the triangles' triple products `A·(B×C)/6`, taken first triangle first |
| `MeshProperties.TetraVolumeIsTripleProduct` | resources/js/components/MeshProperties.jsx:22-24 | the per-triangle term `A·((B−A)×(C−A))/6` equals the triple product `A·(B×C)/6` |
| `MeshProperties.DegenerateTriangle` | resources/js/components/MeshProperties.jsx:22-24 | a triangle with B = A, C = A, or C on line AB adds 0 to both the area and the signed volume |
| `MeshProperties.SumsAdditive` | resources/js/components/MeshProperties.jsx:13-36 | both accumulated sums are additive over concatenated triangle lists |
| `MeshProperties.FlipTriangleTerms` | resources/js/components/MeshProperties.jsx:22-24 | swapping B and C negates a triangle's volume term and keeps its area |
| `MeshProperties.FlipWinding` | resources/js/components/MeshProperties.jsx:22-41 | flipping the winding of every triangle negates the signed volume and keeps the area, so the reported volume is unchanged |
| `MeshProperties.FlippedIndexBuffer` | resources/js/components/MeshProperties.jsx:8-25 | swapping the 2nd and 3rd index of every triple flips every triangle and leaves both reported metrics unchanged |
| `MeshProperties.IdentityIndexMatchesNonIndexed` | resources/js/components/MeshProperties.jsx:8-37 | an index buffer `0..n-1` yields the same triangles, and so the same area and volume, as the non-indexed reading of the same buffer |
| `MeshProperties.CubeMetrics` | resources/js/components/MeshProperties.jsx:22-35 | on the closed, outward-wound cube of side s the signed volume is s³ and the area is six roots of s⁴ |
| `Scene.MeshGeometries` | resources/js/components/FileLoader.jsx:242-243 | `traverse` reaches the `isMesh && geometry` branch for a mesh with a geometry before anything in its subtree |
| `Scene.LastMeshIsLastVisited` | resources/js/components/FileLoader.jsx:242-243 | the last geometry the traversal updates with is the node-by-node last mesh: the last one among a node's children, or else the node's own |
| `Scene.TriangleCount` | resources/js/components/FileLoader.jsx:246 | the triangle count of a leaf is never negative, and for well-formed buffers it is the number of triangles the metrics loop visits |
| `Scene.Apply` | resources/js/components/FileLoader.jsx:247-256 | one update adds the leaf's vertices and the number of triangles it measures, and overwrites area and volume with the leaf's own (non-negative) metrics and the size with the whole object's |
| `Scene.Fold` | resources/js/components/FileLoader.jsx:242-258 | after the updates, vertex and triangle counts are the prior values plus the sums over all leaves; area, volume and size are those of the last update; with no leaves nothing changes |
| `Scene.TraversalCounts` | resources/js/components/FileLoader.jsx:242-250 | the counts the traversal accumulates are node-by-node sums over the tree, where only `isMesh && geometry` nodes add anything |
| `Scene.EveryUpdateOverwrites` | resources/js/components/FileLoader.jsx:247-256 | every individual update writes the same whole-object size and the area and volume of the leaf being processed |
| `Scene.AreaIsOverwrittenNotSummed` | resources/js/components/FileLoader.jsx:254-255 | with two mesh leaves the reported area is the second leaf's alone, never the sum when the first has positive area |
| `FileLoader.ForExtension` | resources/js/components/FileLoader.jsx:20-38 | exactly eight strings find a loader; `gltf`/`glb` share the GLTF loader and `wrl`/`vrml` share the VRML loader; everything else is null |
| `FileLoader.ForExtensionIsCaseSensitive` | resources/js/components/FileLoader.jsx:20-38 | no case folding: `OBJ`, `GLTF`, `Stl` and the empty string return null |
| `FileLoader.UpdateScene` | resources/js/components/FileLoader.jsx:221-258 | the camera looks at the box centre, the controls target is the centre, and the camera z is ≥ 0; counts are summed over the tree; area, volume and size come from the last mesh leaf, or keep their prior values when there is none |
| `FileLoader.SingleMeshUpdate` | resources/js/components/FileLoader.jsx:242-256 | for a single mesh, the details gain its counts and take its metrics and the box size |
| `Framing.Size` | resources/js/components/FileLoader.jsx:224 | the size is the vector that carries the box's min corner to its max corner |
| `Framing.Center` | resources/js/components/FileLoader.jsx:223 | the centre is the min corner plus half the size, equally far from both corners |
| `Framing.CameraDistance` | resources/js/components/FileLoader.jsx:225-229 | the camera's z, `5·|maxDim/2·tan(2·fov)|`, is never negative and is 0 for a box of zero extent |
| `Framing.Frame` | resources/js/components/FileLoader.jsx:222-232 | `lookAt` and the controls target are the box centre; `position = (center.x, center.y − size.y/4, z)` with z ≥ 0 |
| `Framing.FrameTranslation` | resources/js/components/FileLoader.jsx:223-229 | translating the box by t moves `lookAt` and the target by t, moves the camera by `t.x` and `t.y`, and leaves its z unchanged |
| `Framing.CameraDistanceDependsOnlyOnMaxDim` | resources/js/components/FileLoader.jsx:225-229 | the camera's z depends on the box only through `Math.max(size.x, size.y, size.z)` |
| `Framing.CameraDistanceIsLinearInMaxDim` | resources/js/components/FileLoader.jsx:225-229 | for a fixed field of view the camera's z is `|maxDim|` times its value for the unit cube |
| `Framing.CameraDistanceIsPositive` | resources/js/components/FileLoader.jsx:225-229 | when the field of view is strictly between 0° and 90° and not 45°, a box with non-zero `maxDim` puts the camera at a strictly positive z |
| `Framing.ZeroFieldOfViewCollapsesDistance` | resources/js/components/FileLoader.jsx:226-229 | with fov 0 the camera sits in the plane z = 0, since `tan(0) = 0` |
| `Framing.FrameDistanceDependsOnlyOnSize` | resources/js/components/FileLoader.jsx:224-229 | two boxes of equal size put the camera at the same z |
| `Framing.DegenerateBoxIsNotGuarded` | resources/js/components/FileLoader.jsx:225-229 | for a box collapsed to a point p the camera sits at `(p.x, p.y, 0)`, which is on the target itself when `p.z = 0` |
| `ThreeDViewer.LowerChar` | resources/js/components/ThreeDViewer.jsx:80 | lower-casing maps A–Z to a–z and leaves every other character alone; no upper-case ASCII letter remains |
| `ThreeDViewer.ToLower` | resources/js/components/ThreeDViewer.jsx:80 | the model's ASCII lower-casing of `toLowerCase()` keeps the length, lower-cases every character in place, and leaves no upper-case ASCII letter |
| `ThreeDViewer.ToLowerIdempotent` | resources/js/components/ThreeDViewer.jsx:80 | lower-casing an already lower-cased name changes nothing |
| `ThreeDViewer.AfterLastDot` | resources/js/components/ThreeDViewer.jsx:80 | `split('.').pop()` is a suffix without '.', and it is either the whole string or preceded by a '.' |
| `ThreeDViewer.NoDotMeansWholeName` | resources/js/components/ThreeDViewer.jsx:80 | a name with no '.' is its own extension |
| `ThreeDViewer.AfterLastDotOfJoin` | resources/js/components/ThreeDViewer.jsx:80 | the extension of `stem + "." + ext` is `ext` when `ext` has no '.' |
| `ThreeDViewer.Extension` | resources/js/components/ThreeDViewer.jsx:80 | the extension has no '.', is a suffix of the lower-cased name, and is either the whole name or preceded by a '.' in the original name |
| `ThreeDViewer.LowerCaseNameIsItsOwnExtension` | resources/js/components/ThreeDViewer.jsx:80 | a name with no '.' and no upper-case ASCII letter is its own extension |
| `ThreeDViewer.SelectLoader` | resources/js/components/ThreeDViewer.jsx:79-96 | a loader is returned exactly for `gltf`, `glb`, `obj`, `fbx`, `stl`, `ply` (after lower-casing); `gltf`/`glb` both give GLTF; VRML is never returned |
| `ThreeDViewer.SelectionIgnoresCase` | resources/js/components/ThreeDViewer.jsx:80-92 | names that differ only in letter case have the same extension and select the same loader |
| `ThreeDViewer.UpperCaseSelectsSameLoader` | resources/js/components/ThreeDViewer.jsx:80-92 | an upper-cased name selects the same loader as the original |
| `ThreeDViewer.SelectLoaderRefinesFileLoader` | resources/js/components/ThreeDViewer.jsx:81-95 | `selectLoader` agrees with `FileLoader` on the lower-cased extension, except that it returns null for `wrl` and `vrml` |
| `ThreeDViewer.UpperCaseExtensionExample` | resources/js/components/ThreeDViewer.jsx:80-86 | `Model.OBJ` selects the OBJ loader, whatever the case of its extension |
| `ThreeDViewer.LastExtensionExample` | resources/js/components/ThreeDViewer.jsx:80-84 | `archive.tar.GLB` selects GLTF: only the last extension counts, whatever its case |
| `ThreeDViewer.NoDotExample` | resources/js/components/ThreeDViewer.jsx:80-92 | a file named `ply` with no '.' selects the PLY loader |
| `ThreeDViewer.TrailingDotExample` | resources/js/components/ThreeDViewer.jsx:80-94 | `model.obj.` has an empty extension and selects nothing |
| `ThreeDViewer.VrmlIsRefusedExample` | resources/js/components/ThreeDViewer.jsx:80-94 | `scene.wrl` selects nothing, although `FileLoader('wrl')` is the VRML loader |
| `ThreeDViewer.Effect` | resources/js/components/ThreeDViewer.jsx:13-20 | the effect stops when there is no file, reports an unsupported format exactly when `selectLoader` returns null, and otherwise loads with the selected loader |
| `ThreeDViewer.EffectAgreesWithFileLoader` | resources/js/components/ThreeDViewer.jsx:13-20 | the effect loads exactly when `FileLoader` has a loader for the lower-cased extension and it is not `wrl`/`vrml`, and then with that loader; otherwise it reports an unsupported format |
| `ThreeDViewer.LoadedPlacement` | resources/js/components/ThreeDViewer.jsx:48-60 | with the 75° camera, `lookAt` and the controls target are the box centre, `position.x = center.x`, `position.y = center.y − size.y/4`, and z ≥ 0 |
| `ThreeDViewer.LoadedCameraIsInFront` | resources/js/components/ThreeDViewer.jsx:51-55 | with the 75° camera (`tan(150°) < 0`, made positive by `Math.abs`) a model with non-zero `maxDim` is viewed from a strictly positive z |
| `ThreeDViewer.LoadedPlacementTranslation` | resources/js/components/ThreeDViewer.jsx:48-56 | moving the model by t moves `lookAt` by t and the camera by `(t.x, t.y, 0)` |

## Left out

- The three.js loaders (`GLTFLoader`, `OBJLoader`, `FBXLoader`, `STLLoader`, `PLYLoader`, `VRMLLoader`) are left out, because they are asynchronous I/O inside a library. A loader is represented only by which class is constructed.
- The `handleOBJ`, `handlePLY`, `handleSTL`, `handleFBX` and `handleDefault` callbacks are left out. They build materials and choose which object `updateScene` receives as its root. `handlePLY` and `handleSTL` wrap the loaded geometry in a mesh. `handleDefault` wraps a bare geometry in a mesh, or else takes `loadedObject.scene` when present. The model takes the root as an input. `handleOBJ` calls `applyMaterialColor`, which `FileLoader.jsx` neither defines nor imports. So for an OBJ model with a material on any mesh the callback throws before `updateScene` is reached. That failure is not modelled.
- `Box3.setFromObject` is left out, because world-space bounding boxes are library code. The box is an input, and centre and size are defined directly from its corners.
- Three.js's empty-box branch of `getCenter`/`getSize` (both return zero when the box is empty) is not modelled. `setFromObject` produces an empty box only with infinite corners, which reals cannot represent. A finite box with `min > max` on some axis, which three.js also treats as empty, gets a negative size and the midpoint as centre in the model instead of zero.
- The render loop (`requestAnimationFrame`, `renderer.render`), `controls.update()`, OrbitControls, DOM mounting, `URL.createObjectURL` and effect cleanup are left out: they have no computational content.
- The viewer's wrapping of a bare `BufferGeometry` into a mesh, and its choice of `loadedObject.scene`, are left out. They only decide which object is added to the scene.
- React's asynchronous `setDetails` updater queue is modelled as a sequential fold in traversal order.
- Fields of the details record other than the seven that `updateScene` writes are not modelled. The object spread passes them through unchanged.
- `MeshProperties.Measure`: its requires exclude out-of-range indices, index buffers whose length is not a multiple of 3, and non-indexed buffers whose length is not a multiple of 9. In these cases the source reads `undefined` and the metrics become NaN; NaN is not modelled. The requires also demand a position buffer whose length is a multiple of 3 in the indexed case, although the indexed loop would not need it: three.js's `position.count` is then a fractional `length / 3`, while the model counts whole vertices.
- `MeshProperties.VertexCount`: the position attribute is modelled as a tightly packed array of three floats per vertex, so `position.count` is the array length over 3. Interleaved attributes, where `.array` is the whole shared buffer and `.count` comes from the interleaved data, and attributes with another item size are not modelled. For them the triangle count `updateScene` reports and the number of triangles the metrics loop visits can differ.
- A geometry without a position attribute is not modelled: `geometry.attributes.position.array` then throws, which aborts `traverse` part-way through the hierarchy. Every modelled `Geometry` has a position buffer.
- `Vectors.Sqrt`: only `sqrt(x) >= 0` and `sqrt(0) = 0` are known, so areas are not computed numerically (the cube's area is stated as six roots of s⁴).
- `Framing.Tan`: only `tan(0) = 0` and the sign of `tan` on (0, π/2) and (π/2, π) are known. No statement depends on the magnitude of `tan`.
- `Framing.CameraDistance`: the per-field-of-view factor `5/2 · |tan(2·fov)|` is not characterised beyond its sign, because the magnitude of `tan` is not modelled. The model proves that the camera's z depends only on `maxDim`, is proportional to `|maxDim|`, and is positive for the viewer's 75° camera. It does not prove the value of the factor.
- `ThreeDViewer.ToLower`: the model maps each ASCII letter on its own. JavaScript's `toLowerCase` can change the length: `'İ'` (U+0130) becomes two code units. It can also depend on context: `'Σ'` becomes `ς` at the end of a word and `σ` elsewhere. Neither case can change which loader is selected, since all loader extensions are ASCII.
- `Vectors.Max3`: models `Math.max` on non-NaN arguments only. IEEE-754 rounding, NaN and infinities are not modelled anywhere.
- `ThreeDViewer.LowerChar`: only ASCII letters are case-mapped. JavaScript's `toLowerCase` also maps other Unicode letters.
- The cube lemma (`CubeMetrics`) is stated over its triangle list, not through an index buffer. Literal index buffers make the verifier unroll the recursive extraction without bound. The extraction itself is covered by `IndexedTriangles` and `IdentityIndexMatchesNonIndexed`.
- The UI-only components (file uploader, header, lighting setup, application entry point) are not part of this model.
