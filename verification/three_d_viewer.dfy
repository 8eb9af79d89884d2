/**
 The viewer component: `selectLoader` lower-cases a file name, takes the text
 after its last '.', and dispatches on it with its own switch, which, unlike
 `FileLoader`, has no VRML case. The effect stops early when there is no file
 or no loader; once a model has loaded, the camera (a perspective camera with
 a 75 degree field of view) is framed on its bounding box.
 */
module ThreeDViewer {
  import opened Wrappers
  import opened Vectors
  import opened Framing
  import FileLoader

  type Loader = FileLoader.Loader

  /** `toLowerCase` on one character; only the ASCII letters are mapped. */
  function LowerChar(c: char): (l: char)
    ensures 'A' <= c <= 'Z' ==> l as int == c as int + 32
    ensures !('A' <= c <= 'Z') ==> l == c
    ensures !('A' <= l <= 'Z')
  {
    if 'A' <= c <= 'Z' then (c as int + 32) as char else c
  }

  /** `toUpperCase` on one character; only the ASCII letters are mapped. */
  function UpperChar(c: char): char {
    if 'a' <= c <= 'z' then (c as int - 32) as char else c
  }

  /** `filename.toLowerCase()` */
  function ToLower(s: string): (r: string)
    ensures |r| == |s|
    ensures forall i :: 0 <= i < |s| ==> r[i] == LowerChar(s[i])
    ensures forall i :: 0 <= i < |r| ==> !('A' <= r[i] <= 'Z')
  {
    seq(|s|, i requires 0 <= i < |s| => LowerChar(s[i]))
  }

  /** Lower-casing a lower-cased name changes nothing. */
  lemma ToLowerIdempotent(s: string)
    ensures ToLower(ToLower(s)) == ToLower(s)
  {
    var l := ToLower(s);
    forall i | 0 <= i < |l| ensures ToLower(l)[i] == l[i] {
      assert !('A' <= l[i] <= 'Z');
    }
  }

  function ToUpper(s: string): (r: string)
    ensures |r| == |s|
    ensures forall i :: 0 <= i < |s| ==> r[i] == UpperChar(s[i])
  {
    seq(|s|, i requires 0 <= i < |s| => UpperChar(s[i]))
  }

  /** The two names differ at most in the case of ASCII letters. */
  predicate EqualIgnoringCase(a: string, b: string) {
    |a| == |b| && forall i :: 0 <= i < |a| ==> LowerChar(a[i]) == LowerChar(b[i])
  }

  /** `s.split('.').pop()`: the longest suffix of `s` without a '.'. */
  function AfterLastDot(s: string): (r: string)
    ensures '.' !in r
    ensures |r| <= |s| && s[|s| - |r|..] == r
    ensures |r| < |s| ==> s[|s| - |r| - 1] == '.'
    decreases |s|
  {
    if |s| == 0 then ""
    else if s[|s| - 1] == '.' then ""
    else
      var init, last := s[..|s| - 1], s[|s| - 1];
      var rest := AfterLastDot(init);
      var r := rest + [last];
      var k := |init| - |rest|;
      assert s == init + [last];
      assert s[k..] == init[k..] + [last];
      assert k > 0 ==> s[k - 1] == init[k - 1];
      r
  }

  /** The extension `selectLoader` dispatches on. */
  function Extension(filename: string): (e: string)
    ensures '.' !in e
    ensures |e| <= |filename| && e == ToLower(filename)[|filename| - |e|..]
    ensures |e| < |filename| ==> filename[|filename| - |e| - 1] == '.'
  {
    AfterLastDot(ToLower(filename))
  }

  /** `selectLoader(filename)`; `None` is the `null` of the default case. */
  function SelectLoader(filename: string): (r: Option<Loader>)
    ensures r.Some? <==> Extension(filename) in {"gltf", "glb", "obj", "fbx", "stl", "ply"}
    ensures r == Some(FileLoader.GLTF) <==> Extension(filename) in {"gltf", "glb"}
    ensures r != Some(FileLoader.VRML)
  {
    var extension := Extension(filename);
    if extension == "gltf" || extension == "glb" then Some(FileLoader.GLTF)
    else if extension == "obj" then Some(FileLoader.OBJ)
    else if extension == "fbx" then Some(FileLoader.FBX)
    else if extension == "stl" then Some(FileLoader.STL)
    else if extension == "ply" then Some(FileLoader.PLY)
    else None
  }

  /** A name without a '.' is its own extension. */
  lemma NoDotMeansWholeName(s: string)
    requires '.' !in s
    ensures AfterLastDot(s) == s
  {
  }

  /** The extension is exactly the text after the last '.'. */
  lemma AfterLastDotOfJoin(stem: string, ext: string)
    requires '.' !in ext
    ensures AfterLastDot(stem + "." + ext) == ext
  {
    var w := stem + "." + ext;
    var r := AfterLastDot(w);
    assert w[|w| - |ext|..] == ext;
    assert w[|w| - |ext| - 1] == '.';
  }

  /** Names that differ only in letter case select the same loader. */
  lemma SelectionIgnoresCase(a: string, b: string)
    requires EqualIgnoringCase(a, b)
    ensures Extension(a) == Extension(b)
    ensures SelectLoader(a) == SelectLoader(b)
  {
    var la, lb := ToLower(a), ToLower(b);
    assert la == lb by {
      forall i | 0 <= i < |la| ensures la[i] == lb[i] {
        assert la[i] == LowerChar(a[i]) && lb[i] == LowerChar(b[i]);
      }
    }
    assert Extension(a) == AfterLastDot(la) && Extension(b) == AfterLastDot(lb);
  }

  /** In particular an upper-cased name selects the loader of the original. */
  lemma UpperCaseSelectsSameLoader(s: string)
    ensures SelectLoader(ToUpper(s)) == SelectLoader(s)
  {
    forall i | 0 <= i < |s| ensures LowerChar(ToUpper(s)[i]) == LowerChar(s[i]) {
      var c := s[i];
      if 'a' <= c <= 'z' {
        assert UpperChar(c) as int == c as int - 32;
      }
    }
    SelectionIgnoresCase(ToUpper(s), s);
  }

  /** `selectLoader` agrees with `FileLoader` on the lower-cased extension,
      except that it refuses the VRML extensions `FileLoader` accepts. */
  lemma SelectLoaderRefinesFileLoader(filename: string)
    ensures SelectLoader(filename)
         == if Extension(filename) in {"wrl", "vrml"} then None
            else FileLoader.ForExtension(Extension(filename))
  {
  }

  /** The case of the extension is ignored. */
  lemma UpperCaseExtensionExample()
    ensures SelectLoader("Model.OBJ") == Some(FileLoader.OBJ)
  {
    assert ToLower("Model.OBJ") == "model" + "." + "obj";
    AfterLastDotOfJoin("model", "obj");
  }

  /** Only the last extension counts. */
  lemma LastExtensionExample()
    ensures SelectLoader("archive.tar.GLB") == Some(FileLoader.GLTF)
  {
    assert ToLower("archive.tar.GLB") == "archive.tar" + "." + "glb";
    AfterLastDotOfJoin("archive.tar", "glb");
  }

  /** A lower-case name without a '.' is its own extension. */
  lemma LowerCaseNameIsItsOwnExtension(s: string)
    requires '.' !in s
    requires forall i :: 0 <= i < |s| ==> !('A' <= s[i] <= 'Z')
    ensures Extension(s) == s
  {
    assert ToLower(s) == s;
    NoDotMeansWholeName(s);
  }

  /** A name without a '.' is its own extension. */
  lemma NoDotExample()
    ensures SelectLoader("ply") == Some(FileLoader.PLY)
  {
    LowerCaseNameIsItsOwnExtension("ply");
  }

  /** A trailing '.' leaves an empty extension, which no loader accepts. */
  lemma TrailingDotExample()
    ensures SelectLoader("model.obj.") == None
  {
    assert ToLower("model.obj.") == "model.obj" + "." + "";
    AfterLastDotOfJoin("model.obj", "");
  }

  /** A VRML file is refused by the viewer although `FileLoader` has a loader for it. */
  lemma VrmlIsRefusedExample()
    ensures SelectLoader("scene.wrl") == None
    ensures FileLoader.ForExtension("wrl") == Some(FileLoader.VRML)
  {
    assert ToLower("scene.wrl") == "scene" + "." + "wrl";
    AfterLastDotOfJoin("scene", "wrl");
  }

  /** What the viewer's effect does with the current file (given by its name). */
  datatype EffectOutcome = NoFile | Unsupported | Loading(loader: Loader)

  /** The early returns of the effect: no file, or no loader for it. */
  function Effect(file: Option<string>): (o: EffectOutcome)
    ensures o == NoFile <==> file.None?
    ensures o == Unsupported <==> file.Some? && SelectLoader(file.value).None?
    ensures o.Loading? <==> file.Some? && SelectLoader(file.value).Some?
    ensures o.Loading? ==> SelectLoader(file.value) == Some(o.loader)
  {
    match file
    case None => NoFile
    case Some(name) =>
      match SelectLoader(name)
      case None => Unsupported
      case Some(loader) => Loading(loader)
  }

  /** The effect loads a file exactly when `FileLoader` has a loader for its
      lower-cased extension and that extension is not a VRML one; it then
      loads with `FileLoader`'s loader. */
  lemma EffectAgreesWithFileLoader(name: string)
    ensures Effect(Some(name))
         == if Extension(name) in {"wrl", "vrml"} then Unsupported
            else match FileLoader.ForExtension(Extension(name))
                 case None => Unsupported
                 case Some(loader) => Loading(loader)
  {
    SelectLoaderRefinesFileLoader(name);
  }

  /** `new THREE.PerspectiveCamera(75, ...)` */
  const CameraFov: real := 75.0

  /** The camera framing in the load callback. */
  ghost function LoadedPlacement(box: Box3): (p: Placement)
    ensures p.lookAt == Center(box) && p.target == Center(box)
    ensures p.position.x == Center(box).x
    ensures p.position.y == Center(box).y - Size(box).y / 4.0
    ensures p.position.z >= 0.0
  {
    Frame(box, CameraFov)
  }

  /** With the 75 degree camera (`tan(150°) < 0`, made positive by `Math.abs`)
      a model with a non-zero extent is viewed from a point strictly in front
      of it. */
  lemma LoadedCameraIsInFront(box: Box3)
    requires Max3(Size(box).x, Size(box).y, Size(box).z) != 0.0
    ensures LoadedPlacement(box).position.z > 0.0
  {
    CameraDistanceIsPositive(Size(box), CameraFov);
  }

  /** Moving the loaded model by `t` moves the look-at point by `t` and the
      camera by `t` in x and y only. */
  lemma LoadedPlacementTranslation(box: Box3, t: Vec3)
    ensures LoadedPlacement(Translate(box, t)).lookAt == Add(LoadedPlacement(box).lookAt, t)
    ensures LoadedPlacement(Translate(box, t)).position
         == Add(LoadedPlacement(box).position, Vec3(t.x, t.y, 0.0))
  {
    FrameTranslation(box, t, CameraFov);
  }
}
