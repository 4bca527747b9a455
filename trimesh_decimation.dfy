/** `trimesh_decimation.py`: quadric decimation through the trimesh library. The Blender mesh is
    read as vertex and face arrays (fan-triangulating non-triangular polygons), cleaned by
    trimesh's own passes, simplified towards max(4, faces x ratio) faces and written back as
    an all-triangle mesh. The library is a parameter: whether it imported, its version, and
    each of its operations as an oracle that may raise. */
module TrimeshDecimation {
  import opened Wrappers
  import opened Scene
  import opened Geometry

  /** The optional keyword arguments of `simplify_quadric_decimation`. */
  datatype Kwargs = Kwargs(faceCount: int, aggression: Option<int>, preserveBorder: Option<bool>)

  /** The trimesh library as this module uses it. `construct` is `trimesh.Trimesh(...,
      process=True)`; the four clean-up passes may each raise; the `has*` flags are the
      `hasattr` checks and the `accepts*` flags the signature check of the simplifier, which
      may raise or return None. `writeRaises` says whether Blender raises while
      `_numpy_to_blender` writes the given arrays back; it is part of this parameter so that
      the pass has one environment. */
  datatype TrimeshLib = TrimeshLib(
    available: bool,
    version: string,
    construct: TriMesh -> Result<TriMesh>,
    hasRemoveDegenerate: bool,
    removeDegenerate: TriMesh -> Result<TriMesh>,
    mergeVertices: TriMesh -> Result<TriMesh>,
    removeUnreferenced: TriMesh -> Result<TriMesh>,
    hasFixNormals: bool,
    fixNormals: TriMesh -> Result<TriMesh>,
    acceptsAggression: bool,
    acceptsPreserveBorder: bool,
    simplify: (TriMesh, Kwargs) -> Result<Option<TriMesh>>,
    writeRaises: (seq<Vec3>, seq<Tri>) -> bool)

  /** What a pass does to the Blender mesh: nothing, a successful rewrite with a triangle mesh,
      or a write-back that raised after clearing it. */
  datatype Outcome = Untouched | Rewritten(t: TriMesh) | Cleared

  /** `is_available`. */
  function IsAvailable(lib: TrimeshLib): bool {
    lib.available
  }

  /** `get_version`: the library's version, or "Not installed". */
  function GetVersion(lib: TrimeshLib): (r: string)
    ensures lib.available ==> r == lib.version
    ensures !lib.available ==> r == "Not installed"
  {
    if lib.available then lib.version else "Not installed"
  }

  /** `_blender_to_numpy`: the vertex positions and the triangles. An all-triangle mesh is read
      directly as an (n, 3) array; otherwise every polygon is fanned from its first vertex.
      Either way the faces are the fan triangulation of the polygons. */
  method BlenderToNumpy(m: PolyMesh) returns (vertices: seq<Vec3>, faces: seq<Tri>)
    ensures vertices == m.co
    ensures faces == FanAll(Polygons(m))
  {
    vertices := m.co;
    var ps := Polygons(m);
    if AllTris(ps) {
      faces := TriArray(ps);
      TriArrayIsFan(ps);
      return;
    }
    faces := [];
    var p := 0;
    while p < |ps|
      invariant 0 <= p <= |ps|
      invariant faces == FanAll(ps[..p])
    {
      assert ps[..p + 1][..p] == ps[..p];
      var tris := FanPolygon(ps[p]);
      faces := faces + tris;
      assert FanAll(ps[..p + 1]) == FanAll(ps[..p]) + Fan(ps[p]);
      p := p + 1;
    }
    assert ps[..p] == ps;
  }

  /** `_numpy_to_blender`: the mesh is cleared and rebuilt from the arrays. When Blender raises
      (`raises`) the mesh stays cleared and the raise reaches the caller (`ok` false). */
  method NumpyToBlender(d: string, vertices: seq<Vec3>, faces: seq<Tri>, raises: bool, store: GeometryStore)
    returns (ok: bool)
    modifies store
    ensures ok == !raises
    ensures store.meshes == old(store.meshes)[d := if ok then Written(vertices, faces) else Geometry.Cleared()]
  {
    store.meshes := store.meshes[d := Geometry.Cleared()];
    if raises {
      return false;
    }
    store.meshes := store.meshes[d := Written(vertices, faces)];
    return true;
  }

  /** The mesh a pass leaves. */
  function MeshAfter(m: PolyMesh, o: Outcome): (r: PolyMesh)
    ensures o.Untouched? ==> r == m
    ensures o.Rewritten? ==> r == Written(o.t.vertices, o.t.faces) && FaceCount(r) == |o.t.faces|
    ensures o.Cleared? ==> r.co == [] && FaceCount(r) == 0
  {
    match o
    case Untouched => m
    case Rewritten(t) => WrittenLayout(t.vertices, t.faces); Written(t.vertices, t.faces)
    case Cleared => Geometry.Cleared()
  }

  /** The preprocessing after construction: degenerate faces (when the method exists), vertex
      merging, unreferenced vertices, then normals (when the method exists). */
  function CleanTrimesh(t: TriMesh, lib: TrimeshLib): TriMesh {
    var t1 := if lib.hasRemoveDegenerate then KeepOnError(lib.removeDegenerate(t), t) else t;
    var t2 := KeepOnError(lib.mergeVertices(t1), t1);
    var t3 := KeepOnError(lib.removeUnreferenced(t2), t2);
    if lib.hasFixNormals then KeepOnError(lib.fixNormals(t3), t3) else t3
  }

  /** When every clean-up pass raises, the constructed mesh is simplified as it is. */
  lemma CleanTrimeshAllFail(t: TriMesh, lib: TrimeshLib)
    requires lib.removeDegenerate(t).Err? && lib.mergeVertices(t).Err?
    requires lib.removeUnreferenced(t).Err? && lib.fixNormals(t).Err?
    ensures CleanTrimesh(t, lib) == t
  {
  }

  /** Python's `int()` of a float: truncation toward zero. */
  function Trunc(x: real): (r: int)
    ensures x >= 0.0 ==> 0 <= r && r as real <= x < r as real + 1.0
    ensures x < 0.0 ==> r <= 0 && r as real - 1.0 < x <= r as real
  {
    if x >= 0.0 then x.Floor else -((-x).Floor)
  }

  lemma ScaleDown(a: real, ratio: real)
    requires a >= 0.0
    ensures ratio <= 1.0 ==> a * ratio <= a
  {
    if ratio <= 1.0 {
      assert a - a * ratio == a * (1.0 - ratio);
    }
  }

  /** `max(4, int(len(tm_mesh.faces) * target_ratio))`: never below 4, and for a ratio in
      [0, 1] never above the face count once that is at least 4. */
  function TargetFaces(faces: nat, ratio: real): (r: int)
    ensures r >= 4
    ensures r == 4 || (r as real <= faces as real * ratio < r as real + 1.0)
    ensures ratio <= 1.0 && faces >= 4 ==> r <= faces
  {
    var t := Trunc(faces as real * ratio);
    ScaleDown(faces as real, ratio);
    if t > 4 then t else 4
  }

  /** The simplifier's keyword arguments: the face target always; the aggression only when the
      simplifier takes it; border preservation only when it takes it and it was asked for. */
  function SimplifyArgs(target: int, aggression: int, preserveBorder: bool, lib: TrimeshLib): (r: Kwargs)
    ensures r.faceCount == target
    ensures r.aggression.Some? <==> lib.acceptsAggression
    ensures r.aggression.Some? ==> r.aggression.value == aggression
    ensures r.preserveBorder.Some? <==> lib.acceptsPreserveBorder && preserveBorder
    ensures r.preserveBorder != Some(false)
  {
    Kwargs(target,
           if lib.acceptsAggression then Some(aggression) else None,
           if lib.acceptsPreserveBorder && preserveBorder then Some(true) else None)
  }

  /** The mesh the library builds and cleans from the Blender mesh, if it builds one. */
  function Preprocessed(m: PolyMesh, lib: TrimeshLib): Option<TriMesh> {
    match lib.construct(TriMesh(m.co, FanAll(Polygons(m))))
    case Err(_) => None
    case Ok(t) => Some(CleanTrimesh(t, lib))
  }

  /** A simplification result is usable when it exists and has vertices and faces. */
  predicate Usable(s: Option<TriMesh>) {
    s.Some? && |s.value.vertices| > 0 && |s.value.faces| > 0
  }

  /** The except branch around simplification: the cleaned mesh is written when it has fewer
      faces than were read (a raising write then ends the pass with the mesh cleared);
      otherwise the pass fails, leaving the mesh cleared when the raise came from an earlier
      write-back. */
  function Fallback(t: TriMesh, initial: nat, cleared: bool, lib: TrimeshLib): (r: Outcome)
    ensures |t.faces| < initial && !lib.writeRaises(t.vertices, t.faces) ==> r == Rewritten(t)
    ensures |t.faces| < initial && lib.writeRaises(t.vertices, t.faces) ==> r == Cleared
    ensures |t.faces| >= initial ==> r == if cleared then Cleared else Untouched
  {
    if |t.faces| < initial then
      if lib.writeRaises(t.vertices, t.faces) then Cleared else Rewritten(t)
    else if cleared then Cleared else Untouched
  }

  /** The inner `try` of `decimate_with_trimesh`, from simplification on: an unusable result
      leaves the mesh alone, a usable one is written, and a raise in simplification or in that
      write goes to the fallback. */
  function SimplifyOutcome(t: TriMesh, initial: nat, kw: Kwargs, lib: TrimeshLib): (r: Outcome)
    ensures r.Rewritten? ==> !lib.writeRaises(r.t.vertices, r.t.faces)
    ensures lib.simplify(t, kw).Ok? && !Usable(lib.simplify(t, kw).value) ==> r.Untouched?
  {
    match lib.simplify(t, kw)
    case Ok(s) =>
      if !Usable(s) then Untouched
      else if lib.writeRaises(s.value.vertices, s.value.faces) then Fallback(t, initial, true, lib)
      else Rewritten(s.value)
    case Err(_) => Fallback(t, initial, false, lib)
  }

  /** `decimate_with_trimesh` as a decision: what happens to the mesh. Nothing is written
      without the library, for a mesh without vertices or triangles, when construction raises,
      when the clean-up leaves no face, or when simplification returns an unusable result. A
      usable result is written. If simplification raises, or writing its result raises, the
      cleaned mesh is written when it has fewer faces than the triangles read. A write that
      raises leaves the mesh cleared. */
  function TrimeshPlan(m: PolyMesh, ratio: real, aggression: int, preserveBorder: bool, lib: TrimeshLib): (r: Outcome)
    ensures !lib.available || |m.co| == 0 || TriSum(Polygons(m)) == 0 || Preprocessed(m, lib).None? ==> r.Untouched?
    ensures r.Rewritten? ==>
              var t := Preprocessed(m, lib).value;
              var s := lib.simplify(t, SimplifyArgs(TargetFaces(|t.faces|, ratio), aggression, preserveBorder, lib));
              |t.faces| > 0 && |r.t.faces| > 0 && !lib.writeRaises(r.t.vertices, r.t.faces)
              && ((s.Ok? && Usable(s.value) && r.t == s.value.value) || (r.t == t && |t.faces| < TriSum(Polygons(m))))
    ensures lib.available && |m.co| > 0 && TriSum(Polygons(m)) > 0 && Preprocessed(m, lib).Some? ==>
              var t := Preprocessed(m, lib).value;
              var s := lib.simplify(t, SimplifyArgs(TargetFaces(|t.faces|, ratio), aggression, preserveBorder, lib));
              var written := s.Ok? && Usable(s.value) && !lib.writeRaises(s.value.value.vertices, s.value.value.faces);
              var writeFailed := s.Ok? && Usable(s.value) && lib.writeRaises(s.value.value.vertices, s.value.value.faces);
              (|t.faces| == 0 ==> r.Untouched?)
              && (|t.faces| > 0 && written ==> r == Rewritten(s.value.value))
              && (|t.faces| > 0 && s.Ok? && !Usable(s.value) ==> r.Untouched?)
              && (|t.faces| > 0 && (s.Err? || writeFailed) ==> r == Fallback(t, TriSum(Polygons(m)), writeFailed, lib))
  {
    var initial := TriSum(Polygons(m));
    if !lib.available || |m.co| == 0 || initial == 0 then Untouched
    else match Preprocessed(m, lib)
      case None => Untouched
      case Some(t) =>
        if |t.faces| == 0 then Untouched
        else SimplifyOutcome(t, initial, SimplifyArgs(TargetFaces(|t.faces|, ratio), aggression, preserveBorder, lib), lib)
  }

  /** `decimate_with_trimesh` on mesh `d`: True exactly when the plan rewrites the mesh, and the
      mesh is left as the plan says. */
  method DecimateWithTrimesh(d: string, ratio: real, aggression: int, preserveBorder: bool, lib: TrimeshLib, store: GeometryStore)
    returns (ok: bool)
    requires d in store.meshes
    modifies store
    ensures ok == TrimeshPlan(old(store.meshes[d]), ratio, aggression, preserveBorder, lib).Rewritten?
    ensures store.meshes == old(store.meshes)[d := MeshAfter(old(store.meshes[d]), TrimeshPlan(old(store.meshes[d]), ratio, aggression, preserveBorder, lib))]
  {
    if !lib.available {
      return false;
    }
    var m := store.meshes[d];
    var vertices, faces := BlenderToNumpy(m);
    var initialFaces := |faces|;
    if |vertices| == 0 || |faces| == 0 {
      return false;
    }
    var constructed := lib.construct(TriMesh(vertices, faces));
    if constructed.Err? {
      return false;
    }
    var tm := CleanTrimesh(constructed.value, lib);
    if |tm.faces| == 0 {
      return false;
    }
    var target := TargetFaces(|tm.faces|, ratio);
    var kwargs := SimplifyArgs(target, aggression, preserveBorder, lib);
    ok := SimplifyAndWrite(d, tm, initialFaces, kwargs, lib, store);
  }

  /** The inner `try` in place. */
  method SimplifyAndWrite(d: string, tm: TriMesh, initialFaces: nat, kwargs: Kwargs, lib: TrimeshLib, store: GeometryStore)
    returns (ok: bool)
    requires d in store.meshes
    modifies store
    ensures ok == SimplifyOutcome(tm, initialFaces, kwargs, lib).Rewritten?
    ensures store.meshes == old(store.meshes)[d := MeshAfter(old(store.meshes[d]), SimplifyOutcome(tm, initialFaces, kwargs, lib))]
  {
    var simplified := lib.simplify(tm, kwargs);
    var cleared := false;
    if simplified.Ok? {
      if !Usable(simplified.value) {
        assert store.meshes == store.meshes[d := store.meshes[d]];
        return false;
      }
      var s := simplified.value.value;
      ok := NumpyToBlender(d, s.vertices, s.faces, lib.writeRaises(s.vertices, s.faces), store);
      if ok {
        return true;
      }
      cleared := true;
    }
    ok := WriteFallback(d, tm, initialFaces, cleared, lib, store);
  }

  /** The except branch around simplification in place: the cleaned mesh is written back when
      it has fewer faces than were read, and the pass fails otherwise. `cleared` says whether
      an earlier write-back raised, which left the mesh cleared. */
  method WriteFallback(d: string, tm: TriMesh, initial: nat, cleared: bool, lib: TrimeshLib, store: GeometryStore)
    returns (ok: bool)
    requires d in store.meshes && (cleared ==> store.meshes[d] == Geometry.Cleared())
    modifies store
    ensures ok == Fallback(tm, initial, cleared, lib).Rewritten?
    ensures store.meshes == old(store.meshes)[d := MeshAfter(old(store.meshes[d]), Fallback(tm, initial, cleared, lib))]
  {
    if |tm.faces| < initial {
      ok := NumpyToBlender(d, tm.vertices, tm.faces, lib.writeRaises(tm.vertices, tm.faces), store);
      return;
    }
    assert store.meshes == store.meshes[d := store.meshes[d]];
    return false;
  }

  /** After a successful pass the mesh holds only triangles, and reading it back gives exactly
      the triangles that were planned: one polygon each, `loop_start = 3i`, `loop_total = 3`. */
  lemma {:induction false} TrimeshWriteBack(m: PolyMesh, ratio: real, aggression: int, preserveBorder: bool, lib: TrimeshLib)
    requires TrimeshPlan(m, ratio, aggression, preserveBorder, lib).Rewritten?
    ensures var t := TrimeshPlan(m, ratio, aggression, preserveBorder, lib).t;
            var w := Written(t.vertices, t.faces);
            AllTris(Polygons(w)) && FanAll(Polygons(w)) == t.faces && FaceCount(w) == |t.faces| > 0
            && |w.loopVerts| == 3 * FaceCount(w)
            && (forall i :: 0 <= i < FaceCount(w) ==> w.loopStart[i] == 3 * i && w.loopTotal[i] == 3)
  {
    var t := TrimeshPlan(m, ratio, aggression, preserveBorder, lib).t;
    WrittenLayout(t.vertices, t.faces);
    WrittenReadsBack(t.vertices, t.faces);
  }

  /** `decimate_trimesh` on the mesh store: `(success, faces_before, faces_after)`. An object
      that is not a mesh with data, or a missing library, gives (False, 0, 0) with nothing
      changed; otherwise the counts are the polygon counts before and after the pass, which
      is the face count written, 0 for a cleared mesh, and the count before when the mesh was
      left alone. */
  function DecimateTrimeshSpec(meshes: map<string, PolyMesh>, o: Option<Obj>, ratio: real, aggression: int, preserveBorder: bool, lib: TrimeshLib)
    : (r: (map<string, PolyMesh>, (bool, nat, nat)))
    ensures o.None? || GeometryOf(o.value, meshes).None? || !lib.available ==> r == (meshes, (false, 0, 0))
    ensures r.0.Keys == meshes.Keys
    ensures o.Some? && GeometryOf(o.value, meshes).Some? && lib.available ==>
              var d := o.value.data.value;
              var plan := TrimeshPlan(meshes[d], ratio, aggression, preserveBorder, lib);
              r.1.0 == plan.Rewritten? && r.1.1 == FaceCount(meshes[d])
              && (plan.Rewritten? ==> r.0 == meshes[d := Written(plan.t.vertices, plan.t.faces)] && r.1.2 == |plan.t.faces|)
              && (plan.Cleared? ==> r.0 == meshes[d := Geometry.Cleared()] && r.1.2 == 0)
              && (plan.Untouched? ==> r.0 == meshes && r.1.2 == r.1.1)
  {
    if o.None? || GeometryOf(o.value, meshes).None? || !lib.available then (meshes, (false, 0, 0))
    else
      var d := o.value.data.value;
      var plan := TrimeshPlan(meshes[d], ratio, aggression, preserveBorder, lib);
      var after := meshes[d := MeshAfter(meshes[d], plan)];
      (after, (plan.Rewritten?, FaceCount(meshes[d]), FaceCount(after[d])))
  }

  /** `decimate_trimesh`. */
  method DecimateTrimesh(o: Option<Obj>, ratio: real, aggression: int, preserveBorder: bool, lib: TrimeshLib, store: GeometryStore)
    returns (ok: bool, facesBefore: nat, facesAfter: nat)
    modifies store
    ensures (store.meshes, (ok, facesBefore, facesAfter)) == DecimateTrimeshSpec(old(store.meshes), o, ratio, aggression, preserveBorder, lib)
  {
    if o.None? || GeometryOf(o.value, store.meshes).None? {
      return false, 0, 0;
    }
    if !lib.available {
      return false, 0, 0;
    }
    var d := o.value.data.value;
    facesBefore := FaceCount(store.meshes[d]);
    ok := DecimateWithTrimesh(d, ratio, aggression, preserveBorder, lib, store);
    facesAfter := FaceCount(store.meshes[d]);
  }
}
