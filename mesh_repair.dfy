/** `mesh_repair.py`: cleaning a Blender mesh through trimesh. The mesh is converted to a
    triangle mesh (fanning polygons of four or more vertices, ignoring those under three), run
    through the repairs whose flags are set in a fixed order, checked, and written back as an
    all-triangle mesh with vertex and face statistics. The trimesh and networkx libraries are
    parameters; each repair is an oracle that may raise. */
module MeshRepair {
  import opened Wrappers
  import opened Scene
  import opened Geometry

  /** The libraries as `mesh_repair.py` uses them. `mergeVertices` reports both the state the
      mesh it was called on is left in (it works in place) and what it returned; `analyze`
      is the error message when `analyze_mesh_issues` raises. `writeRaises` says whether
      Blender raises while `trimesh_to_blender_mesh` writes the given mesh back; it is part of
      this parameter so that the pass has one environment. */
  datatype RepairLib = RepairLib(
    available: bool,
    networkx: bool,
    construct: TriMesh -> Result<TriMesh>,
    analyze: TriMesh -> Option<string>,
    mergeVertices: TriMesh -> Result<(TriMesh, Option<TriMesh>)>,
    removeDuplicateFaces: TriMesh -> Result<TriMesh>,
    removeUnreferenced: TriMesh -> Result<TriMesh>,
    fixNormals: TriMesh -> Result<TriMesh>,
    fillHoles: TriMesh -> Result<TriMesh>,
    isWatertight: TriMesh -> bool,
    writeRaises: TriMesh -> bool)

  /** The keyword flags of `repair_mesh` / `repair_object`. */
  datatype RepairFlags = RepairFlags(dupVerts: bool, dupFaces: bool, unreferenced: bool, normals: bool,
                                     holes: bool, degenerate: bool, watertight: bool)

  /** The stats dictionary: `{'error': ...}` on failure; on success the counts before and after
      and the numbers removed; only the counts before when the write-back failed. */
  datatype RepairStats =
    | Failed(error: string)
    | Unwritten(verticesBefore: nat, facesBefore: nat)
    | Stats(verticesBefore: nat, facesBefore: nat, verticesAfter: nat, facesAfter: nat, verticesRemoved: int, facesRemoved: int)

  // ---------------------------------------------------------------- conversion

  /** `blender_mesh_to_trimesh`: None without the library, for a mesh with no vertices or no
      polygons, when no triangle results or when construction raises. */
  function Convert(m: PolyMesh, lib: RepairLib): (r: Option<TriMesh>)
    ensures r.Some? <==> lib.available && |m.co| > 0 && FaceCount(m) > 0 && TriSum(Polygons(m)) > 0
                         && lib.construct(TriMesh(m.co, FanAll(Polygons(m)))).Ok?
    ensures r.Some? ==> r.value == lib.construct(TriMesh(m.co, FanAll(Polygons(m)))).value
  {
    if !lib.available || |m.co| == 0 || FaceCount(m) == 0 then None
    else
      var faces := FanAll(Polygons(m));
      if faces == [] then None
      else match lib.construct(TriMesh(m.co, faces))
        case Err(_) => None
        case Ok(t) => Some(t)
  }

  /** The face loop of `blender_mesh_to_trimesh`: a triangle is taken as it is, a larger polygon
      fanned, a smaller one skipped. */
  method TriangulateFaces(ps: seq<seq<nat>>) returns (faces: seq<Tri>)
    ensures faces == FanAll(ps)
  {
    faces := [];
    var p := 0;
    while p < |ps|
      invariant 0 <= p <= |ps|
      invariant faces == FanAll(ps[..p])
    {
      assert ps[..p + 1][..p] == ps[..p];
      var verts := ps[p];
      if |verts| == 3 {
        faces := faces + [Tri(verts[0], verts[1], verts[2])];
      } else if |verts| > 3 {
        var tris := FanPolygon(verts);
        faces := faces + tris;
      } else {
        assert Fan(verts) == [];
        assert faces == FanAll(ps[..p]) + Fan(verts);
      }
      assert FanAll(ps[..p + 1]) == FanAll(ps[..p]) + Fan(ps[p]);
      p := p + 1;
    }
    assert ps[..p] == ps;
  }

  /** `blender_mesh_to_trimesh`. */
  method BlenderMeshToTrimesh(m: PolyMesh, lib: RepairLib) returns (r: Option<TriMesh>)
    ensures r == Convert(m, lib)
  {
    if !lib.available || |m.co| == 0 || FaceCount(m) == 0 {
      return None;
    }
    var faces := TriangulateFaces(Polygons(m));
    if |faces| == 0 {
      return None;
    }
    var built := lib.construct(TriMesh(m.co, faces));
    if built.Err? {
      return None;
    }
    return Some(built.value);
  }

  /** `trimesh_to_blender_mesh`: the mesh is cleared and rebuilt, one polygon of three loops per
      face, and True is returned. When Blender raises (`raises`) the mesh stays cleared and
      False is returned. */
  method TrimeshToBlenderMesh(t: TriMesh, d: string, raises: bool, store: GeometryStore) returns (ok: bool)
    modifies store
    ensures ok == !raises
    ensures store.meshes == old(store.meshes)[d := if ok then Written(t.vertices, t.faces) else Cleared()]
  {
    store.meshes := store.meshes[d := Cleared()];
    if raises {
      return false;
    }
    store.meshes := store.meshes[d := Written(t.vertices, t.faces)];
    return true;
  }

  /** The mesh `d` holds after `repair_mesh`: untouched when no write-back was attempted, the
      written triangle mesh when it succeeded, cleared when it raised. */
  function AfterRepair(meshes: map<string, PolyMesh>, d: string, attempt: Option<TriMesh>, lib: RepairLib)
    : (r: map<string, PolyMesh>)
    ensures attempt.None? ==> r == meshes
    ensures attempt.Some? ==> r.Keys == meshes.Keys + {d}
    ensures attempt.Some? && !lib.writeRaises(attempt.value) ==> r[d] == Written(attempt.value.vertices, attempt.value.faces)
    ensures attempt.Some? && lib.writeRaises(attempt.value) ==> r[d] == Cleared()
    ensures forall k :: k in meshes && k != d ==> k in r && r[k] == meshes[k]
  {
    match attempt
    case None => meshes
    case Some(t) => meshes[d := if lib.writeRaises(t) then Cleared() else Written(t.vertices, t.faces)]
  }

  // ---------------------------------------------------------------- duplicate vertices

  /** Every face index is below the vertex count (`faces.max() < len(vertices)`). */
  predicate IndicesBelow(t: TriMesh) {
    forall i :: 0 <= i < |t.faces| ==> t.faces[i].a < |t.vertices| && t.faces[i].b < |t.vertices| && t.faces[i].c < |t.vertices|
  }

  /** The check `repair_mesh` makes before adopting a merge result. */
  predicate Adoptable(r: TriMesh) {
    |r.vertices| > 0 && (|r.faces| == 0 || IndicesBelow(r))
  }

  /** `remove_duplicate_vertices` as written, with the state the mesh it was given is left in:
      (what it returns, that mesh afterwards). Its fallbacks return the mesh object it was
      given, which an in-place merge has already changed. */
  function RemoveDuplicateVerticesAsWritten(t: TriMesh, lib: RepairLib): (TriMesh, TriMesh) {
    if |t.vertices| == 0 then (t, t)
    else match lib.mergeVertices(t)
      case Err(_) => (t, t)
      case Ok((changed, None)) => (changed, changed)
      case Ok((changed, Some(res))) => if |res.vertices| == 0 then (changed, changed) else (res, changed)
  }

  /** The duplicate-vertex step of `repair_mesh` as written: a rejected result leaves `tm_mesh`
      bound to the object the merge ran on, in its state after the merge. */
  function DupVertsStepAsWritten(t: TriMesh, lib: RepairLib): TriMesh {
    var (res, obj) := RemoveDuplicateVerticesAsWritten(t, lib);
    if Adoptable(res) then res else obj
  }

  /** A merge that empties the mesh in place and returns None. */
  function EmptyingMerge(lib: RepairLib): RepairLib {
    lib.(mergeVertices := (t: TriMesh) => Ok((TriMesh([], t.faces), None)))
  }

  /** With a merge that empties the mesh in place, the step as written keeps the emptied mesh,
      though it was meant to keep the mesh as it was; the corrected step keeps it. */
  lemma MergeFallbackKeepsMutated(t: TriMesh, lib: RepairLib)
    requires |t.vertices| > 0
    ensures DupVertsStepAsWritten(t, EmptyingMerge(lib)).vertices == []
    ensures DupVertsStep(t, EmptyingMerge(lib)) == t
  {
  }

  /** A merge that leaves `changed` in place of the mesh and returns `res`. */
  function FixedMerge(lib: RepairLib, changed: TriMesh, res: Option<TriMesh>): RepairLib {
    lib.(mergeVertices := (u: TriMesh) => Ok((changed, res)))
  }

  /** Any merge result `repair_mesh` rejects: a merge that works in place and leaves a mesh
      with a face index past its vertices, or one that also returns a separate mesh that is
      empty or fails the same check. As written the step goes on with the object the merge
      changed in place; the corrected step goes on with the mesh as it was before the merge. */
  lemma RejectedMergeKeepsMutated(t: TriMesh, changed: TriMesh, res: Option<TriMesh>, lib: RepairLib)
    requires |t.vertices| > 0
    requires res.None? ==> !Adoptable(changed)
    requires res.Some? ==> !Adoptable(res.value)
    ensures DupVertsStepAsWritten(t, FixedMerge(lib, changed, res)) == changed
    ensures DupVertsStep(t, FixedMerge(lib, changed, res)) == t
  {
  }

  /** `remove_duplicate_vertices` with the fallback it was written for: the mesh as it was
      before the merge. */
  function RemoveDuplicateVertices(t: TriMesh, lib: RepairLib): (r: TriMesh)
    ensures r != t ==> |r.vertices| > 0
  {
    if |t.vertices| == 0 then t
    else match lib.mergeVertices(t)
      case Err(_) => t
      case Ok((changed, None)) => if |changed.vertices| == 0 then t else changed
      case Ok((changed, Some(res))) => if |res.vertices| == 0 then t else res
  }

  /** The duplicate-vertex step: a merge result is adopted only when it has vertices and every
      face index is below the vertex count; otherwise the mesh stays as it was. */
  function DupVertsStep(t: TriMesh, lib: RepairLib): (r: TriMesh)
    ensures r == t || Adoptable(r)
    ensures Adoptable(RemoveDuplicateVertices(t, lib)) ==> r == RemoveDuplicateVertices(t, lib)
  {
    var res := RemoveDuplicateVertices(t, lib);
    if Adoptable(res) then res else t
  }

  /** A merge that works in place and leaves an adoptable mesh gives the same step both ways. */
  lemma InPlaceMergeAgrees(t: TriMesh, lib: RepairLib)
    requires |t.vertices| > 0
    requires lib.mergeVertices(t).Ok? && lib.mergeVertices(t).value.1.None?
    requires Adoptable(lib.mergeVertices(t).value.0)
    ensures DupVertsStepAsWritten(t, lib) == DupVertsStep(t, lib) == lib.mergeVertices(t).value.0
  {
  }

  // ---------------------------------------------------------------- other repairs

  /** `_fix_mesh_normals`: nothing without networkx. */
  function NormalsStep(t: TriMesh, lib: RepairLib): (r: TriMesh)
    ensures !lib.networkx ==> r == t
  {
    if !lib.networkx then t else KeepOnError(lib.fixNormals(t), t)
  }

  /** `_fill_mesh_holes`: nothing without networkx. */
  function HolesStep(t: TriMesh, lib: RepairLib): (r: TriMesh)
    ensures !lib.networkx ==> r == t
  {
    if !lib.networkx then t else KeepOnError(lib.fillHoles(t), t)
  }

  /** `_make_mesh_watertight`: nothing without networkx or for a mesh already watertight. */
  function WatertightStep(t: TriMesh, lib: RepairLib): (r: TriMesh)
    ensures !lib.networkx || lib.isWatertight(t) ==> r == t
    ensures lib.networkx && !lib.isWatertight(t) ==> r == HolesStep(t, lib)
  {
    if !lib.networkx || lib.isWatertight(t) then t else KeepOnError(lib.fillHoles(t), t)
  }

  function Sub(u: Vec3, v: Vec3): Vec3 {
    Vec3(u.x - v.x, u.y - v.y, u.z - v.z)
  }

  function Cross(u: Vec3, v: Vec3): Vec3 {
    Vec3(u.y * v.z - u.z * v.y, u.z * v.x - u.x * v.z, u.x * v.y - u.y * v.x)
  }

  function NormSq(v: Vec3): real {
    v.x * v.x + v.y * v.y + v.z * v.z
  }

  /** (2 x 1e-10)^2: a face's area exceeds 1e-10 exactly when the squared length of the cross
      product of two of its edges exceeds this. */
  const DegenerateBound: real := 0.00000000000000000004

  /** `area_faces > 1e-10` for one face, in exact arithmetic. */
  predicate HasArea(vs: seq<Vec3>, f: Tri)
    requires f.a < |vs| && f.b < |vs| && f.c < |vs|
  {
    NormSq(Cross(Sub(vs[f.b], vs[f.a]), Sub(vs[f.c], vs[f.a]))) > DegenerateBound
  }

  /** `faces[area_faces > 1e-10]`: the faces with area, in order. The list is unchanged exactly
      when every face has area. */
  function WithArea(vs: seq<Vec3>, fs: seq<Tri>): (r: seq<Tri>)
    requires forall i :: 0 <= i < |fs| ==> fs[i].a < |vs| && fs[i].b < |vs| && fs[i].c < |vs|
    ensures forall i :: 0 <= i < |r| ==> r[i] in fs && HasArea(vs, r[i])
    ensures forall i :: 0 <= i < |fs| && HasArea(vs, fs[i]) ==> fs[i] in r
    ensures |r| <= |fs|
    ensures r != fs ==> |r| < |fs|
    ensures r == fs <==> forall i :: 0 <= i < |fs| ==> HasArea(vs, fs[i])
    decreases |fs|
  {
    if fs == [] then []
    else
      var q := fs[..|fs| - 1];
      var f := fs[|fs| - 1];
      var p := WithArea(vs, q);
      if HasArea(vs, f) then p + [f] else
        assert |p| < |fs|;
        p
  }

  const AllDegenerate := "All faces were degenerate - cannot repair"

  /** The degenerate-face step. When the areas cannot be computed (a face index out of range)
      the raise is caught and nothing changes; a mesh whose faces all have area is kept; one
      with no face of any area fails the repair; otherwise the mesh is rebuilt from the faces
      with area, and a raise there is caught too. */
  function DegenerateStep(t: TriMesh, lib: RepairLib): (r: Result<TriMesh>)
    ensures r.Err? ==> r.error == AllDegenerate && |t.faces| > 0 && IndicesBelow(t)
    ensures !IndicesBelow(t) ==> r == Ok(t)
    ensures r.Ok? && r.value != t ==> IndicesBelow(t) && lib.construct(TriMesh(t.vertices, WithArea(t.vertices, t.faces))) == Ok(r.value)
                                      && 0 < |WithArea(t.vertices, t.faces)| < |t.faces|
  {
    if !IndicesBelow(t) then Ok(t)
    else
      var kept := WithArea(t.vertices, t.faces);
      if kept == t.faces then Ok(t)
      else if kept == [] then Err(AllDegenerate)
      else match lib.construct(TriMesh(t.vertices, kept))
        case Err(_) => Ok(t)
        case Ok(t2) => Ok(t2)
  }

  /** The repairs before the degenerate-face step, each only when its flag is set: duplicate
      vertices, duplicate faces, unreferenced vertices, normals. */
  function EarlyRepairs(t: TriMesh, flags: RepairFlags, lib: RepairLib): TriMesh {
    var t1 := if flags.dupVerts then DupVertsStep(t, lib) else t;
    var t2 := if flags.dupFaces then KeepOnError(lib.removeDuplicateFaces(t1), t1) else t1;
    var t3 := if flags.unreferenced then KeepOnError(lib.removeUnreferenced(t2), t2) else t2;
    if flags.normals then NormalsStep(t3, lib) else t3
  }

  /** The repairs after it: holes, then watertightness. */
  function LateRepairs(t: TriMesh, flags: RepairFlags, lib: RepairLib): TriMesh {
    var t6 := if flags.holes then HolesStep(t, lib) else t;
    if flags.watertight then WatertightStep(t6, lib) else t6
  }

  /** The whole chain; only the degenerate-face step can stop it. */
  function Repairs(t: TriMesh, flags: RepairFlags, lib: RepairLib): (r: Result<TriMesh>)
    ensures r.Err? ==> flags.degenerate && r.error == AllDegenerate
  {
    var t4 := EarlyRepairs(t, flags, lib);
    if !flags.degenerate then Ok(LateRepairs(t4, flags, lib))
    else match DegenerateStep(t4, lib)
      case Err(e) => Err(e)
      case Ok(t5) => Ok(LateRepairs(t5, flags, lib))
  }

  /** With every flag off no repair runs. */
  lemma NoFlagsNoRepairs(t: TriMesh, lib: RepairLib)
    ensures Repairs(t, RepairFlags(false, false, false, false, false, false, false), lib) == Ok(t)
  {
  }

  // ---------------------------------------------------------------- repair_mesh

  /** `repair_mesh` from the converted triangle mesh `t` on: (success, stats, the triangle mesh
      to write back). It fails when the analysis raises, when every face was degenerate, and
      when the repaired mesh has no vertices or no faces; otherwise it reports the counts
      before and after, with the numbers removed as differences. */
  function RepairConverted(t: TriMesh, flags: RepairFlags, lib: RepairLib): (r: (bool, RepairStats, Option<TriMesh>))
    ensures r.0 <==> r.2.Some?
    ensures r.0 <==> r.1.Stats?
    ensures r.0 ==> var s, t2 := r.1, r.2.value;
                    Repairs(t, flags, lib) == Ok(t2)
                    && s.verticesBefore == |t.vertices| && s.facesBefore == |t.faces|
                    && s.verticesAfter == |t2.vertices| > 0 && s.facesAfter == |t2.faces| > 0
                    && s.verticesRemoved == s.verticesBefore - s.verticesAfter
                    && s.facesRemoved == s.facesBefore - s.facesAfter
    ensures lib.analyze(t).None? && Repairs(t, flags, lib).Ok? ==>
              var t2 := Repairs(t, flags, lib).value;
              (|t2.vertices| == 0 ==> r.1 == Failed("Mesh became invalid during repair"))
              && (|t2.vertices| > 0 && |t2.faces| == 0 ==> r.1 == Failed("Mesh has no faces after repair"))
  {
    if lib.analyze(t).Some? then (false, Failed(lib.analyze(t).value), None)
    else match Repairs(t, flags, lib)
      case Err(e) => (false, Failed(e), None)
      case Ok(t2) =>
        if |t2.vertices| == 0 then (false, Failed("Mesh became invalid during repair"), None)
        else if |t2.faces| == 0 then (false, Failed("Mesh has no faces after repair"), None)
        else if lib.analyze(t2).Some? then (false, Failed(lib.analyze(t2).value), None)
        else (true, Stats(|t.vertices|, |t.faces|, |t2.vertices|, |t2.faces|, |t.vertices| - |t2.vertices|, |t.faces| - |t2.faces|), Some(t2))
  }

  /** `repair_mesh`: (success, stats, the triangle mesh whose write-back was attempted).
      Without the library, or when conversion fails, it fails at once; otherwise the converted
      mesh is repaired and, when that succeeds, written back. A write-back that raises turns
      the result into (False, the counts before). */
  function RepairMeshSpec(m: PolyMesh, flags: RepairFlags, lib: RepairLib): (r: (bool, RepairStats, Option<TriMesh>))
    ensures !lib.available ==> r == (false, Failed("Trimesh not available"), None)
    ensures lib.available && Convert(m, lib).None? ==> r == (false, Failed("Failed to convert mesh"), None)
    ensures lib.available && Convert(m, lib).Some? ==>
              var c := RepairConverted(Convert(m, lib).value, flags, lib);
              r.2 == c.2
              && (c.0 && lib.writeRaises(c.2.value) ==> r.1 == Unwritten(c.1.verticesBefore, c.1.facesBefore))
              && (!(c.0 && lib.writeRaises(c.2.value)) ==> r == c)
    ensures r.0 <==> r.2.Some? && !lib.writeRaises(r.2.value)
    ensures r.0 <==> r.1.Stats?
  {
    if !lib.available then (false, Failed("Trimesh not available"), None)
    else match Convert(m, lib)
      case None => (false, Failed("Failed to convert mesh"), None)
      case Some(t) =>
        var c := RepairConverted(t, flags, lib);
        if c.0 && lib.writeRaises(c.2.value) then (false, Unwritten(c.1.verticesBefore, c.1.facesBefore), c.2) else c
  }

  /** With every flag off a successful repair removes nothing. */
  lemma NoFlagsRemoveNothing(m: PolyMesh, lib: RepairLib)
    requires RepairMeshSpec(m, RepairFlags(false, false, false, false, false, false, false), lib).0
    ensures var s := RepairMeshSpec(m, RepairFlags(false, false, false, false, false, false, false), lib).1;
            s.verticesRemoved == 0 && s.facesRemoved == 0
  {
    NoFlagsNoRepairs(Convert(m, lib).value, lib);
  }

  /** After a successful repair the Blender mesh holds only triangles: one polygon of three
      loops per repaired face, and reading it back gives exactly the repaired faces. */
  lemma {:induction false} RepairWriteBack(m: PolyMesh, flags: RepairFlags, lib: RepairLib)
    requires RepairMeshSpec(m, flags, lib).0
    ensures var t := RepairMeshSpec(m, flags, lib).2.value;
            var w := Written(t.vertices, t.faces);
            AllTris(Polygons(w)) && FanAll(Polygons(w)) == t.faces
            && FaceCount(w) == RepairMeshSpec(m, flags, lib).1.facesAfter && w.co == t.vertices
            && (forall i :: 0 <= i < FaceCount(w) ==> w.loopStart[i] == 3 * i && w.loopTotal[i] == 3)
  {
    var t := RepairMeshSpec(m, flags, lib).2.value;
    WrittenLayout(t.vertices, t.faces);
    WrittenReadsBack(t.vertices, t.faces);
  }

  /** The first four flag-guarded reassignments of `tm_mesh`. */
  method RunEarlyRepairs(t: TriMesh, flags: RepairFlags, lib: RepairLib) returns (tm: TriMesh)
    ensures tm == EarlyRepairs(t, flags, lib)
  {
    tm := t;
    if flags.dupVerts {
      tm := DupVertsStep(tm, lib);
    }
    if flags.dupFaces {
      tm := KeepOnError(lib.removeDuplicateFaces(tm), tm);
    }
    if flags.unreferenced {
      tm := KeepOnError(lib.removeUnreferenced(tm), tm);
    }
    if flags.normals {
      tm := NormalsStep(tm, lib);
    }
  }

  /** The last two. */
  method RunLateRepairs(t: TriMesh, flags: RepairFlags, lib: RepairLib) returns (tm: TriMesh)
    ensures tm == LateRepairs(t, flags, lib)
  {
    tm := t;
    if flags.holes {
      tm := HolesStep(tm, lib);
    }
    if flags.watertight {
      tm := WatertightStep(tm, lib);
    }
  }

  /** The body of `repair_mesh` after conversion: `tm_mesh` is reassigned step by step. */
  method RepairTrimesh(t: TriMesh, flags: RepairFlags, lib: RepairLib) returns (ok: bool, stats: RepairStats, out: Option<TriMesh>)
    ensures (ok, stats, out) == RepairConverted(t, flags, lib)
  {
    if lib.analyze(t).Some? {
      return false, Failed(lib.analyze(t).value), None;
    }
    var tm := RunEarlyRepairs(t, flags, lib);
    if flags.degenerate {
      var cleaned := DegenerateStep(tm, lib);
      if cleaned.Err? {
        return false, Failed(cleaned.error), None;
      }
      tm := cleaned.value;
    }
    tm := RunLateRepairs(tm, flags, lib);
    if |tm.vertices| == 0 {
      return false, Failed("Mesh became invalid during repair"), None;
    }
    if |tm.faces| == 0 {
      return false, Failed("Mesh has no faces after repair"), None;
    }
    if lib.analyze(tm).Some? {
      return false, Failed(lib.analyze(tm).value), None;
    }
    var verticesBefore, facesBefore := |t.vertices|, |t.faces|;
    return true, Stats(verticesBefore, facesBefore, |tm.vertices|, |tm.faces|, verticesBefore - |tm.vertices|, facesBefore - |tm.faces|), Some(tm);
  }

  /** `repair_mesh` on mesh `d`: the mesh is rewritten on success, cleared when the write-back
      raises, and untouched on every other failure. */
  method RepairMesh(d: string, flags: RepairFlags, lib: RepairLib, store: GeometryStore) returns (ok: bool, stats: RepairStats)
    requires d in store.meshes
    modifies store
    ensures (ok, stats) == (RepairMeshSpec(old(store.meshes[d]), flags, lib).0, RepairMeshSpec(old(store.meshes[d]), flags, lib).1)
    ensures store.meshes == AfterRepair(old(store.meshes), d, RepairMeshSpec(old(store.meshes[d]), flags, lib).2, lib)
  {
    if !lib.available {
      return false, Failed("Trimesh not available");
    }
    var converted := BlenderMeshToTrimesh(store.meshes[d], lib);
    if converted.None? {
      return false, Failed("Failed to convert mesh");
    }
    var out;
    ok, stats, out := RepairTrimesh(converted.value, flags, lib);
    if ok {
      var written := TrimeshToBlenderMesh(out.value, d, lib.writeRaises(out.value), store);
      if !written {
        ok, stats := false, Unwritten(stats.verticesBefore, stats.facesBefore);
      }
    }
  }

  // ---------------------------------------------------------------- repair_object

  /** `repair_object`'s checks, in order: no object, not a mesh, no mesh data, no vertices, no
      faces. The message is empty exactly when the object passes. */
  function ValidateRepairTarget(o: Option<Obj>, meshes: map<string, PolyMesh>): (r: string)
    ensures r == "" <==> o.Some? && GeometryOf(o.value, meshes).Some?
                         && |GeometryOf(o.value, meshes).value.co| > 0 && FaceCount(GeometryOf(o.value, meshes).value) > 0
  {
    if o.None? then "Object is None"
    else
      var n := o.value.name;
      if o.value.kind != Mesh then "Object \"" + n + "\" is not a mesh object (type: " + TypeName(o.value.kind) + ")"
      else if GeometryOf(o.value, meshes).None? then "Object \"" + n + "\" has no mesh data"
      else if |meshes[o.value.data.value].co| == 0 then "Object \"" + n + "\" has no vertices"
      else if FaceCount(meshes[o.value.data.value]) == 0 then "Object \"" + n + "\" has no faces"
      else ""
  }

  /** `repair_object` on the mesh store: a rejected object gives (False, {'error': message})
      with nothing changed; otherwise `repair_mesh` runs on its mesh, which is rewritten on
      success, cleared when the write-back raises and otherwise left alone. */
  function RepairObjectSpec(meshes: map<string, PolyMesh>, o: Option<Obj>, flags: RepairFlags, lib: RepairLib)
    : (r: (map<string, PolyMesh>, (bool, RepairStats)))
    ensures ValidateRepairTarget(o, meshes) != "" ==> r == (meshes, (false, Failed(ValidateRepairTarget(o, meshes))))
    ensures r.0.Keys == meshes.Keys
    ensures r.1.0 ==> ValidateRepairTarget(o, meshes) == ""
                      && var d := o.value.data.value;
                         var s := RepairMeshSpec(meshes[d], flags, lib);
                         s.0 && r.1.1 == s.1 && r.0 == meshes[d := Written(s.2.value.vertices, s.2.value.faces)]
    ensures !r.1.0 ==> (r.0 == meshes && r.1.1.Failed?)
                       || (r.1.1.Unwritten? && r.0 == meshes[o.value.data.value := Cleared()])
  {
    var msg := ValidateRepairTarget(o, meshes);
    if msg != "" then (meshes, (false, Failed(msg)))
    else
      var d := o.value.data.value;
      var (ok, stats, attempt) := RepairMeshSpec(meshes[d], flags, lib);
      (AfterRepair(meshes, d, attempt, lib), (ok, stats))
  }

  /** `repair_object`. */
  method RepairObject(o: Option<Obj>, flags: RepairFlags, lib: RepairLib, store: GeometryStore) returns (ok: bool, stats: RepairStats)
    modifies store
    ensures (store.meshes, (ok, stats)) == RepairObjectSpec(old(store.meshes), o, flags, lib)
  {
    var msg := ValidateRepairTarget(o, store.meshes);
    if msg != "" {
      return false, Failed(msg);
    }
    ok, stats := RepairMesh(o.value.data.value, flags, lib, store);
  }
}
