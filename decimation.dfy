/** `processing/decimation.py`: mesh validation, the `decimate_object` entry point (every
    method name but 'bmesh', 'auto' and 'trimesh' is refused; the last two become 'bmesh'),
    preprocessing that first repairs non-manifold geometry and then runs the clean-up
    sequence, decimation by a temporary Decimate modifier that saves and restores the
    selection, the active object and the object's hidden flag, and the collection of the
    meshes behind collection instances. */
module Decimation {
  import opened Wrappers
  import opened Strings
  import opened Scene
  import opened Geometry
  import opened BMeshOps

  // ---------------------------------------------------------------- non-manifold repair

  /** The distances the repair merges at, in the order it tries them (as Python prints them). */
  const MergeDistances: seq<string> := ["0.001", "0.01", "0.1"]

  function NonManifoldVerts(vs: seq<BVert>): (r: seq<BVert>)
    ensures forall v :: v in r <==> v in vs && !v.manifold
    ensures |r| <= |vs|
    decreases |vs|
  {
    if vs == [] then []
    else NonManifoldVerts(vs[..|vs| - 1]) + (if !vs[|vs| - 1].manifold then [vs[|vs| - 1]] else [])
  }

  function NonManifoldEdges(es: seq<BEdge>): (r: seq<BEdge>)
    ensures forall e :: e in r <==> e in es && !e.manifold
    ensures |r| <= |es|
    decreases |es|
  {
    if es == [] then []
    else NonManifoldEdges(es[..|es| - 1]) + (if !es[|es| - 1].manifold then [es[|es| - 1]] else [])
  }

  /** The edges with exactly `n` linked faces (`exact`) or more than `n` (not `exact`). */
  function EdgesByFaces(es: seq<BEdge>, n: nat, exact: bool): (r: seq<BEdge>)
    ensures forall e :: e in r <==> e in es && (if exact then |e.linkFaces| == n else |e.linkFaces| > n)
    decreases |es|
  {
    if es == [] then []
    else
      var e := es[|es| - 1];
      EdgesByFaces(es[..|es| - 1], n, exact) + (if (if exact then |e.linkFaces| == n else |e.linkFaces| > n) then [e] else [])
  }

  /** The split of the remaining non-manifold edges into boundary edges (one face) and interior
      edges (more than two faces). The classes are disjoint, together they hold exactly the
      edges with one face or more than two, and an edge with two faces is in neither. */
  function ClassifyEdges(es: seq<BEdge>): (r: (seq<BEdge>, seq<BEdge>))
    ensures forall e :: e in r.0 ==> e !in r.1
    ensures forall e :: e in es ==> (e in r.0 || e in r.1 <==> |e.linkFaces| == 1 || |e.linkFaces| > 2)
    ensures forall e :: e in es && |e.linkFaces| == 2 ==> e !in r.0 && e !in r.1
    ensures forall e :: e in r.0 ==> e in es && |e.linkFaces| == 1
    ensures forall e :: e in r.1 ==> e in es && |e.linkFaces| > 2
  {
    (EdgesByFaces(es, 1, true), EdgesByFaces(es, 2, false))
  }

  /** The union of the faces linked to the given edges. */
  function LinkedFaces(es: seq<BEdge>): (r: set<nat>)
    ensures forall e :: e in es ==> e.linkFaces <= r
    ensures forall f :: f in r ==> exists e :: e in es && f in e.linkFaces
    decreases |es|
  {
    if es == [] then {} else LinkedFaces(es[..|es| - 1]) + es[|es| - 1].linkFaces
  }

  /** Non-manifold vertices with no linked face. */
  function StrayVerts(vs: seq<BVert>): (r: seq<BVert>)
    ensures forall v :: v in r <==> v in vs && !v.manifold && v.linkFaces == {}
    decreases |vs|
  {
    if vs == [] then []
    else StrayVerts(vs[..|vs| - 1]) + (if !vs[|vs| - 1].manifold && vs[|vs| - 1].linkFaces == {} then [vs[|vs| - 1]] else [])
  }

  /** How the merge loop ended: no distance helped, one removed vertices and left no
      non-manifold edge, or one removed vertices and left fewer than there were. */
  datatype MergeOutcome = NoImprovement | FixedAll(count: nat, dist: string) | Reduced(count: nat, dist: string, remaining: nat)

  /** The merge loop over `dists`, with `before` non-manifold edges at the start. It stops at the
      first distance that removes vertices and leaves fewer non-manifold edges than `before`;
      a merge that raised is skipped, and a merge that did not help still leaves its result. */
  function Escalate(bm: BMesh, dists: seq<string>, before: nat, k: Kernels): (r: (BMesh, MergeOutcome))
    ensures r.1.FixedAll? ==> r.1.count > 0 && r.1.dist in dists && |NonManifoldEdges(r.0.edges)| == 0
    ensures r.1.Reduced? ==> r.1.count > 0 && r.1.dist in dists && r.1.remaining == |NonManifoldEdges(r.0.edges)|
                             && 0 < r.1.remaining < before
    decreases |dists|
  {
    if dists == [] then (bm, NoImprovement)
    else match k.removeDoubles(bm, dists[0])
      case Err(_) => Escalate(bm, dists[1..], before, k)
      case Ok((b, n)) =>
        var after := |NonManifoldEdges(b.edges)|;
        if n > 0 && after == 0 then (b, FixedAll(n, dists[0]))
        else if n > 0 && after < before then (b, Reduced(n, dists[0], after))
        else Escalate(b, dists[1..], before, k)
  }

  /** When no distance helps, every merge that ran is kept and the outcome records nothing. */
  lemma {:induction false} EscalateNoImprovement(bm: BMesh, dists: seq<string>, before: nat, k: Kernels)
    requires forall d :: d in dists ==> k.removeDoubles(bm, d).Err?
    ensures Escalate(bm, dists, before, k) == (bm, NoImprovement)
    decreases |dists|
  {
    if dists != [] {
      assert dists[0] in dists;
      assert forall d :: d in dists[1..] ==> d in dists;
      EscalateNoImprovement(bm, dists[1..], before, k);
    }
  }

  /** Removing the edges that are still non-manifold: interior ones are dissolved, then the faces
      of the boundary ones deleted; either raise is ignored. */
  function RepairEdges(bm: BMesh, edges: seq<BEdge>, k: Kernels): (BMesh, seq<Fix>) {
    if edges == [] then (bm, [])
    else
      var (boundary, interior) := ClassifyEdges(edges);
      var (b1, f1) := if interior == [] then (bm, []) else
                        match k.dissolveEdges(bm, interior)
                        case Err(_) => (bm, [])
                        case Ok(b) => (b, [DissolvedInterior(|interior|)]);
      var faces := LinkedFaces(boundary);
      if boundary == [] || faces == {} then (b1, f1)
      else match k.deleteFaces(b1, faces)
        case Err(_) => (b1, f1)
        case Ok(b) => (b, f1 + [RemovedBoundaryFaces(|faces|)])
  }

  /** Deleting the non-manifold vertices left without faces; a raise is ignored. */
  function StrayStep(bm: BMesh, k: Kernels): (BMesh, seq<Fix>) {
    var sv := StrayVerts(bm.verts);
    if sv == [] then (bm, [])
    else match k.deleteVerts(bm, sv)
      case Err(_) => (bm, [])
      case Ok(b) => (b, [RemovedNonManifoldVerts(|sv|)])
  }

  /** The non-manifold repair: nothing at all on a manifold bmesh; otherwise record what was
      detected, run the merge loop, repair the edges still non-manifold (none after a full fix,
      recomputed after a partial one, the edges found at the start otherwise) and delete stray
      vertices. */
  function NonManifoldStage(bm: BMesh, k: Kernels): (r: (BMesh, seq<Fix>))
    ensures NonManifoldVerts(bm.verts) == [] && NonManifoldEdges(bm.edges) == [] ==> r == (bm, [])
    ensures r.1 != [] ==> r.1[0] == Detected(|NonManifoldVerts(bm.verts)|, |NonManifoldEdges(bm.edges)|)
  {
    var nv, ne := NonManifoldVerts(bm.verts), NonManifoldEdges(bm.edges);
    if nv == [] && ne == [] then (bm, [])
    else
      var (b1, outcome) := Escalate(bm, MergeDistances, |ne|, k);
      var (edges, f1) := AfterMerge(ne, b1, outcome);
      var (b2, f2) := RepairEdges(b1, edges, k);
      var (b3, f3) := StrayStep(b2, k);
      (b3, [Detected(|nv|, |ne|)] + f1 + f2 + f3)
  }

  /** The edges left to repair after the merge loop and what it reports: none after a full fix,
      the recomputed non-manifold edges after a partial one, and otherwise the edges found
      before merging. */
  function AfterMerge(ne: seq<BEdge>, b: BMesh, outcome: MergeOutcome): (r: (seq<BEdge>, seq<Fix>))
    ensures outcome.NoImprovement? ==> r == (ne, [])
    ensures outcome.FixedAll? ==> r.0 == [] && r.1 == [MergedAll(outcome.count, outcome.dist)]
    ensures outcome.Reduced? ==> forall e :: e in r.0 <==> e in b.edges && !e.manifold
  {
    match outcome
    case NoImprovement => (ne, [])
    case FixedAll(n, d) => ([], [MergedAll(n, d)])
    case Reduced(n, d, rem) => (NonManifoldEdges(b.edges), [MergedSome(n, d, rem)])
  }

  /** `_preprocess_mesh_bmesh` of this file: the non-manifold repair, then the clean-up
      sequence; only the clean-up can abort it. */
  function Preprocess(bm: BMesh, k: Kernels): Result<(BMesh, seq<Fix>)> {
    var (b, f) := NonManifoldStage(bm, k);
    match Cleanup(b, k)
    case Err(e) => Err(e)
    case Ok((b2, f2)) => Ok((b2, f + f2))
  }

  lemma {:induction false} ManifoldVertsNone(vs: seq<BVert>)
    requires forall v :: v in vs ==> v.manifold
    ensures NonManifoldVerts(vs) == []
    decreases |vs|
  {
    if vs != [] {
      assert vs[|vs| - 1] in vs;
      assert forall v :: v in vs[..|vs| - 1] ==> v in vs;
      ManifoldVertsNone(vs[..|vs| - 1]);
    }
  }

  lemma {:induction false} ManifoldEdgesNone(es: seq<BEdge>)
    requires forall e :: e in es ==> e.manifold
    ensures NonManifoldEdges(es) == []
    decreases |es|
  {
    if es != [] {
      assert es[|es| - 1] in es;
      assert forall e :: e in es[..|es| - 1] ==> e in es;
      ManifoldEdgesNone(es[..|es| - 1]);
    }
  }

  /** On a manifold bmesh the preprocessing is the clean-up sequence alone, as in
      bmesh_decimation.py. */
  lemma ManifoldPreprocessIsCleanup(bm: BMesh, k: Kernels)
    requires forall v :: v in bm.verts ==> v.manifold
    requires forall e :: e in bm.edges ==> e.manifold
    ensures Preprocess(bm, k) == Cleanup(bm, k)
  {
    ManifoldVertsNone(bm.verts);
    ManifoldEdgesNone(bm.edges);
    assert NonManifoldStage(bm, k) == (bm, []);
    match Cleanup(bm, k)
    case Err(_) =>
    case Ok((b2, f2)) => assert [] + f2 == f2;
  }

  /** The merge loop (`for merge_dist in [0.001, 0.01, 0.1]`), editing the bmesh in place. */
  method MergeByDistance(buf: BMeshBuffer, before: nat, k: Kernels) returns (outcome: MergeOutcome)
    modifies buf
    ensures (buf.bm, outcome) == Escalate(old(buf.bm), MergeDistances, before, k)
  {
    var i := 0;
    while i < |MergeDistances|
      invariant 0 <= i <= |MergeDistances|
      invariant Escalate(old(buf.bm), MergeDistances, before, k) == Escalate(buf.bm, MergeDistances[i..], before, k)
    {
      var dist := MergeDistances[i];
      assert MergeDistances[i..][0] == dist && MergeDistances[i..][1..] == MergeDistances[i + 1..];
      var removed := k.removeDoubles(buf.bm, dist);
      if removed.Ok? {
        buf.bm := removed.value.0;
        var count := removed.value.1;
        if count > 0 {
          var after := |NonManifoldEdges(buf.bm.edges)|;
          if after == 0 {
            return FixedAll(count, dist);
          } else if after < before {
            return Reduced(count, dist, after);
          }
        }
      }
      i := i + 1;
    }
    return NoImprovement;
  }

  method RepairEdgesPass(buf: BMeshBuffer, edges: seq<BEdge>, k: Kernels) returns (fixes: seq<Fix>)
    modifies buf
    ensures (buf.bm, fixes) == RepairEdges(old(buf.bm), edges, k)
  {
    fixes := [];
    if edges == [] {
      return;
    }
    var boundary := EdgesByFaces(edges, 1, true);
    var interior := EdgesByFaces(edges, 2, false);
    if interior != [] {
      var d := k.dissolveEdges(buf.bm, interior);
      if d.Ok? {
        buf.bm := d.value;
        fixes := [DissolvedInterior(|interior|)];
      }
    }
    if boundary != [] {
      var faces := LinkedFaces(boundary);
      if faces != {} {
        var d := k.deleteFaces(buf.bm, faces);
        if d.Ok? {
          buf.bm := d.value;
          fixes := fixes + [RemovedBoundaryFaces(|faces|)];
        }
      }
    }
  }

  method StrayPass(buf: BMeshBuffer, k: Kernels) returns (fixes: seq<Fix>)
    modifies buf
    ensures (buf.bm, fixes) == StrayStep(old(buf.bm), k)
  {
    fixes := [];
    var sv := StrayVerts(buf.bm.verts);
    if sv != [] {
      var d := k.deleteVerts(buf.bm, sv);
      if d.Ok? {
        buf.bm := d.value;
        fixes := [RemovedNonManifoldVerts(|sv|)];
      }
    }
  }

  method NonManifoldPass(buf: BMeshBuffer, k: Kernels) returns (fixes: seq<Fix>)
    modifies buf
    ensures (buf.bm, fixes) == NonManifoldStage(old(buf.bm), k)
  {
    var nv, ne := NonManifoldVerts(buf.bm.verts), NonManifoldEdges(buf.bm.edges);
    if nv == [] && ne == [] {
      return [];
    }
    var outcome := MergeByDistance(buf, |ne|, k);
    var edges, f1 := AfterMerge(ne, buf.bm, outcome).0, AfterMerge(ne, buf.bm, outcome).1;
    var f2 := RepairEdgesPass(buf, edges, k);
    var f3 := StrayPass(buf, k);
    fixes := [Detected(|nv|, |ne|)] + f1 + f2 + f3;
  }

  /** `_preprocess_mesh_bmesh`, reported as `(success, info)`. */
  method PreprocessBMesh(buf: BMeshBuffer, k: Kernels) returns (ok: bool, info: string)
    modifies buf
    ensures (ok, info) == Report(Preprocess(old(buf.bm), k))
    ensures ok ==> buf.bm == Preprocess(old(buf.bm), k).value.0
  {
    var f := NonManifoldPass(buf, k);
    var r := CleanupPasses(buf, k);
    if r.Err? {
      return false, "preprocessing failed: " + r.error;
    }
    return true, Info(f + r.value);
  }

  /** What `preprocess_mesh` reports and leaves in the mesh store: the object's mesh is
      rewritten from the preprocessed bmesh only when preprocessing succeeded, and no other
      mesh changes. */
  function PreprocessMeshSpec(o: Option<Obj>, meshes: map<string, PolyMesh>, k: Kernels): (r: (bool, string, map<string, PolyMesh>))
    ensures r.2.Keys == meshes.Keys
    ensures !r.0 ==> r.2 == meshes
    ensures forall d :: d in meshes && (o.None? || o.value.data != Some(d)) ==> r.2[d] == meshes[d]
    ensures o.None? || GeometryOf(o.value, meshes).None? ==> r == (false, "Invalid object", meshes)
    ensures o.Some? && GeometryOf(o.value, meshes).Some? ==>
              (r.0, r.1) == Report(Preprocess(k.fromMesh(meshes[o.value.data.value]), k))
  {
    if o.None? || GeometryOf(o.value, meshes).None? then (false, "Invalid object", meshes)
    else
      var d := o.value.data.value;
      var c := Preprocess(k.fromMesh(meshes[d]), k);
      var rep := Report(c);
      (rep.0, rep.1, if c.Ok? then meshes[d := k.toMesh(c.value.0)] else meshes)
  }

  /** `preprocess_mesh`. */
  method PreprocessMesh(o: Option<Obj>, k: Kernels, store: GeometryStore) returns (ok: bool, info: string)
    modifies store
    ensures (ok, info, store.meshes) == PreprocessMeshSpec(o, old(store.meshes), k)
  {
    if o.None? || GeometryOf(o.value, store.meshes).None? {
      return false, "Invalid object";
    }
    var d := o.value.data.value;
    var buf := new BMeshBuffer(k.fromMesh(store.meshes[d]));
    ok, info := PreprocessBMesh(buf, k);
    if ok {
      store.meshes := store.meshes[d := k.toMesh(buf.bm)];
    }
  }

  // ---------------------------------------------------------------- modifier decimation

  /** `decimate_with_modifier` of this file on the scene state. An object that is not a mesh,
      or has no mesh data, fails with nothing changed. Otherwise the object is unhidden, made
      the only selected and the active object, and the modifier applied at the clamped ratio;
      if that raises, the state stays so. On success the mesh is the modifier's result, the
      saved selection (its objects still in `existing`) is selected again, the saved active
      object is active again if it still exists, and the hidden flag is put back. */
  function ModifierDecimate(st: ViewMeshes, o: Option<Obj>, ratio: real, existing: set<string>, k: Kernels): (r: (ViewMeshes, bool))
    ensures r.1 <==> o.Some? && GeometryOf(o.value, st.meshes).Some?
                     && k.collapse(GeometryOf(o.value, st.meshes).value, ClampRatio(ratio)).Ok?
    ensures r.0.meshes.Keys == st.meshes.Keys
    ensures !r.1 ==> r.0.meshes == st.meshes
    ensures r.1 ==> r.0.meshes == st.meshes[o.value.data.value := k.collapse(st.meshes[o.value.data.value], ClampRatio(ratio)).value]
    ensures o.None? || GeometryOf(o.value, st.meshes).None? ==> r.0 == st
    ensures r.1 ==> r.0.hidden == st.hidden
    ensures o.Some? && GeometryOf(o.value, st.meshes).Some? && !r.1 ==>
              r.0.selected == [o.value.name] && r.0.active == Some(o.value.name) && r.0.hidden == st.hidden - {o.value.name}
  {
    if o.None? || GeometryOf(o.value, st.meshes).None? then (st, false)
    else
      var d, name := o.value.data.value, o.value.name;
      var touched := st.(selected := [name], active := Some(name), hidden := st.hidden - {name});
      match k.collapse(st.meshes[d], ClampRatio(ratio))
      case Err(_) => (touched, false)
      case Ok(m) =>
        (touched.(meshes := st.meshes[d := m],
                  selected := Present(st.selected, existing),
                  active := if st.active.Some? && st.active.value != "" && st.active.value in existing then st.active else Some(name),
                  hidden := st.hidden), true)
  }

  /** A successful modifier pass gives back the selection, the active object and the hidden
      flags when all the saved objects still exist. */
  lemma ModifierRestores(st: ViewMeshes, o: Option<Obj>, ratio: real, existing: set<string>, k: Kernels)
    requires ModifierDecimate(st, o, ratio, existing, k).1
    requires forall x :: x in st.selected ==> x in existing
    requires st.active.Some? && st.active.value != "" && st.active.value in existing
    ensures var r := ModifierDecimate(st, o, ratio, existing, k).0;
            r.selected == st.selected && r.active == st.active && r.hidden == st.hidden
  {
    PresentAll(st.selected, existing);
  }

  /** `decimate_with_modifier`: add "TempDecimate", save the selection and the active object by
      name and the hidden flag, apply the modifier, and restore; if applying raised, the
      modifier is removed. The modifier stack ends as it began. */
  method DecimateWithModifier(o: Option<Obj>, ratio: real, existing: set<string>, k: Kernels, stack: ModifierStack,
                              view: ViewState, vis: Visibility, store: GeometryStore) returns (ok: bool)
    modifies stack, view, vis, store
    ensures stack.mods == old(stack.mods)
    ensures (StateOf(view, vis, store), ok) == ModifierDecimate(old(StateOf(view, vis, store)), o, ratio, existing, k)
  {
    ghost var st := StateOf(view, vis, store);
    if o.None? || o.value.kind != Mesh {
      return false;
    }
    var r := ClampRatio(ratio);
    stack.mods := stack.mods + [TempDecimate];
    if GeometryOf(o.value, store.meshes).None? {
      stack.mods := stack.mods[..|stack.mods| - 1];
      return false;
    }
    var d, name := o.value.data.value, o.value.name;
    var previousSelected := view.selected;
    var previousActive := view.active;
    var wasHidden := name in vis.hidden;
    if wasHidden {
      vis.hidden := vis.hidden - {name};
    }
    assert vis.hidden == st.hidden - {name};
    view.selected := [name];
    view.active := Some(name);
    var applied := k.collapse(store.meshes[d], r);
    stack.mods := stack.mods[..|stack.mods| - 1];
    if applied.Err? {
      return false;
    }
    store.meshes := store.meshes[d := applied.value];
    view.selected := Reselect(previousSelected, existing);
    if previousActive.Some? && previousActive.value != "" && previousActive.value in existing {
      view.active := previousActive;
    }
    if wasHidden {
      vis.hidden := vis.hidden + {name};
    }
    assert vis.hidden == st.hidden;
    return true;
  }

  /** `decimate_bmesh` of this file on the scene state: `(success, faces_before,
      faces_after)`. An object that is not a mesh with data gives (False, 0, 0) and changes
      nothing. Otherwise the first count is read before preprocessing, the modifier runs
      whatever the preprocessing reported, and the second count is read afterwards; on
      success it is the face count of the modifier's result. */
  function DecimateBmeshSpec(st: ViewMeshes, o: Option<Obj>, ratio: real, preprocess: bool, existing: set<string>, k: Kernels): (r: (ViewMeshes, (bool, nat, nat)))
    ensures o.None? || GeometryOf(o.value, st.meshes).None? ==> r == (st, (false, 0, 0))
    ensures o.Some? && GeometryOf(o.value, st.meshes).Some? ==>
              o.value.data.value in r.0.meshes
              && r.1.1 == FaceCount(st.meshes[o.value.data.value])
              && r.1.2 == FaceCount(r.0.meshes[o.value.data.value])
    ensures r.0.meshes.Keys == st.meshes.Keys
    ensures r.1.0 ==> o.Some? && GeometryOf(o.value, st.meshes).Some?
                      && var m := if preprocess then PreprocessMeshSpec(o, st.meshes, k).2[o.value.data.value]
                                  else st.meshes[o.value.data.value];
                         k.collapse(m, ClampRatio(ratio)).Ok? && r.1.2 == FaceCount(k.collapse(m, ClampRatio(ratio)).value)
  {
    if o.None? || GeometryOf(o.value, st.meshes).None? then (st, (false, 0, 0))
    else
      var d := o.value.data.value;
      var st1 := if preprocess then st.(meshes := PreprocessMeshSpec(o, st.meshes, k).2) else st;
      var (st2, ok) := ModifierDecimate(st1, o, ratio, existing, k);
      (st2, (ok, FaceCount(st.meshes[d]), FaceCount(st2.meshes[d])))
  }

  /** `decimate_bmesh`. */
  method DecimateBmesh(o: Option<Obj>, ratio: real, preprocess: bool, existing: set<string>, k: Kernels, stack: ModifierStack,
                       view: ViewState, vis: Visibility, store: GeometryStore) returns (ok: bool, facesBefore: nat, facesAfter: nat)
    modifies stack, view, vis, store
    ensures stack.mods == old(stack.mods)
    ensures (StateOf(view, vis, store), (ok, facesBefore, facesAfter))
            == DecimateBmeshSpec(old(StateOf(view, vis, store)), o, ratio, preprocess, existing, k)
  {
    if o.None? || GeometryOf(o.value, store.meshes).None? {
      return false, 0, 0;
    }
    var d := o.value.data.value;
    facesBefore := FaceCount(store.meshes[d]);
    if preprocess {
      var _, _ := PreprocessMesh(o, k, store);
    }
    ok := DecimateWithModifier(o, ratio, existing, k, stack, view, vis, store);
    facesAfter := FaceCount(store.meshes[d]);
  }

  // ---------------------------------------------------------------- entry point

  /** `_validate_mesh`: checks, in order, for no object, an object that is not a mesh, a mesh
      without data and a mesh without faces. It succeeds exactly for a mesh with at least one
      face, and the message is empty exactly then. */
  function ValidateMesh(o: Option<Obj>, meshes: map<string, PolyMesh>): (r: (bool, string))
    ensures r.0 <==> o.Some? && GeometryOf(o.value, meshes).Some? && FaceCount(GeometryOf(o.value, meshes).value) > 0
    ensures r.1 == "" <==> r.0
  {
    if o.None? then (false, "Object is None")
    else if o.value.kind != Mesh then (false, "Object '" + o.value.name + "' is not a mesh (type: " + TypeName(o.value.kind) + ")")
    else if GeometryOf(o.value, meshes).None? then (false, "Object '" + o.value.name + "' has no mesh data")
    else if FaceCount(meshes[o.value.data.value]) == 0 then (false, "Object '" + o.value.name + "' has no faces")
    else (true, "")
  }

  /** 'auto' and 'trimesh' run as 'bmesh'; any other name is kept. */
  function CoerceMethod(m: string): (r: string)
    ensures r == "bmesh" <==> m in {"bmesh", "auto", "trimesh"}
    ensures r != "bmesh" ==> r == m
  {
    if m == "auto" || m == "trimesh" then "bmesh" else m
  }

  const GenericFailure := "Decimation failed. Check console for details."

  /** `decimate_object` on the scene state: `(success, faces_before, faces_after,
      error_details)`. A validation failure returns (False, 0, 0, its message) with nothing
      changed; an unknown method returns (False, n, n, ...) with the object's face count n and
      nothing changed; otherwise the bmesh pass runs at the clamped ratio with preprocessing.
      `error_details` is empty exactly when the result is a success. */
  function DecimateObjectSpec(st: ViewMeshes, o: Option<Obj>, ratio: real, m: string, existing: set<string>, k: Kernels): (r: (ViewMeshes, (bool, nat, nat, string)))
    ensures r.1.3 == "" <==> r.1.0
    ensures !ValidateMesh(o, st.meshes).0 ==> r == (st, (false, 0, 0, ValidateMesh(o, st.meshes).1))
    ensures ValidateMesh(o, st.meshes).0 && CoerceMethod(m) != "bmesh" ==>
              var n := FaceCount(st.meshes[o.value.data.value]);
              r == (st, (false, n, n, "Unknown decimation method: '" + m + "'. Only 'bmesh' is supported."))
    ensures ValidateMesh(o, st.meshes).0 && CoerceMethod(m) == "bmesh" ==>
              var b := DecimateBmeshSpec(st, o, ClampRatio(ratio), true, existing, k);
              r == (b.0, (b.1.0, b.1.1, b.1.2, if b.1.0 then "" else GenericFailure))
  {
    var (valid, msg) := ValidateMesh(o, st.meshes);
    if !valid then (st, (false, 0, 0, msg))
    else
      var n := FaceCount(st.meshes[o.value.data.value]);
      var chosen := CoerceMethod(m);
      if chosen != "bmesh" then (st, (false, n, n, "Unknown decimation method: '" + chosen + "'. Only 'bmesh' is supported."))
      else
        var (st2, (ok, before, after)) := DecimateBmeshSpec(st, o, ClampRatio(ratio), true, existing, k);
        (st2, (ok, before, after, if ok then "" else GenericFailure))
  }

  /** Clamping twice is clamping once, so the modifier sees the ratio `decimate_object` was
      given, clamped into [0, 1]. */
  lemma ClampedTwice(st: ViewMeshes, o: Option<Obj>, ratio: real, existing: set<string>, k: Kernels)
    ensures ModifierDecimate(st, o, ClampRatio(ratio), existing, k) == ModifierDecimate(st, o, ratio, existing, k)
  {
  }

  /** `decimate_object`. */
  method DecimateObject(o: Option<Obj>, ratio: real, m: string, existing: set<string>, k: Kernels, stack: ModifierStack,
                        view: ViewState, vis: Visibility, store: GeometryStore)
    returns (ok: bool, facesBefore: nat, facesAfter: nat, errorDetails: string)
    modifies stack, view, vis, store
    ensures stack.mods == old(stack.mods)
    ensures (StateOf(view, vis, store), (ok, facesBefore, facesAfter, errorDetails))
            == DecimateObjectSpec(old(StateOf(view, vis, store)), o, ratio, m, existing, k)
  {
    var valid, msg := ValidateMesh(o, store.meshes).0, ValidateMesh(o, store.meshes).1;
    if !valid {
      return false, 0, 0, msg;
    }
    facesBefore := FaceCount(store.meshes[o.value.data.value]);
    var r := ClampRatio(ratio);
    var chosen := CoerceMethod(m);
    if chosen != "bmesh" {
      return false, facesBefore, facesBefore, "Unknown decimation method: '" + chosen + "'. Only 'bmesh' is supported.";
    }
    ok, facesBefore, facesAfter := DecimateBmesh(o, r, true, existing, k, stack, view, vis, store);
    errorDetails := if ok then "" else GenericFailure;
  }

  /** `get_available_decimation_methods`. */
  function AvailableMethods(): (r: seq<string>)
    ensures r == ["bmesh"]
  {
    ["bmesh"]
  }

  datatype DecimationInfo = DecimationInfo(availableMethods: seq<string>, bmeshAvailable: bool, recommendedMethod: string)

  /** `get_decimation_info`: the recommended method is the one available method. */
  function GetDecimationInfo(): (r: DecimationInfo)
    ensures r.availableMethods == AvailableMethods() && r.recommendedMethod in r.availableMethods && r.bmeshAvailable
  {
    DecimationInfo(AvailableMethods(), true, "bmesh")
  }

  // ---------------------------------------------------------------- collection instances

  /** The mesh objects with data among a collection's objects, in order. */
  function MeshesWithData(objs: seq<Obj>): (r: seq<Obj>)
    ensures forall x :: x in r <==> x in objs && x.kind == Mesh && x.data.Some?
    decreases |objs|
  {
    if objs == [] then []
    else MeshesWithData(objs[..|objs| - 1]) + (if objs[|objs| - 1].kind == Mesh && objs[|objs| - 1].data.Some? then [objs[|objs| - 1]] else [])
  }

  /** Every mesh met while walking the instanced collections, repeats included. */
  function InstanceMeshes(objects: seq<Obj>, collections: map<string, seq<Obj>>): seq<Obj>
    decreases |objects|
  {
    if objects == [] then []
    else
      var o := objects[|objects| - 1];
      InstanceMeshes(objects[..|objects| - 1], collections)
      + (if InstancesCollection(o, collections) then MeshesWithData(collections[o.instance.value]) else [])
  }

  /** No element occurs twice. */
  predicate Distinct(s: seq<Obj>) {
    forall i, j :: 0 <= i < j < |s| ==> s[i] != s[j]
  }

  /** The first occurrence of each element, in the order first seen. */
  function Dedup(s: seq<Obj>): (r: seq<Obj>)
    ensures forall x :: x in r <==> x in s
    ensures Distinct(r)
    decreases |s|
  {
    if s == [] then []
    else
      var p := Dedup(s[..|s| - 1]);
      if s[|s| - 1] in p then p else p + [s[|s| - 1]]
  }

  /** The meshes reached through instances are exactly the mesh objects with data in a
      collection that one of the objects instances. */
  lemma {:induction false} InstanceMeshesMembers(objects: seq<Obj>, collections: map<string, seq<Obj>>, x: Obj)
    ensures x in InstanceMeshes(objects, collections) <==>
            x.kind == Mesh && x.data.Some?
            && exists o :: o in objects && InstancesCollection(o, collections) && x in collections[o.instance.value]
    decreases |objects|
  {
    if objects != [] {
      var prefix, o := objects[..|objects| - 1], objects[|objects| - 1];
      InstanceMeshesMembers(prefix, collections, x);
      assert forall y :: y in objects <==> y in prefix || y == o;
    }
  }

  /** The inner loop over one instanced collection's objects: each mesh with data not yet
      collected is appended. */
  method AddNewMeshes(acc: seq<Obj>, ghost base: seq<Obj>, all: seq<Obj>) returns (r: seq<Obj>)
    requires acc == Dedup(base)
    ensures r == Dedup(base + MeshesWithData(all))
  {
    r := acc;
    var j := 0;
    assert all[..0] == [] && base + [] == base;
    while j < |all|
      invariant 0 <= j <= |all|
      invariant r == Dedup(base + MeshesWithData(all[..j]))
    {
      var x := all[j];
      AddStep(base, all, j);
      if x.kind == Mesh && x.data.Some? && x !in r {
        r := r + [x];
      }
      j := j + 1;
    }
    assert all[..j] == all;
  }

  /** One step of the inner loop: the object at `j` is appended exactly when it is a mesh
      with data not collected before. */
  lemma AddStep(base: seq<Obj>, all: seq<Obj>, j: nat)
    requires j < |all|
    ensures var x, prev := all[j], Dedup(base + MeshesWithData(all[..j]));
            Dedup(base + MeshesWithData(all[..j + 1])) == if x.kind == Mesh && x.data.Some? && x !in prev then prev + [x] else prev
  {
    var x := all[j];
    var prefix := base + MeshesWithData(all[..j]);
    TakeOneMore(all, j);
    MeshesSnoc(all[..j], x);
    if x.kind == Mesh && x.data.Some? {
      AppendAssoc(base, MeshesWithData(all[..j]), x);
      DedupSnoc(prefix, x);
    }
  }

  lemma TakeOneMore(s: seq<Obj>, j: nat)
    requires j < |s|
    ensures s[..j + 1] == s[..j] + [s[j]]
  {
  }

  lemma MeshesSnoc(a: seq<Obj>, x: Obj)
    ensures x.kind == Mesh && x.data.Some? ==> MeshesWithData(a + [x]) == MeshesWithData(a) + [x]
    ensures !(x.kind == Mesh && x.data.Some?) ==> MeshesWithData(a + [x]) == MeshesWithData(a)
  {
    assert (a + [x])[..|a + [x]| - 1] == a;
  }

  lemma AppendAssoc(a: seq<Obj>, b: seq<Obj>, x: Obj)
    ensures a + (b + [x]) == (a + b) + [x]
  {
  }

  lemma DedupSnoc(s: seq<Obj>, x: Obj)
    ensures Dedup(s + [x]) == if x in Dedup(s) then Dedup(s) else Dedup(s) + [x]
  {
    assert (s + [x])[..|s + [x]| - 1] == s;
  }

  /** `get_original_meshes_from_instances`: each mesh with data in an instanced collection once,
      in the order first met. */
  method GetOriginalMeshesFromInstances(objects: seq<Obj>, collections: map<string, seq<Obj>>) returns (meshObjects: seq<Obj>)
    ensures meshObjects == Dedup(InstanceMeshes(objects, collections))
  {
    meshObjects := [];
    var i := 0;
    while i < |objects|
      invariant 0 <= i <= |objects|
      invariant meshObjects == Dedup(InstanceMeshes(objects[..i], collections))
    {
      var o := objects[i];
      assert objects[..i + 1][..i] == objects[..i];
      ghost var base := InstanceMeshes(objects[..i], collections);
      if InstancesCollection(o, collections) {
        meshObjects := AddNewMeshes(meshObjects, base, collections[o.instance.value]);
      } else {
        assert InstanceMeshes(objects[..i + 1], collections) == base + [];
        assert base + [] == base;
      }
      i := i + 1;
    }
    assert objects[..i] == objects;
  }
}
