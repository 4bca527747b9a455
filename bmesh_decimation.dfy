/** `bmesh_decimation.py`: preprocessing by the clean-up sequence alone, written back only on
    success, and decimation by a temporary Decimate modifier in COLLAPSE mode. The modifier
    pass makes the object the only selected and the active one, and afterwards puts back only
    the previously active object; it never touches viewport visibility. */
module BmeshDecimation {
  import opened Wrappers
  import opened Scene
  import opened Geometry
  import opened BMeshOps

  /** `_preprocess_mesh_bmesh`: the clean-up passes, reported as `(success, info)`. */
  method PreprocessBMesh(buf: BMeshBuffer, k: Kernels) returns (ok: bool, info: string)
    modifies buf
    ensures (ok, info) == Report(Cleanup(old(buf.bm), k))
    ensures ok ==> buf.bm == Cleanup(old(buf.bm), k).value.0
  {
    var r := CleanupPasses(buf, k);
    if r.Err? {
      return false, "preprocessing failed: " + r.error;
    }
    return true, Info(r.value);
  }

  /** What `preprocess_mesh` reports and leaves in the mesh store. An invalid object is
      reported as such; otherwise the mesh is rewritten from the preprocessed bmesh only when
      preprocessing succeeded. No other mesh changes. */
  function PreprocessMeshSpec(o: Option<Obj>, meshes: map<string, PolyMesh>, k: Kernels): (r: (bool, string, map<string, PolyMesh>))
    ensures r.2.Keys == meshes.Keys
    ensures !r.0 ==> r.2 == meshes
    ensures forall d :: d in meshes && (o.None? || o.value.data != Some(d)) ==> r.2[d] == meshes[d]
    ensures o.None? || GeometryOf(o.value, meshes).None? ==> r == (false, "Invalid object", meshes)
    ensures o.Some? && GeometryOf(o.value, meshes).Some? ==>
              (r.0, r.1) == Report(Cleanup(k.fromMesh(meshes[o.value.data.value]), k))
  {
    if o.None? || GeometryOf(o.value, meshes).None? then (false, "Invalid object", meshes)
    else
      var d := o.value.data.value;
      var c := Cleanup(k.fromMesh(meshes[d]), k);
      var rep := Report(c);
      (rep.0, rep.1, if c.Ok? then meshes[d := k.toMesh(c.value.0)] else meshes)
  }

  /** `preprocess_mesh`: run the preprocessing on a fresh bmesh of the object's mesh and write
      it back only on success. */
  method PreprocessMesh(o: Option<Obj>, k: Kernels, store: GeometryStore) returns (ok: bool, info: string)
    modifies store
    ensures (ok, info, store.meshes) == PreprocessMeshSpec(o, old(store.meshes), k)
  {
    if o.None? || GeometryOf(o.value, store.meshes).None? {
      return false, "Invalid object";
    }
    var d := o.value.data.value;
    var buf := new BMeshBuffer(k.fromMesh(store.meshes[d]));
    ok, info := PreprocessBMesh(buf, k);
    if ok {
      store.meshes := store.meshes[d := k.toMesh(buf.bm)];
    }
  }

  /** `decimate_with_modifier` of bmesh_decimation.py on the scene state. It succeeds exactly
      for a mesh object with data on which the modifier applies at the clamped ratio; then the
      mesh is the modifier's result and the previously active object (if any) is active again,
      while the object stays the only selected one. Visibility is never changed, and a
      failure leaves the meshes as they were. */
  function ModifierDecimate(st: ViewMeshes, o: Option<Obj>, ratio: real, k: Kernels): (r: (ViewMeshes, bool))
    ensures r.1 <==> o.Some? && GeometryOf(o.value, st.meshes).Some?
                     && k.collapse(GeometryOf(o.value, st.meshes).value, ClampRatio(ratio)).Ok?
    ensures r.0.hidden == st.hidden && r.0.meshes.Keys == st.meshes.Keys
    ensures !r.1 ==> r.0.meshes == st.meshes
    ensures r.1 ==> r.0.meshes == st.meshes[o.value.data.value := k.collapse(st.meshes[o.value.data.value], ClampRatio(ratio)).value]
    ensures o.None? || GeometryOf(o.value, st.meshes).None? ==> r.0 == st
    ensures o.Some? && GeometryOf(o.value, st.meshes).Some? ==> r.0.selected == [o.value.name]
    ensures r.1 && st.active.Some? ==> r.0.active == st.active
  {
    if o.None? || GeometryOf(o.value, st.meshes).None? then (st, false)
    else
      var d := o.value.data.value;
      var touched := st.(selected := [o.value.name], active := Some(o.value.name));
      match k.collapse(st.meshes[d], ClampRatio(ratio))
      case Err(_) => (touched, false)
      case Ok(m) => (touched.(meshes := st.meshes[d := m], active := if st.active.Some? then st.active else touched.active), true)
  }

  /** `decimate_with_modifier`: add "TempDecimate", apply it, and remove it if applying
      raised; the modifier stack ends as it began. */
  method DecimateWithModifier(o: Option<Obj>, ratio: real, k: Kernels, stack: ModifierStack,
                              view: ViewState, vis: Visibility, store: GeometryStore) returns (ok: bool)
    modifies stack, view, store
    ensures stack.mods == old(stack.mods)
    ensures (StateOf(view, vis, store), ok) == ModifierDecimate(old(StateOf(view, vis, store)), o, ratio, k)
  {
    if o.None? || o.value.kind != Mesh {
      return false;
    }
    var r := ClampRatio(ratio);
    stack.mods := stack.mods + [TempDecimate];
    if GeometryOf(o.value, store.meshes).None? {
      stack.mods := stack.mods[..|stack.mods| - 1];
      return false;
    }
    var d := o.value.data.value;
    var previous := view.active;
    view.selected := [o.value.name];
    view.active := Some(o.value.name);
    var applied := k.collapse(store.meshes[d], r);
    stack.mods := stack.mods[..|stack.mods| - 1];
    if applied.Err? {
      return false;
    }
    store.meshes := store.meshes[d := applied.value];
    if previous.Some? {
      view.active := previous;
    }
    return true;
  }

  /** `decimate_bmesh` on the scene state: `(success, faces_before, faces_after)`. An object
      that is not a mesh with data gives (False, 0, 0) and changes nothing. Otherwise the face
      count is read before preprocessing, the modifier runs whatever the preprocessing
      reported, and the second count is read from the mesh afterwards; on success it is the
      face count of the modifier's result. */
  function DecimateBmeshSpec(st: ViewMeshes, o: Option<Obj>, ratio: real, preprocess: bool, k: Kernels): (r: (ViewMeshes, (bool, nat, nat)))
    ensures o.None? || GeometryOf(o.value, st.meshes).None? ==> r == (st, (false, 0, 0))
    ensures o.Some? && GeometryOf(o.value, st.meshes).Some? ==>
              o.value.data.value in r.0.meshes
              && r.1.1 == FaceCount(st.meshes[o.value.data.value])
              && r.1.2 == FaceCount(r.0.meshes[o.value.data.value])
    ensures r.0.hidden == st.hidden && r.0.meshes.Keys == st.meshes.Keys
    ensures r.1.0 ==> o.Some? && GeometryOf(o.value, st.meshes).Some?
                      && var m := if preprocess then PreprocessMeshSpec(o, st.meshes, k).2[o.value.data.value]
                                  else st.meshes[o.value.data.value];
                         k.collapse(m, ClampRatio(ratio)).Ok? && r.1.2 == FaceCount(k.collapse(m, ClampRatio(ratio)).value)
  {
    if o.None? || GeometryOf(o.value, st.meshes).None? then (st, (false, 0, 0))
    else
      var d := o.value.data.value;
      var st1 := if preprocess then st.(meshes := PreprocessMeshSpec(o, st.meshes, k).2) else st;
      var (st2, ok) := ModifierDecimate(st1, o, ratio, k);
      (st2, (ok, FaceCount(st.meshes[d]), FaceCount(st2.meshes[d])))
  }

  /** A failed preprocessing leaves the mesh as it was and the modifier still runs on it: the
      result is that of decimating without preprocessing. */
  lemma PreprocessFailureStillDecimates(st: ViewMeshes, o: Option<Obj>, ratio: real, k: Kernels)
    requires o.Some? && GeometryOf(o.value, st.meshes).Some?
    requires Cleanup(k.fromMesh(st.meshes[o.value.data.value]), k).Err?
    ensures DecimateBmeshSpec(st, o, ratio, true, k) == DecimateBmeshSpec(st, o, ratio, false, k)
  {
    assert PreprocessMeshSpec(o, st.meshes, k).2 == st.meshes;
    assert st.(meshes := st.meshes) == st;
  }

  /** `decimate_bmesh`. */
  method DecimateBmesh(o: Option<Obj>, ratio: real, preprocess: bool, k: Kernels, stack: ModifierStack,
                       view: ViewState, vis: Visibility, store: GeometryStore) returns (ok: bool, facesBefore: nat, facesAfter: nat)
    modifies stack, view, store
    ensures stack.mods == old(stack.mods)
    ensures (StateOf(view, vis, store), (ok, facesBefore, facesAfter)) == DecimateBmeshSpec(old(StateOf(view, vis, store)), o, ratio, preprocess, k)
  {
    if o.None? || GeometryOf(o.value, store.meshes).None? {
      return false, 0, 0;
    }
    var d := o.value.data.value;
    facesBefore := FaceCount(store.meshes[d]);
    if preprocess {
      var _, _ := PreprocessMesh(o, k, store);
    }
    ok := DecimateWithModifier(o, ratio, k, stack, view, vis, store);
    facesAfter := FaceCount(store.meshes[d]);
  }
}
