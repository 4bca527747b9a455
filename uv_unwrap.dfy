/** Automatic UV unwrapping of `processing/uv_unwrap.py`: Smart UV Project on one object with
    the selection, active object and viewport visibility saved and restored around it, and the
    pass over a list of objects that unwraps the meshes without UVs. Smart UV Project itself is
    a kernel; whether it raises is a parameter. */
module UvUnwrap {
  import opened Wrappers
  import opened Scene

  /** Everything `smart_uv_unwrap` touches, as a value. */
  datatype UnwrapState = UnwrapState(selected: seq<string>, active: Option<string>, hidden: set<string>,
                                     meshes: map<string, MeshData>)

  function StateOf(view: ViewState, vis: Visibility, store: MeshStore): UnwrapState
    reads view, vis, store
  {
    UnwrapState(view.selected, view.active, vis.hidden, store.meshes)
  }

  /** `smart_uv_unwrap`: the state afterwards and the result. An invalid object fails with
      nothing changed. Otherwise the object is unhidden, made the only selected and the active
      object, and given a "UVMap" layer if it had none; if Smart UV Project raises, that is
      where the state stays. On success the saved selection (its objects that still exist),
      the saved active object (if it still exists) and the hidden flag are put back. */
  function SmartUnwrap(st: UnwrapState, o: Obj, existing: set<string>, raises: bool): (r: (UnwrapState, bool))
    ensures r.1 <==> MeshOf(o, st.meshes).Some? && !raises
    ensures MeshOf(o, st.meshes).None? ==> r.0 == st
    ensures MeshOf(o, st.meshes).Some? ==> HasUvMap(o, r.0.meshes)
    ensures r.0.meshes.Keys == st.meshes.Keys
    ensures forall d :: d in st.meshes && (st.meshes[d].uvLayers > 0 || o.data != Some(d)) ==> r.0.meshes[d] == st.meshes[d]
    ensures raises && MeshOf(o, st.meshes).Some? ==>
              r.0.selected == [o.name] && r.0.active == Some(o.name) && o.name !in r.0.hidden
  {
    if MeshOf(o, st.meshes).None? then (st, false)
    else
      var touched := st.(selected := [o.name], active := Some(o.name), hidden := st.hidden - {o.name},
                         meshes := AddUvLayer(st.meshes, o));
      if raises then (touched, false)
      else
        (touched.(selected := Present(st.selected, existing),
                  active := if st.active.Some? && st.active.value in existing then st.active else Some(o.name),
                  hidden := st.hidden), true)
  }

  /** A successful unwrap restores the selection, the active object and the visibility flags
      when every saved object still exists (without a saved active object the unwrapped one
      stays active). */
  lemma SmartUnwrapRestores(st: UnwrapState, o: Obj, existing: set<string>)
    requires MeshOf(o, st.meshes).Some?
    requires forall x :: x in st.selected ==> x in existing
    requires st.active.Some? && st.active.value in existing
    ensures var r := SmartUnwrap(st, o, existing, false).0;
            r.selected == st.selected && r.active == st.active && r.hidden == st.hidden
  {
    PresentAll(st.selected, existing);
  }

  /** `smart_uv_unwrap` on the view layer, the visibility flags and the mesh store. */
  method SmartUvUnwrap(o: Obj, existing: set<string>, raises: bool, view: ViewState, vis: Visibility, store: MeshStore)
    returns (ok: bool)
    modifies view, vis, store
    ensures (StateOf(view, vis, store), ok) == SmartUnwrap(old(StateOf(view, vis, store)), o, existing, raises)
  {
    ghost var st := StateOf(view, vis, store);
    if MeshOf(o, store.meshes).None? {
      return false;
    }
    var previousActive := view.active;
    var previousSelection := view.selected;
    var wasHidden := o.name in vis.hidden;
    if wasHidden {
      vis.hidden := vis.hidden - {o.name};
    }
    assert vis.hidden == st.hidden - {o.name};
    view.selected := [o.name];
    view.active := Some(o.name);
    if store.meshes[o.data.value].uvLayers == 0 {
      store.meshes := store.meshes[o.data.value := store.meshes[o.data.value].(uvLayers := 1)];
    }
    if raises {
      return false;
    }
    view.selected := Reselect(previousSelection, existing);
    if previousActive.Some? && previousActive.value in existing {
      view.active := previousActive;
    }
    if wasHidden {
      vis.hidden := vis.hidden + {o.name};
    }
    assert vis.hidden == st.hidden;
    assert store.meshes == AddUvLayer(st.meshes, o);
    assert view.selected == Present(st.selected, existing);
    return true;
  }

  /** The statistics of `auto_unwrap_objects`. */
  datatype UnwrapStats = UnwrapStats(unwrapped: nat, skipped: nat, failed: nat)

  /** The stats and state after the loop of `auto_unwrap_objects` over the meshes `ms`; `raises`
      says for which objects Smart UV Project raises. */
  function UnwrapPass(ms: seq<Obj>, st: UnwrapState, existing: set<string>, raises: Obj -> bool): (UnwrapStats, UnwrapState)
    decreases |ms|
  {
    if ms == [] then (UnwrapStats(0, 0, 0), st)
    else
      var (t, s) := UnwrapPass(ms[..|ms| - 1], st, existing, raises);
      UnwrapOne(t, s, ms[|ms| - 1], existing, raises(ms[|ms| - 1]))
  }

  /** One turn of the loop: skip an object with a UV map, otherwise unwrap it. */
  function UnwrapOne(t: UnwrapStats, s: UnwrapState, o: Obj, existing: set<string>, raises: bool): (UnwrapStats, UnwrapState) {
    if HasUvMap(o, s.meshes) then (t.(skipped := t.skipped + 1), s)
    else
      var (s2, ok) := SmartUnwrap(s, o, existing, raises);
      if ok then (t.(unwrapped := t.unwrapped + 1), s2) else (t.(failed := t.failed + 1), s2)
  }

  /** `auto_unwrap_objects`: the pass over the mesh objects of the input. */
  function AutoUnwrap(objects: seq<Obj>, st: UnwrapState, existing: set<string>, raises: Obj -> bool): (UnwrapStats, UnwrapState) {
    UnwrapPass(MeshObjects(objects), st, existing, raises)
  }

  /** Each mesh is counted once, as unwrapped, skipped or failed; the pass keeps the mesh
      store's keys, never touches a mesh that already has a UV layer, and leaves every mesh of
      the loop that has mesh data with a UV layer. */
  lemma {:induction false} UnwrapPassFacts(ms: seq<Obj>, st: UnwrapState, existing: set<string>, raises: Obj -> bool)
    ensures var (t, s) := UnwrapPass(ms, st, existing, raises);
            t.unwrapped + t.skipped + t.failed == |ms|
            && s.meshes.Keys == st.meshes.Keys
            && (forall d :: d in st.meshes && st.meshes[d].uvLayers > 0 ==> s.meshes[d] == st.meshes[d])
            && (forall o :: o in ms && MeshOf(o, st.meshes).Some? ==> HasUvMap(o, s.meshes))
    decreases |ms|
  {
    if ms != [] {
      var prefix, o := ms[..|ms| - 1], ms[|ms| - 1];
      UnwrapPassFacts(prefix, st, existing, raises);
      var (t, s) := UnwrapPass(prefix, st, existing, raises);
      assert forall x :: x in ms ==> x in prefix || x == o;
    }
  }

  /** The pass changes only the meshes of its objects and no other visibility flag than
      theirs: an object is left visible only when Smart UV Project raised on it, since a
      successful unwrap puts its hidden flag back. */
  lemma {:induction false} UnwrapPassFrame(ms: seq<Obj>, st: UnwrapState, existing: set<string>, raises: Obj -> bool)
    ensures var s := UnwrapPass(ms, st, existing, raises).1;
            && s.meshes.Keys == st.meshes.Keys
            && (forall d :: d in st.meshes && (forall o :: o in ms ==> o.data != Some(d)) ==> s.meshes[d] == st.meshes[d])
            && s.hidden <= st.hidden
            && (forall h :: h in st.hidden && h !in s.hidden ==>
                  exists o :: o in ms && o.name == h && raises(o) && MeshOf(o, st.meshes).Some?)
    decreases |ms|
  {
    if ms != [] {
      var prefix, o := ms[..|ms| - 1], ms[|ms| - 1];
      UnwrapPassFrame(prefix, st, existing, raises);
      UnwrapPassFacts(prefix, st, existing, raises);
      assert forall x :: x in prefix ==> x in ms;
      var (t, s) := UnwrapPass(prefix, st, existing, raises);
      var s2 := UnwrapOne(t, s, o, existing, raises(o)).1;
      forall d | d in st.meshes && (forall x :: x in ms ==> x.data != Some(d))
        ensures s2.meshes[d] == st.meshes[d]
      {
        assert o.data != Some(d);
        assert forall x :: x in prefix ==> x.data != Some(d);
        assert d in s.meshes && s.meshes[d] == st.meshes[d];
      }
    }
  }

  /** When every mesh already has a UV map, all are skipped and nothing changes. */
  lemma {:induction false} AllMappedAllSkipped(ms: seq<Obj>, st: UnwrapState, existing: set<string>, raises: Obj -> bool)
    requires forall o :: o in ms ==> HasUvMap(o, st.meshes)
    ensures UnwrapPass(ms, st, existing, raises) == (UnwrapStats(0, |ms|, 0), st)
    decreases |ms|
  {
    if ms != [] {
      var prefix := ms[..|ms| - 1];
      assert forall o :: o in prefix ==> o in ms;
      AllMappedAllSkipped(prefix, st, existing, raises);
    }
  }

  /** `auto_unwrap_objects` ignores non-meshes: unwrapped + skipped + failed is the number of
      mesh objects; a mesh that already has a UV layer is not touched, and every mesh object
      with mesh data ends with a UV layer. */
  lemma AutoUnwrapCounts(objects: seq<Obj>, st: UnwrapState, existing: set<string>, raises: Obj -> bool)
    ensures var (t, s) := AutoUnwrap(objects, st, existing, raises);
            t.unwrapped + t.skipped + t.failed == |MeshObjects(objects)|
            && s.meshes.Keys == st.meshes.Keys
            && (forall d :: d in st.meshes && st.meshes[d].uvLayers > 0 ==> s.meshes[d] == st.meshes[d])
            && (forall o :: o in objects && o.kind == Mesh && MeshOf(o, st.meshes).Some? ==> HasUvMap(o, s.meshes))
    ensures (forall o :: o in objects && o.kind == Mesh ==> HasUvMap(o, st.meshes)) ==>
              AutoUnwrap(objects, st, existing, raises) == (UnwrapStats(0, |MeshObjects(objects)|, 0), st)
  {
    UnwrapPassFacts(MeshObjects(objects), st, existing, raises);
    if forall o :: o in objects && o.kind == Mesh ==> HasUvMap(o, st.meshes) {
      AllMappedAllSkipped(MeshObjects(objects), st, existing, raises);
    }
  }

  lemma UnwrapPassSnoc(ms: seq<Obj>, i: nat, st: UnwrapState, existing: set<string>, raises: Obj -> bool)
    requires i < |ms|
    ensures UnwrapPass(ms[..i + 1], st, existing, raises)
            == UnwrapOne(UnwrapPass(ms[..i], st, existing, raises).0, UnwrapPass(ms[..i], st, existing, raises).1,
                         ms[i], existing, raises(ms[i]))
  {
    assert ms[..i + 1][..i] == ms[..i];
  }

  /** One turn of the loop of `auto_unwrap_objects`. */
  method UnwrapObject(o: Obj, existing: set<string>, raised: bool, view: ViewState, vis: Visibility, store: MeshStore,
                      stats: UnwrapStats) returns (stats2: UnwrapStats)
    modifies view, vis, store
    ensures (stats2, StateOf(view, vis, store)) == UnwrapOne(stats, old(StateOf(view, vis, store)), o, existing, raised)
  {
    if HasUvMap(o, store.meshes) {
      stats2 := stats.(skipped := stats.skipped + 1);
    } else {
      var ok := SmartUvUnwrap(o, existing, raised, view, vis, store);
      if ok {
        stats2 := stats.(unwrapped := stats.unwrapped + 1);
      } else {
        stats2 := stats.(failed := stats.failed + 1);
      }
    }
  }

  /** The loop of `auto_unwrap_objects`. */
  method AutoUnwrapObjects(objects: seq<Obj>, existing: set<string>, raises: Obj -> bool,
                           view: ViewState, vis: Visibility, store: MeshStore)
    returns (stats: UnwrapStats)
    modifies view, vis, store
    ensures (stats, StateOf(view, vis, store)) == AutoUnwrap(objects, old(StateOf(view, vis, store)), existing, raises)
  {
    var ms := CollectMeshObjects(objects);
    stats := UnwrapStats(0, 0, 0);
    var i := 0;
    while i < |ms|
      invariant 0 <= i <= |ms|
      invariant (stats, StateOf(view, vis, store)) == UnwrapPass(ms[..i], old(StateOf(view, vis, store)), existing, raises)
    {
      UnwrapPassSnoc(ms, i, old(StateOf(view, vis, store)), existing, raises);
      stats := UnwrapObject(ms[i], existing, raises(ms[i]), view, vis, store, stats);
      i := i + 1;
    }
    assert ms[..i] == ms;
  }
}
