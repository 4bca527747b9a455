/** `services/export_service.py`: `ExportService.export_to_web`, the staged export. It collects
    the mesh sources of the selection (through collection instances), lowers subdivision
    levels, rebinds every source to a copy of its mesh (through a hidden proxy when the source
    is not in the view layer), runs the cleaning, UV and decimation passes on the copies, warns
    about unsupported materials, optimizes textures, exports GLB with a format fallback and,
    once the export succeeded, undoes its changes by name and schedules the deletion of what
    it created. */
module ExportService {
  import opened Wrappers
  import opened Strings
  import opened Scene
  import opened Timers
  import Properties
  import Images
  import MaterialAnalyzer
  import ContextManagers
  import UvUnwrap

  // ---------------------------------------------------------------------------------------
  // Collecting the sources (collect_recursive)

  /** What `collect_recursive` accumulates: the objects seen, the mesh sources in visiting
      order and the objects reached through a collection instance. */
  datatype Collected = Collected(processed: set<Obj>, sources: seq<Obj>, instanceSources: set<Obj>)

  predicate DistinctObjs(s: seq<Obj>) {
    forall i, j :: 0 <= i < j < |s| ==> s[i] != s[j]
  }

  /** The objects of the collections shown by the instancing empties among `ps`. */
  function Reached(ps: set<Obj>, collections: map<string, seq<Obj>>): set<Obj> {
    set o, m | o in ps && InstancesCollection(o, collections) && m in collections[o.instance.value] :: m
  }

  /** Every object of every collection. */
  function Members(collections: map<string, seq<Obj>>): set<Obj> {
    set c, m | c in collections && m in collections[c] :: m
  }

  /** What holds between the calls of `collect_recursive`. `stack` holds the empties whose
      collection is still being visited; every other instancing empty seen has had its whole
      collection seen and marked as an instance source. */
  ghost predicate CollectInv(c: Collected, roots: set<Obj>, stack: set<Obj>, collections: map<string, seq<Obj>>) {
    stack <= c.processed
    && (forall o, m ::
          o in c.processed && o !in stack && InstancesCollection(o, collections) && m in collections[o.instance.value]
          ==> m in c.processed && m in c.instanceSources)
    && (forall o :: o in c.sources <==> o in c.processed && o.kind == Mesh)
    && DistinctObjs(c.sources)
    && c.instanceSources <= Reached(c.processed, collections)
    && (forall o :: o in c.processed ==> o in roots || o in Reached(c.processed, collections))
  }

  lemma ReachedMonotone(a: set<Obj>, b: set<Obj>, collections: map<string, seq<Obj>>)
    requires a <= b
    ensures Reached(a, collections) <= Reached(b, collections)
  {
  }

  lemma {:induction false} SubsetCard(a: set<Obj>, b: set<Obj>)
    requires a <= b
    ensures |a| <= |b|
    decreases b
  {
    if a != {} {
      var x :| x in a;
      SubsetCard(a - {x}, b - {x});
    }
  }

  lemma FewerLeft(universe: set<Obj>, a: set<Obj>, b: set<Obj>, o: Obj)
    requires a <= b && o in b && o !in a && o in universe
    ensures |universe - b| < |universe - a|
  {
    SubsetCard(universe - b, (universe - a) - {o});
  }

  lemma NoMoreLeft(universe: set<Obj>, a: set<Obj>, b: set<Obj>)
    requires a <= b
    ensures |universe - b| <= |universe - a|
  {
    SubsetCard(universe - b, universe - a);
  }

  /** Marking an object reached from an instance being visited keeps the invariant. */
  lemma MarkInstance(c: Collected, roots: set<Obj>, stack: set<Obj>, collections: map<string, seq<Obj>>, o: Obj)
    requires CollectInv(c, roots, stack, collections) && o in Reached(stack, collections)
    ensures CollectInv(c.(instanceSources := c.instanceSources + {o}), roots, stack, collections)
  {
    ReachedMonotone(stack, c.processed, collections);
  }

  /** Seeing a new object keeps the invariant, with that object pending. */
  lemma MarkSeen(c: Collected, roots: set<Obj>, stack: set<Obj>, collections: map<string, seq<Obj>>, o: Obj)
    requires CollectInv(c, roots, stack, collections) && o !in c.processed
    requires o in roots || o in Reached(stack, collections)
    ensures CollectInv(Collected(c.processed + {o}, c.sources + (if o.kind == Mesh then [o] else []), c.instanceSources),
                       roots, stack + {o}, collections)
  {
    var c' := Collected(c.processed + {o}, c.sources + (if o.kind == Mesh then [o] else []), c.instanceSources);
    ReachedMonotone(stack, c.processed, collections);
    ReachedMonotone(c.processed, c'.processed, collections);
    assert forall x :: x in c'.sources <==> x in c'.processed && x.kind == Mesh;
  }

  /** Once an empty's collection has been seen and marked, it is no longer pending. */
  lemma FinishPending(c: Collected, roots: set<Obj>, stack: set<Obj>, collections: map<string, seq<Obj>>, o: Obj)
    requires CollectInv(c, roots, stack + {o}, collections) && o in c.processed
    requires InstancesCollection(o, collections) ==>
               forall m :: m in collections[o.instance.value] ==> m in c.processed && m in c.instanceSources
    ensures CollectInv(c, roots, stack, collections)
  {
  }

  /** The objects visited so far stay seen (and marked) after one more visit. */
  lemma SeenStep(objs: seq<Obj>, i: nat, fromInstance: bool, prev: Collected, r: Collected)
    requires i < |objs|
    requires prev.processed <= r.processed && prev.instanceSources <= r.instanceSources
    requires objs[i] in r.processed && (fromInstance ==> objs[i] in r.instanceSources)
    requires forall k :: 0 <= k < i ==> objs[k] in prev.processed
    requires fromInstance ==> forall k :: 0 <= k < i ==> objs[k] in prev.instanceSources
    ensures forall k :: 0 <= k < i + 1 ==> objs[k] in r.processed
    ensures fromInstance ==> forall k :: 0 <= k < i + 1 ==> objs[k] in r.instanceSources
  {
  }

  /** The loop body of `collect_recursive` for one object. */
  method CollectOne(o: Obj, fromInstance: bool, collections: map<string, seq<Obj>>,
                    ghost roots: set<Obj>, ghost universe: set<Obj>, ghost stack: set<Obj>, acc: Collected)
    returns (r: Collected)
    requires o in universe && (o in roots || o in Reached(stack, collections))
    requires Members(collections) <= universe && acc.processed <= universe
    requires CollectInv(acc, roots, stack, collections)
    requires fromInstance ==> o in Reached(stack, collections)
    ensures CollectInv(r, roots, stack, collections)
    ensures acc.processed <= r.processed <= universe
    ensures acc.instanceSources <= r.instanceSources
    ensures o in r.processed && (fromInstance ==> o in r.instanceSources)
    decreases |universe - acc.processed|, 0
  {
    r := acc;
    if fromInstance {
      MarkInstance(r, roots, stack, collections, o);
      r := r.(instanceSources := r.instanceSources + {o});
    }
    if o in r.processed {
      return;
    }
    MarkSeen(r, roots, stack, collections, o);
    r := Collected(r.processed + {o}, r.sources + (if o.kind == Mesh then [o] else []), r.instanceSources);
    if InstancesCollection(o, collections) {
      FewerLeft(universe, acc.processed, r.processed, o);
      var members := collections[o.instance.value];
      assert forall m :: m in members ==> m in Reached(stack + {o}, collections);
      assert forall m :: m in members ==> m in Members(collections);
      r := CollectRecursive(members, true, collections, roots, universe, stack + {o}, r);
    }
    FinishPending(r, roots, stack, collections, o);
  }

  /** `collect_recursive(objs, is_from_instance)`. Each object not yet seen is marked seen,
      appended to the sources when it is a mesh, and, when it is an empty instancing a
      collection, that collection's objects are visited as coming from an instance. An object
      coming from an instance becomes an instance source even when it was already seen. */
  method CollectRecursive(objs: seq<Obj>, fromInstance: bool, collections: map<string, seq<Obj>>,
                          ghost roots: set<Obj>, ghost universe: set<Obj>, ghost stack: set<Obj>, acc: Collected)
    returns (r: Collected)
    requires forall o :: o in objs ==> o in universe && (o in roots || o in Reached(stack, collections))
    requires Members(collections) <= universe && acc.processed <= universe
    requires CollectInv(acc, roots, stack, collections)
    requires fromInstance ==> forall o :: o in objs ==> o in Reached(stack, collections)
    ensures CollectInv(r, roots, stack, collections)
    ensures acc.processed <= r.processed <= universe
    ensures acc.instanceSources <= r.instanceSources
    ensures forall o :: o in objs ==> o in r.processed
    ensures fromInstance ==> forall o :: o in objs ==> o in r.instanceSources
    decreases |universe - acc.processed|, 1
  {
    r := acc;
    var i := 0;
    while i < |objs|
      invariant 0 <= i <= |objs|
      invariant CollectInv(r, roots, stack, collections)
      invariant acc.processed <= r.processed <= universe
      invariant acc.instanceSources <= r.instanceSources
      invariant forall k :: 0 <= k < i ==> objs[k] in r.processed
      invariant fromInstance ==> forall k :: 0 <= k < i ==> objs[k] in r.instanceSources
    {
      NoMoreLeft(universe, acc.processed, r.processed);
      var prev := r;
      r := CollectOne(objs[i], fromInstance, collections, roots, universe, stack, r);
      SeenStep(objs, i, fromInstance, prev, r);
      i := i + 1;
    }
  }

  /** The top-level `collect_recursive(initial_objects)` from an empty start. Every selected
      object is seen; the objects seen are closed under collection instancing and hold only
      selected objects and objects reached through an instance; the sources are exactly the
      meshes seen, each once; and the instance sources are exactly the objects reached through
      an instance. */
  method CollectSources(selection: seq<Obj>, collections: map<string, seq<Obj>>) returns (c: Collected)
    ensures forall o :: o in selection ==> o in c.processed
    ensures Reached(c.processed, collections) <= c.processed
    ensures forall o :: o in c.processed ==> o in selection || o in Reached(c.processed, collections)
    ensures c.instanceSources == Reached(c.processed, collections)
    ensures forall o :: o in c.sources <==> o in c.processed && o.kind == Mesh
    ensures DistinctObjs(c.sources)
  {
    ghost var roots := set o | o in selection;
    ghost var universe := roots + Members(collections);
    c := CollectRecursive(selection, false, collections, roots, universe, {}, Collected({}, [], {}));
  }

  // ---------------------------------------------------------------------------------------
  // The Blender data the export changes

  /** `bpy.data` as the export sees it: objects and meshes by name, the objects whose viewport
      and render visibility are switched off, the image names and the materials. */
  datatype Blend = Blend(objects: map<string, Obj>, meshes: map<string, MeshData>, hidden: set<string>,
                         images: set<string>, materials: map<string, MaterialAnalyzer.Material>)

  class BlendData {
    var objects: map<string, Obj>
    var meshes: map<string, MeshData>
    var hidden: set<string>
    var images: set<string>
    var materials: map<string, MaterialAnalyzer.Material>

    function State(): Blend
      reads this
    {
      Blend(objects, meshes, hidden, images, materials)
    }

    constructor(b: Blend)
      ensures State() == b
    {
      objects, meshes, hidden, images, materials := b.objects, b.meshes, b.hidden, b.images, b.materials;
    }
  }

  // ---------------------------------------------------------------------------------------
  // Subdivision override

  /** Membership of the exclusion list built from the entries with a non-empty name. */
  predicate Excluded(name: string, list: seq<string>) {
    name != "" && name in list
  }

  /** The last position holding `name`: the entry a dictionary built from the list in order
      keeps for that key. */
  function LastIndexOfName(names: seq<string>, name: string): (r: Option<nat>)
    ensures r.Some? ==> r.value < |names| && names[r.value] == name && forall j :: r.value < j < |names| ==> names[j] != name
    ensures r.None? ==> name !in names
    decreases |names|
  {
    if names == [] then None
    else if names[|names| - 1] == name then Some(|names| - 1)
    else LastIndexOfName(names[..|names| - 1], name)
  }

  /** `individual_overrides.get(name, global)` for the subdivision overrides: the level of
      the last entry for the object, else the global level. */
  function OverrideLevel(name: string, overrides: seq<Properties.SubdivOverride>, global: int): int {
    match LastIndexOfName(seq(|overrides|, k requires 0 <= k < |overrides| => overrides[k].objectName), name)
    case Some(k) => overrides[k].level
    case None => global
  }

  function Min(a: int, b: int): int {
    if a < b then a else b
  }

  /** A modifier the override changes: a SUBSURF whose viewport level or effective render
      level lies above the override level. */
  predicate Clamps(m: Modifier, level: int) {
    m.kind == Subsurf && (level < m.levels || level < EffectiveLevel(m))
  }

  /** One modifier after the override. Only a modifier that `Clamps` changes; its viewport
      level becomes the smaller of itself and the override, its effective render level drops
      to the override when it was above, and neither level ever rises. */
  function ClampModifier(m: Modifier, level: int): (r: Modifier)
    ensures r.name == m.name && r.kind == m.kind
    ensures !Clamps(m, level) ==> r == m
    ensures r == m.(levels := r.levels, renderLevels := r.renderLevels)
    ensures r.levels <= m.levels && EffectiveLevel(r) <= EffectiveLevel(m)
    ensures m.kind == Subsurf ==> r.levels == Min(m.levels, level)
    ensures m.kind == Subsurf && level > 0 ==> EffectiveLevel(r) == Min(EffectiveLevel(m), level)
  {
    if !Clamps(m, level) then m
    else m.(levels := if level < m.levels then level else m.levels,
            renderLevels := if level < EffectiveLevel(m) then level else m.renderLevels)
  }

  /** Every modifier of a stack after the override. */
  function ClampAll(mods: seq<Modifier>, level: int): (r: seq<Modifier>)
    ensures |r| == |mods| && forall j :: 0 <= j < |mods| ==> r[j] == ClampModifier(mods[j], level)
  {
    seq(|mods|, j requires 0 <= j < |mods| => ClampModifier(mods[j], level))
  }

  /** An entry of `subdiv_original_levels`, by name: the object, the modifier, and the levels
      it had before the override. */
  datatype SubdivRecord = SubdivRecord(objectName: string, modifierName: string, viewport: int, render: int)

  /** The modifier names of a stack, in order. */
  function ModNames(mods: seq<Modifier>): seq<string> {
    seq(|mods|, j requires 0 <= j < |mods| => mods[j].name)
  }

  /** The entries recorded for one object's stack: one per changed modifier, in stack order,
      each naming a modifier of the stack. */
  function Records(name: string, mods: seq<Modifier>, level: int): (r: seq<SubdivRecord>)
    ensures |r| <= |mods|
    ensures forall rec :: rec in r ==> rec.objectName == name && rec.modifierName in ModNames(mods)
    decreases |mods|
  {
    if mods == [] then []
    else
      var x := mods[|mods| - 1];
      assert ModNames(mods) == ModNames(mods[..|mods| - 1]) + [x.name];
      Records(name, mods[..|mods| - 1], level)
      + (if Clamps(x, level) then [SubdivRecord(name, x.name, x.levels, x.renderLevels)] else [])
  }

  /** The override over the sources in order; an excluded source keeps its modifiers. The
      result is the new object table and `subdiv_original_levels`. */
  function SubdivPass(objects: map<string, Obj>, names: seq<string>, excluded: seq<string>,
                      overrides: seq<Properties.SubdivOverride>, global: int): (r: (map<string, Obj>, seq<SubdivRecord>))
    ensures r.0.Keys == objects.Keys
    ensures forall k :: k in objects ==> r.0[k] == objects[k].(modifiers := r.0[k].modifiers)
    ensures forall k :: k in objects && k !in names ==> r.0[k] == objects[k]
    ensures forall rec :: rec in r.1 ==> rec.objectName in names
    decreases |names|
  {
    if names == [] then (objects, [])
    else
      var n := names[|names| - 1];
      var (objs, recs) := SubdivPass(objects, names[..|names| - 1], excluded, overrides, global);
      if Excluded(n, excluded) || n !in objs then (objs, recs)
      else
        var level := OverrideLevel(n, overrides, global);
        var mods := objs[n].modifiers;
        (objs[n := objs[n].(modifiers := ClampAll(mods, level))], recs + Records(n, mods, level))
  }

  lemma ClampSnoc(name: string, mods: seq<Modifier>, i: nat, level: int)
    requires i < |mods|
    ensures ClampAll(mods[..i + 1], level) == ClampAll(mods[..i], level) + [ClampModifier(mods[i], level)]
    ensures Records(name, mods[..i + 1], level)
            == Records(name, mods[..i], level)
               + (if Clamps(mods[i], level) then [SubdivRecord(name, mods[i].name, mods[i].levels, mods[i].renderLevels)] else [])
  {
    assert mods[..i + 1][..i] == mods[..i];
  }

  /** One modifier of the inner loop: a SUBSURF above the override is recorded, then clamped. */
  method ClampOne(name: string, m: Modifier, level: int) returns (c: Modifier, rec: seq<SubdivRecord>)
    ensures c == ClampModifier(m, level)
    ensures rec == if Clamps(m, level) then [SubdivRecord(name, m.name, m.levels, m.renderLevels)] else []
  {
    c, rec := m, [];
    if m.kind == Subsurf {
      var viewport := m.levels;
      var render := EffectiveLevel(m);
      var overrideViewport := level < viewport;
      var overrideRender := level < render;
      if overrideViewport || overrideRender {
        rec := [SubdivRecord(name, m.name, m.levels, m.renderLevels)];
        if overrideViewport {
          c := c.(levels := level);
        }
        if overrideRender {
          c := c.(renderLevels := level);
        }
      }
    }
  }

  /** The inner loop of the override over one object's modifiers. */
  method ClampObject(name: string, mods: seq<Modifier>, level: int) returns (clamped: seq<Modifier>, records: seq<SubdivRecord>)
    ensures clamped == ClampAll(mods, level)
    ensures records == Records(name, mods, level)
  {
    clamped, records := [], [];
    var i := 0;
    while i < |mods|
      invariant 0 <= i <= |mods|
      invariant clamped == ClampAll(mods[..i], level)
      invariant records == Records(name, mods[..i], level)
    {
      ClampSnoc(name, mods, i, level);
      var m, rec := ClampOne(name, mods[i], level);
      records := records + rec;
      clamped := clamped + [m];
      i := i + 1;
    }
    assert mods[..i] == mods;
  }

  /** Step 2 of `export_to_web`: the override on every mesh source that is not excluded. */
  method ApplySubdivOverride(data: BlendData, names: seq<string>, excluded: seq<string>,
                             overrides: seq<Properties.SubdivOverride>, global: int) returns (records: seq<SubdivRecord>)
    modifies data
    ensures (data.objects, records) == SubdivPass(old(data.objects), names, excluded, overrides, global)
    ensures data.State() == old(data.State()).(objects := data.objects)
  {
    records := [];
    var i := 0;
    while i < |names|
      invariant 0 <= i <= |names|
      invariant (data.objects, records) == SubdivPass(old(data.objects), names[..i], excluded, overrides, global)
      invariant data.State() == old(data.State()).(objects := data.objects)
    {
      assert names[..i + 1][..i] == names[..i];
      var n := names[i];
      if !Excluded(n, excluded) && n in data.objects {
        var level := OverrideLevel(n, overrides, global);
        var clamped, recs := ClampObject(n, data.objects[n].modifiers, level);
        records := records + recs;
        data.objects := data.objects[n := data.objects[n].(modifiers := clamped)];
      }
      i := i + 1;
    }
    assert names[..i] == names;
  }

  /** `obj.modifiers[name]`: the first modifier with that name. */
  function ModifierIndex(mods: seq<Modifier>, name: string): (r: Option<nat>)
    ensures r.Some? ==> r.value < |mods| && mods[r.value].name == name && forall j :: 0 <= j < r.value ==> mods[j].name != name
    ensures r.None? ==> forall j :: 0 <= j < |mods| ==> mods[j].name != name
    decreases |mods|
  {
    if mods == [] then None
    else if mods[0].name == name then Some(0)
    else match ModifierIndex(mods[1..], name)
      case None => None
      case Some(k) => Some(k + 1)
  }

  /** One record put back on a stack: the named modifier, when it exists and is still a
      SUBSURF, gets its recorded levels back. */
  function RestoreMod(mods: seq<Modifier>, rec: SubdivRecord): (r: seq<Modifier>)
    ensures ModNames(r) == ModNames(mods)
  {
    match ModifierIndex(mods, rec.modifierName)
    case None => mods
    case Some(j) =>
      if mods[j].kind == Subsurf then mods[j := mods[j].(levels := rec.viewport, renderLevels := rec.render)] else mods
  }

  /** The records put back on one stack, in order. */
  function RestoreMods(mods: seq<Modifier>, recs: seq<SubdivRecord>): (r: seq<Modifier>)
    ensures ModNames(r) == ModNames(mods)
    decreases |recs|
  {
    if recs == [] then mods else RestoreMod(RestoreMods(mods, recs[..|recs| - 1]), recs[|recs| - 1])
  }

  /** One record put back by name: nothing happens when the object is gone. */
  function RestoreRecord(objects: map<string, Obj>, rec: SubdivRecord): (r: map<string, Obj>)
    ensures r.Keys == objects.Keys
    ensures forall k :: k in objects && k != rec.objectName ==> r[k] == objects[k]
  {
    if rec.objectName in objects
    then objects[rec.objectName := objects[rec.objectName].(modifiers := RestoreMod(objects[rec.objectName].modifiers, rec))]
    else objects
  }

  /** The subdivision restore of the teardown: the records put back in order. */
  function RestoreSubdiv(objects: map<string, Obj>, recs: seq<SubdivRecord>): (r: map<string, Obj>)
    ensures r.Keys == objects.Keys
    ensures forall k :: k in objects && (forall rec :: rec in recs ==> rec.objectName != k) ==> r[k] == objects[k]
    decreases |recs|
  {
    if recs == [] then objects else RestoreRecord(RestoreSubdiv(objects, recs[..|recs| - 1]), recs[|recs| - 1])
  }

  /** One record of the restore loop: the object is looked up by name, then its modifier. */
  method RestoreOne(data: BlendData, rec: SubdivRecord)
    modifies data
    ensures data.objects == RestoreRecord(old(data.objects), rec)
    ensures data.State() == old(data.State()).(objects := data.objects)
  {
    if rec.objectName in data.objects {
      var o := data.objects[rec.objectName];
      var j := ModifierIndex(o.modifiers, rec.modifierName);
      if j.Some? && o.modifiers[j.value].kind == Subsurf {
        var m := o.modifiers[j.value].(levels := rec.viewport, renderLevels := rec.render);
        assert RestoreMod(o.modifiers, rec) == o.modifiers[j.value := m];
        data.objects := data.objects[rec.objectName := o.(modifiers := o.modifiers[j.value := m])];
      } else {
        assert data.objects[rec.objectName := o] == data.objects;
      }
    }
  }

  /** The restore loop of the teardown, by object and modifier name. */
  method RestoreSubdivLevels(data: BlendData, records: seq<SubdivRecord>)
    modifies data
    ensures data.objects == RestoreSubdiv(old(data.objects), records)
    ensures data.State() == old(data.State()).(objects := data.objects)
  {
    var i := 0;
    while i < |records|
      invariant 0 <= i <= |records|
      invariant data.objects == RestoreSubdiv(old(data.objects), records[..i])
      invariant data.State() == old(data.State()).(objects := data.objects)
    {
      assert records[..i + 1][..i] == records[..i];
      RestoreOne(data, records[i]);
      i := i + 1;
    }
    assert records[..i] == records;
  }

  /** Blender keeps modifier names unique within an object. */
  predicate UniqueModifierNames(mods: seq<Modifier>) {
    forall i, j :: 0 <= i < j < |mods| ==> mods[i].name != mods[j].name
  }

  /** Each record carries the original levels of a modifier the override changed. */
  lemma {:induction false} RecordsOriginal(name: string, mods: seq<Modifier>, level: int)
    ensures forall rec :: rec in Records(name, mods, level) ==>
              exists j :: 0 <= j < |mods| && mods[j].name == rec.modifierName && Clamps(mods[j], level)
                          && rec.viewport == mods[j].levels && rec.render == mods[j].renderLevels
    decreases |mods|
  {
    if mods != [] {
      var p := mods[..|mods| - 1];
      RecordsOriginal(name, p, level);
      forall rec | rec in Records(name, mods, level)
        ensures exists j :: 0 <= j < |mods| && mods[j].name == rec.modifierName && Clamps(mods[j], level)
                            && rec.viewport == mods[j].levels && rec.render == mods[j].renderLevels
      {
        if rec in Records(name, p, level) {
          var j :| 0 <= j < |p| && p[j].name == rec.modifierName && Clamps(p[j], level)
                   && rec.viewport == p[j].levels && rec.render == p[j].renderLevels;
          assert mods[j] == p[j];
        } else {
          assert mods[|mods| - 1].name == rec.modifierName;
        }
      }
    }
  }

  /** Every changed modifier is recorded. */
  lemma {:induction false} RecordsComplete(name: string, mods: seq<Modifier>, level: int, j: nat)
    requires j < |mods| && Clamps(mods[j], level)
    ensures SubdivRecord(name, mods[j].name, mods[j].levels, mods[j].renderLevels) in Records(name, mods, level)
    decreases |mods|
  {
    if j < |mods| - 1 {
      RecordsComplete(name, mods[..|mods| - 1], level, j);
    }
  }

  lemma {:induction false} SameNamesSameIndex(a: seq<Modifier>, b: seq<Modifier>, name: string)
    requires ModNames(a) == ModNames(b)
    ensures ModifierIndex(a, name) == ModifierIndex(b, name)
    decreases |a|
  {
    assert |a| == |ModNames(a)| == |b|;
    if a != [] {
      assert a[0].name == ModNames(a)[0] == b[0].name;
      assert ModNames(a[1..]) == ModNames(a)[1..] && ModNames(b[1..]) == ModNames(b)[1..];
      SameNamesSameIndex(a[1..], b[1..], name);
    }
  }

  lemma {:induction false} RestoreModsConcat(mods: seq<Modifier>, a: seq<SubdivRecord>, b: seq<SubdivRecord>)
    ensures RestoreMods(mods, a + b) == RestoreMods(RestoreMods(mods, a), b)
    decreases |b|
  {
    if b == [] {
      assert a + b == a;
    } else {
      RestoreModsConcat(mods, a, b[..|b| - 1]);
      assert (a + b)[..|a + b| - 1] == a + b[..|b| - 1];
    }
  }

  lemma ModifierIndexAppend(s: seq<Modifier>, y: Modifier, name: string)
    requires ModifierIndex(s, name).Some?
    ensures ModifierIndex(s + [y], name) == ModifierIndex(s, name)
  {
    var k := ModifierIndex(s, name).value;
    assert (s + [y])[k].name == name;
  }

  lemma RestoreModAppend(t: seq<Modifier>, y: Modifier, rec: SubdivRecord)
    requires ModifierIndex(t, rec.modifierName).Some?
    ensures RestoreMod(t + [y], rec) == RestoreMod(t, rec) + [y]
  {
    ModifierIndexAppend(t, y, rec.modifierName);
    var k := ModifierIndex(t, rec.modifierName).value;
    if t[k].kind == Subsurf {
      var m := t[k].(levels := rec.viewport, renderLevels := rec.render);
      assert (t + [y])[k := m] == t[k := m] + [y];
    }
  }

  /** Restoring records that all name modifiers of `s` leaves a modifier appended after `s`
      alone. */
  lemma {:induction false} RestoreModsAppend(s: seq<Modifier>, y: Modifier, recs: seq<SubdivRecord>)
    requires forall rec :: rec in recs ==> ModifierIndex(s, rec.modifierName).Some?
    ensures RestoreMods(s + [y], recs) == RestoreMods(s, recs) + [y]
    decreases |recs|
  {
    if recs != [] {
      var p := recs[..|recs| - 1];
      var rec := recs[|recs| - 1];
      assert forall r :: r in p ==> r in recs;
      RestoreModsAppend(s, y, p);
      SameNamesSameIndex(RestoreMods(s, p), s, rec.modifierName);
      RestoreModAppend(RestoreMods(s, p), y, rec);
    }
  }

  lemma NameFound(mods: seq<Modifier>, name: string)
    requires name in ModNames(mods)
    ensures ModifierIndex(mods, name).Some?
  {
    var j :| 0 <= j < |ModNames(mods)| && ModNames(mods)[j] == name;
    assert mods[j].name == name;
  }

  /** The last modifier's record put back on the overridden stack. */
  lemma RestoreLast(p: seq<Modifier>, x: Modifier, name: string, level: int)
    requires x.name !in ModNames(p)
    ensures RestoreMods(p + [ClampModifier(x, level)],
                        if Clamps(x, level) then [SubdivRecord(name, x.name, x.levels, x.renderLevels)] else [])
            == p + [x]
  {
    var cx := ClampModifier(x, level);
    if Clamps(x, level) {
      var rec := SubdivRecord(name, x.name, x.levels, x.renderLevels);
      var t := p + [cx];
      assert forall k :: 0 <= k < |p| ==> p[k].name == ModNames(p)[k];
      assert ModifierIndex(p, x.name).None?;
      assert forall k :: 0 <= k < |p| ==> t[k].name == p[k].name;
      assert t[|p|].name == x.name;
      assert ModifierIndex(t, x.name) == Some(|p|);
      assert t[|p| := cx.(levels := x.levels, renderLevels := x.renderLevels)] == p + [x];
      assert RestoreMods(t, [rec]) == RestoreMod(t, rec);
    }
  }

  lemma LastNameFresh(mods: seq<Modifier>)
    requires mods != [] && UniqueModifierNames(mods)
    ensures mods[|mods| - 1].name !in ModNames(mods[..|mods| - 1])
  {
    var p := mods[..|mods| - 1];
    assert forall k :: 0 <= k < |p| ==> ModNames(p)[k] == mods[k].name;
  }

  /** Every record names a modifier of the overridden stack. */
  lemma RecordsFound(name: string, p: seq<Modifier>, level: int)
    ensures forall rec :: rec in Records(name, p, level) ==> ModifierIndex(ClampAll(p, level), rec.modifierName).Some?
  {
    assert ModNames(ClampAll(p, level)) == ModNames(p);
    forall rec | rec in Records(name, p, level)
      ensures ModifierIndex(ClampAll(p, level), rec.modifierName).Some?
    {
      NameFound(ClampAll(p, level), rec.modifierName);
    }
  }

  /** Putting the recorded levels back on an overridden stack gives the original stack. */
  lemma {:induction false} ModsRoundTrip(name: string, mods: seq<Modifier>, level: int)
    requires UniqueModifierNames(mods)
    ensures RestoreMods(ClampAll(mods, level), Records(name, mods, level)) == mods
    decreases |mods|
  {
    if mods != [] {
      var p := mods[..|mods| - 1];
      var x := mods[|mods| - 1];
      var cx := ClampModifier(x, level);
      var rp := Records(name, p, level);
      var rx := if Clamps(x, level) then [SubdivRecord(name, x.name, x.levels, x.renderLevels)] else [];
      assert UniqueModifierNames(p) by {
        forall i, j | 0 <= i < j < |p| ensures p[i].name != p[j].name {
          assert p[i] == mods[i] && p[j] == mods[j];
        }
      }
      assert p + [x] == mods;
      calc {
        RestoreMods(ClampAll(mods, level), Records(name, mods, level));
        { ClampSnoc(name, mods, |mods| - 1, level); assert mods[..|mods|] == mods; }
        RestoreMods(ClampAll(p, level) + [cx], rp + rx);
        { RestoreModsConcat(ClampAll(p, level) + [cx], rp, rx); }
        RestoreMods(RestoreMods(ClampAll(p, level) + [cx], rp), rx);
        { RecordsFound(name, p, level); RestoreModsAppend(ClampAll(p, level), cx, rp); }
        RestoreMods(RestoreMods(ClampAll(p, level), rp) + [cx], rx);
        { ModsRoundTrip(name, p, level); }
        RestoreMods(p + [cx], rx);
        { LastNameFresh(mods); RestoreLast(p, x, name, level); }
        p + [x];
        mods;
      }
    }
  }

  lemma {:induction false} RestoreSubdivConcat(objects: map<string, Obj>, a: seq<SubdivRecord>, b: seq<SubdivRecord>)
    ensures RestoreSubdiv(objects, a + b) == RestoreSubdiv(RestoreSubdiv(objects, a), b)
    decreases |b|
  {
    if b == [] {
      assert a + b == a;
    } else {
      var p := b[..|b| - 1];
      assert (a + b)[..|a + b| - 1] == a + p;
      assert (a + b)[|a + b| - 1] == b[|b| - 1];
      RestoreSubdivConcat(objects, a, p);
    }
  }

  /** Records of other objects commute with replacing object `n`. */
  lemma {:induction false} RestoreSubdivFrame(objects: map<string, Obj>, recs: seq<SubdivRecord>, n: string, o: Obj)
    requires n in objects
    requires forall rec :: rec in recs ==> rec.objectName != n
    ensures RestoreSubdiv(objects[n := o], recs) == RestoreSubdiv(objects, recs)[n := o]
    decreases |recs|
  {
    if recs != [] {
      var p := recs[..|recs| - 1];
      assert forall r :: r in p ==> r in recs;
      RestoreSubdivFrame(objects, p, n, o);
      var x := RestoreSubdiv(objects, p);
      var rec := recs[|recs| - 1];
      assert rec in recs;
      RecordFrame(x, rec, n, o);
    }
  }

  /** A record of another object commutes with replacing object `n`. */
  lemma RecordFrame(objects: map<string, Obj>, rec: SubdivRecord, n: string, o: Obj)
    requires rec.objectName != n
    ensures RestoreRecord(objects[n := o], rec) == RestoreRecord(objects, rec)[n := o]
  {
    if rec.objectName in objects {
      var k := rec.objectName;
      var v := objects[k].(modifiers := RestoreMod(objects[k].modifiers, rec));
      assert objects[n := o][k := v] == objects[k := v][n := o];
    }
  }

  /** Records all naming object `n` act on its stack alone. */
  lemma {:induction false} RestoreSubdivSingle(objects: map<string, Obj>, n: string, recs: seq<SubdivRecord>)
    requires n in objects && forall rec :: rec in recs ==> rec.objectName == n
    ensures RestoreSubdiv(objects, recs) == objects[n := objects[n].(modifiers := RestoreMods(objects[n].modifiers, recs))]
    decreases |recs|
  {
    if recs == [] {
      assert objects[n := objects[n]] == objects;
    } else {
      var p := recs[..|recs| - 1];
      var x := recs[|recs| - 1];
      assert forall r :: r in p ==> r in recs;
      RestoreSubdivSingle(objects, n, p);
      var before := objects[n].(modifiers := RestoreMods(objects[n].modifiers, p));
      assert x in recs;
      assert RestoreRecord(objects[n := before], x) == objects[n := before][n := before.(modifiers := RestoreMod(before.modifiers, x))];
      UpdateTwice(objects, n, before, before.(modifiers := RestoreMod(before.modifiers, x)));
    }
  }

  lemma UpdateTwice(objects: map<string, Obj>, n: string, a: Obj, b: Obj)
    ensures objects[n := a][n := b] == objects[n := b]
  {
  }

  /** Undoing the records of a clamped object gives it back its own modifiers. */
  lemma ClampedModsRestored(objects: map<string, Obj>, n: string, level: int)
    requires n in objects && UniqueModifierNames(objects[n].modifiers)
    ensures var c := objects[n].(modifiers := ClampAll(objects[n].modifiers, level));
            RestoreSubdiv(objects[n := c], Records(n, objects[n].modifiers, level)) == objects[n := c][n := objects[n]]
  {
    var mods := objects[n].modifiers;
    var c := objects[n].(modifiers := ClampAll(mods, level));
    RestoreSubdivSingle(objects[n := c], n, Records(n, mods, level));
    ModsRoundTrip(n, mods, level);
    assert c.(modifiers := mods) == objects[n];
  }

  lemma UpdateUndone(objects: map<string, Obj>, n: string, c: Obj)
    requires n in objects
    ensures objects[n := c][n := objects[n]] == objects
  {
  }

  /** One object's override undone on its own. */
  lemma ObjectRoundTrip(objects: map<string, Obj>, n: string, level: int)
    requires n in objects && UniqueModifierNames(objects[n].modifiers)
    ensures RestoreSubdiv(objects[n := objects[n].(modifiers := ClampAll(objects[n].modifiers, level))],
                          Records(n, objects[n].modifiers, level)) == objects
  {
    ClampedModsRestored(objects, n, level);
    UpdateUndone(objects, n, objects[n].(modifiers := ClampAll(objects[n].modifiers, level)));
  }

  /** One more source clamped on top of a pass that restores to `objects`. */
  lemma SubdivStep(objects: map<string, Obj>, objs: map<string, Obj>, recs: seq<SubdivRecord>, n: string, level: int)
    requires n in objs && n in objects && objs[n] == objects[n]
    requires UniqueModifierNames(objs[n].modifiers)
    requires RestoreSubdiv(objs, recs) == objects
    requires forall rec :: rec in recs ==> rec.objectName != n
    ensures RestoreSubdiv(objs[n := objs[n].(modifiers := ClampAll(objs[n].modifiers, level))],
                          recs + Records(n, objs[n].modifiers, level)) == objects
  {
    var c := objs[n].(modifiers := ClampAll(objs[n].modifiers, level));
    var rn := Records(n, objs[n].modifiers, level);
    RestoreSubdivConcat(objs[n := c], recs, rn);
    RestoreSubdivFrame(objs, recs, n, c);
    ObjectRoundTrip(objects, n, level);
  }

  /** The teardown's subdivision restore undoes the override: with distinct sources and
      Blender's unique modifier names, putting `subdiv_original_levels` back by name gives
      every object its original modifiers. */
  lemma {:induction false} SubdivRoundTrip(objects: map<string, Obj>, names: seq<string>, excluded: seq<string>,
                                           overrides: seq<Properties.SubdivOverride>, global: int)
    requires forall i, j :: 0 <= i < j < |names| ==> names[i] != names[j]
    requires forall n :: n in objects ==> UniqueModifierNames(objects[n].modifiers)
    ensures RestoreSubdiv(SubdivPass(objects, names, excluded, overrides, global).0,
                          SubdivPass(objects, names, excluded, overrides, global).1) == objects
    decreases |names|
  {
    if names != [] {
      var n := names[|names| - 1];
      var prefix := names[..|names| - 1];
      var (objs, recs) := SubdivPass(objects, prefix, excluded, overrides, global);
      SubdivRoundTrip(objects, prefix, excluded, overrides, global);
      if !Excluded(n, excluded) && n in objs {
        assert forall i :: 0 <= i < |prefix| ==> prefix[i] != n;
        SubdivStep(objects, objs, recs, n, OverrideLevel(n, overrides, global));
      }
    }
  }

  // ---------------------------------------------------------------------------------------
  // Data swap

  /** An entry of `data_swap_map` with its entry of `obj_to_target`: the source object, the
      mesh it was bound to, the copy it is bound to during the export, and the object the
      passes work on (the source itself, or its proxy). */
  datatype Swap = Swap(source: string, original: string, temp: string, target: string)

  const TempDataPrefix := "TEMP_DATA_"
  const ProxyPrefix := "FRAMO_"

  /** One source's swap. The source is rebound to a copy of its mesh named after it; a source
      outside the view layer also gets a hidden proxy object showing the copy. A source whose
      mesh cannot be copied raises, which is only printed: nothing changes and it gets no
      target. */
  function SwapOne(b: Blend, n: string): (r: (Blend, Option<Swap>))
  {
    if n !in b.objects || MeshOf(b.objects[n], b.meshes).None? then (b, None)
    else
      var o := b.objects[n];
      var temp := FreshName(TempDataPrefix + n, b.meshes.Keys);
      var meshes := b.meshes[temp := b.meshes[o.data.value]];
      var objects := b.objects[n := o.(data := Some(temp))];
      if o.inViewLayer then (b.(objects := objects, meshes := meshes), Some(Swap(n, o.data.value, temp, n)))
      else
        var p := FreshName(ProxyPrefix + n, objects.Keys);
        (b.(objects := objects[p := Obj(p, Mesh, Some(temp), [], o.slots, true, None)], meshes := meshes,
            hidden := b.hidden + {p}),
         Some(Swap(n, o.data.value, temp, p)))
  }

  /** The swap loop over the sources in order. */
  function SwapAll(b: Blend, names: seq<string>): (r: (Blend, seq<Swap>))
    decreases |names|
  {
    if names == [] then (b, [])
    else
      var (b1, swaps) := SwapAll(b, names[..|names| - 1]);
      var (b2, s) := SwapOne(b1, names[|names| - 1]);
      (b2, swaps + if s.Some? then [s.value] else [])
  }

  /** What holds of a swap once it is made, relative to the data `b0` before the loop. */
  predicate SwapHolds(b0: Blend, b: Blend, s: Swap) {
    && s.source in b0.objects && b0.objects[s.source].kind == Mesh && b0.objects[s.source].data == Some(s.original)
    && s.original in b0.meshes && s.temp !in b0.meshes
    && StartsWith(s.temp, TempDataPrefix + s.source)
    && s.temp in b.meshes && b.meshes[s.temp] == b0.meshes[s.original]
    && s.source in b.objects && b.objects[s.source] == b0.objects[s.source].(data := Some(s.temp))
    && s.target in b.objects && b.objects[s.target].data == Some(s.temp)
    && (s.target == s.source <==> b0.objects[s.source].inViewLayer)
    && (s.target != s.source ==> s.target !in b0.objects && s.target in b.hidden && StartsWith(s.target, ProxyPrefix + s.source))
  }

  function Sources(swaps: seq<Swap>): set<string> {
    set s | s in swaps :: s.source
  }

  function Targets(swaps: seq<Swap>): set<string> {
    set s | s in swaps :: s.target
  }

  function ProxySet(swaps: seq<Swap>): set<string> {
    set s | s in swaps && s.target != s.source :: s.target
  }

  function Temps(swaps: seq<Swap>): set<string> {
    set s | s in swaps :: s.temp
  }

  /** The proxies, in creation order. */
  function Proxies(swaps: seq<Swap>): (r: seq<string>)
    ensures forall p :: p in r <==> exists s :: s in swaps && s.target != s.source && s.target == p
    decreases |swaps|
  {
    if swaps == [] then []
    else
      var s := swaps[|swaps| - 1];
      assert forall x :: x in swaps <==> x in swaps[..|swaps| - 1] || x == s;
      Proxies(swaps[..|swaps| - 1]) + if s.target != s.source then [s.target] else []
  }

  /** The temporary meshes, in creation order. */
  function TempNames(swaps: seq<Swap>): (r: seq<string>)
    ensures forall t :: t in r <==> t in Temps(swaps)
  {
    var r := seq(|swaps|, j requires 0 <= j < |swaps| => swaps[j].temp);
    assert forall j :: 0 <= j < |swaps| ==> r[j] == swaps[j].temp && swaps[j] in swaps;
    assert forall s :: s in swaps ==> exists j :: 0 <= j < |swaps| && swaps[j] == s;
    r
  }

  /** What the swap loop keeps, relative to the data `b0` before it: every swap made holds,
      and nothing else changed but the added copies and proxies. */
  predicate SwapInv(b0: Blend, b: Blend, swaps: seq<Swap>) {
    (forall s :: s in swaps ==> SwapHolds(b0, b, s)) && SwapFrame(b0, b, swaps)
  }

  predicate SwapFrame(b0: Blend, b: Blend, swaps: seq<Swap>) {
    && (forall k :: k in b0.meshes ==> k in b.meshes && b.meshes[k] == b0.meshes[k])
    && (forall k :: k in b0.objects && k !in Sources(swaps) ==> k in b.objects && b.objects[k] == b0.objects[k])
    && b.objects.Keys == b0.objects.Keys + Targets(swaps)
    && b.meshes.Keys == b0.meshes.Keys + Temps(swaps)
    && b.hidden == b0.hidden + ProxySet(swaps)
    && b.images == b0.images && b.materials == b0.materials
  }

  /** Every object's mesh name is a mesh of the file, as Blender keeps it. */
  predicate WellBound(b: Blend) {
    forall k :: k in b.objects && b.objects[k].data.Some? ==> b.objects[k].data.value in b.meshes
  }

  lemma SwapHoldsFrame(b0: Blend, b1: Blend, b2: Blend, s: Swap)
    requires SwapHolds(b0, b1, s)
    requires s.temp in b2.meshes && b2.meshes[s.temp] == b1.meshes[s.temp]
    requires s.source in b2.objects && b2.objects[s.source] == b1.objects[s.source]
    requires s.target in b2.objects && b2.objects[s.target] == b1.objects[s.target]
    requires b1.hidden <= b2.hidden
    ensures SwapHolds(b0, b2, s)
  {
  }

  /** A step changes only the source's binding and adds fresh names. */
  lemma SwapOneChanges(b1: Blend, n: string)
    ensures var b2 := SwapOne(b1, n).0;
            && (forall k :: k in b1.objects && k != n ==> k in b2.objects && b2.objects[k] == b1.objects[k])
            && (forall k :: k in b1.meshes ==> k in b2.meshes && b2.meshes[k] == b1.meshes[k])
            && b1.hidden <= b2.hidden
  {
  }

  /** The swaps made earlier survive one more step. */
  lemma SwapOneKeeps(b0: Blend, b1: Blend, swaps: seq<Swap>, n: string)
    requires forall x :: x in swaps ==> SwapHolds(b0, b1, x)
    requires n in b0.objects && forall x :: x in swaps ==> x.source != n
    ensures forall x :: x in swaps ==> SwapHolds(b0, SwapOne(b1, n).0, x)
  {
    var b2 := SwapOne(b1, n).0;
    SwapOneChanges(b1, n);
    forall x | x in swaps
      ensures SwapHolds(b0, b2, x)
    {
      assert x.target != n;
      SwapHoldsFrame(b0, b1, b2, x);
    }
  }

  /** The new swap holds. */
  lemma SwapOneNew(b0: Blend, b1: Blend, swaps: seq<Swap>, n: string)
    requires WellBound(b0) && SwapInv(b0, b1, swaps)
    requires n in b0.objects && n !in Sources(swaps)
    ensures SwapOne(b1, n).1.Some? <==> MeshOf(b0.objects[n], b0.meshes).Some?
    ensures SwapOne(b1, n).1.Some? ==> SwapOne(b1, n).1.value.source == n && SwapHolds(b0, SwapOne(b1, n).0, SwapOne(b1, n).1.value)
  {
    assert b1.objects[n] == b0.objects[n];
  }

  /** The names a step adds. */
  lemma SwapOneKeys(b1: Blend, n: string)
    ensures var (b2, s) := SwapOne(b1, n);
            && (s.None? ==> b2 == b1)
            && (s.Some? ==> && b2.objects.Keys == b1.objects.Keys + {s.value.target}
                            && b2.meshes.Keys == b1.meshes.Keys + {s.value.temp}
                            && b2.hidden == b1.hidden + (if s.value.target != s.value.source then {s.value.target} else {})
                            && b2.images == b1.images && b2.materials == b1.materials)
  {
  }

  /** Nothing else changes in a step that adds swap `sw` of source `n`. */
  lemma SwapFrameStep(b0: Blend, b1: Blend, b2: Blend, swaps: seq<Swap>, n: string, sw: Swap)
    requires SwapFrame(b0, b1, swaps)
    requires n in b0.objects && n !in Sources(swaps) && sw.source == n
    requires forall k :: k in b1.objects && k != n ==> k in b2.objects && b2.objects[k] == b1.objects[k]
    requires forall k :: k in b1.meshes ==> k in b2.meshes && b2.meshes[k] == b1.meshes[k]
    requires b2.objects.Keys == b1.objects.Keys + {sw.target}
    requires b2.meshes.Keys == b1.meshes.Keys + {sw.temp}
    requires b2.hidden == b1.hidden + (if sw.target != sw.source then {sw.target} else {})
    requires b2.images == b1.images && b2.materials == b1.materials
    ensures SwapFrame(b0, b2, swaps + [sw])
  {
    SwapSetsSnoc(swaps, sw);
    SwapFrameKeys(b0, b1, b2, swaps, sw);
    SwapFrameValues(b0, b1, b2, swaps, n, sw);
  }

  lemma SwapFrameKeys(b0: Blend, b1: Blend, b2: Blend, swaps: seq<Swap>, sw: Swap)
    requires b1.objects.Keys == b0.objects.Keys + Targets(swaps)
    requires b1.meshes.Keys == b0.meshes.Keys + Temps(swaps)
    requires b1.hidden == b0.hidden + ProxySet(swaps)
    requires b2.objects.Keys == b1.objects.Keys + {sw.target}
    requires b2.meshes.Keys == b1.meshes.Keys + {sw.temp}
    requires b2.hidden == b1.hidden + (if sw.target != sw.source then {sw.target} else {})
    ensures b2.objects.Keys == b0.objects.Keys + Targets(swaps + [sw])
    ensures b2.meshes.Keys == b0.meshes.Keys + Temps(swaps + [sw])
    ensures b2.hidden == b0.hidden + ProxySet(swaps + [sw])
  {
    SwapSetsSnoc(swaps, sw);
    UnionStep(b0.objects.Keys, b1.objects.Keys, b2.objects.Keys, Targets(swaps), {sw.target}, Targets(swaps + [sw]));
    UnionStep(b0.meshes.Keys, b1.meshes.Keys, b2.meshes.Keys, Temps(swaps), {sw.temp}, Temps(swaps + [sw]));
    UnionStep(b0.hidden, b1.hidden, b2.hidden, ProxySet(swaps),
              if sw.target != sw.source then {sw.target} else {}, ProxySet(swaps + [sw]));
  }

  /** A set grown by `done` and then by `step` has grown by their union. */
  lemma UnionStep(k0: set<string>, k1: set<string>, k2: set<string>, done: set<string>, step: set<string>, all: set<string>)
    requires k1 == k0 + done && k2 == k1 + step && all == done + step
    ensures k2 == k0 + all
  {
  }

  lemma SwapFrameValues(b0: Blend, b1: Blend, b2: Blend, swaps: seq<Swap>, n: string, sw: Swap)
    requires forall k :: k in b0.meshes ==> k in b1.meshes && b1.meshes[k] == b0.meshes[k]
    requires forall k :: k in b0.objects && k !in Sources(swaps) ==> k in b1.objects && b1.objects[k] == b0.objects[k]
    requires sw.source == n
    requires forall k :: k in b1.objects && k != n ==> k in b2.objects && b2.objects[k] == b1.objects[k]
    requires forall k :: k in b1.meshes ==> k in b2.meshes && b2.meshes[k] == b1.meshes[k]
    ensures forall k :: k in b0.meshes ==> k in b2.meshes && b2.meshes[k] == b0.meshes[k]
    ensures forall k :: k in b0.objects && k !in Sources(swaps + [sw]) ==> k in b2.objects && b2.objects[k] == b0.objects[k]
  {
    SwapSetsSnoc(swaps, sw);
  }

  /** The name sets of the swaps, one swap later. */
  lemma SwapSetsSnoc(swaps: seq<Swap>, sw: Swap)
    ensures Sources(swaps + [sw]) == Sources(swaps) + {sw.source}
    ensures Temps(swaps + [sw]) == Temps(swaps) + {sw.temp}
    ensures Targets(swaps + [sw]) == Targets(swaps) + {sw.target}
    ensures ProxySet(swaps + [sw]) == ProxySet(swaps) + (if sw.target != sw.source then {sw.target} else {})
  {
    assert forall x :: x in swaps + [sw] <==> x in swaps || x == sw;
  }

  /** One step of the swap loop keeps `SwapInv`. */
  lemma SwapOneInv(b0: Blend, b1: Blend, swaps: seq<Swap>, n: string)
    requires WellBound(b0) && SwapInv(b0, b1, swaps)
    requires n in b0.objects && n !in Sources(swaps)
    ensures var s := SwapOne(b1, n).1; SwapInv(b0, SwapOne(b1, n).0, swaps + if s.Some? then [s.value] else [])
    ensures SwapOne(b1, n).1.Some? <==> MeshOf(b0.objects[n], b0.meshes).Some?
    ensures SwapOne(b1, n).1.Some? ==> SwapOne(b1, n).1.value.source == n
  {
    SwapOneNew(b0, b1, swaps, n);
    if SwapOne(b1, n).1.Some? {
      SwapOneSomeInv(b0, b1, swaps, n);
    } else {
      SwapOneKeys(b1, n);
      assert swaps + [] == swaps;
    }
  }

  /** A step that swaps keeps `SwapInv` with its swap appended. */
  lemma SwapOneSomeInv(b0: Blend, b1: Blend, swaps: seq<Swap>, n: string)
    requires WellBound(b0) && SwapInv(b0, b1, swaps)
    requires n in b0.objects && n !in Sources(swaps) && SwapOne(b1, n).1.Some?
    ensures SwapInv(b0, SwapOne(b1, n).0, swaps + [SwapOne(b1, n).1.value])
  {
    var (b2, s) := SwapOne(b1, n);
    var sw := s.value;
    assert forall x :: x in swaps ==> x.source in Sources(swaps);
    SwapOneKeeps(b0, b1, swaps, n);
    SwapOneNew(b0, b1, swaps, n);
    SwapOneKeys(b1, n);
    SwapOneChanges(b1, n);
    SwapFrameStep(b0, b1, b2, swaps, n, sw);
    HoldsAppend(b0, b2, swaps, sw);
  }

  lemma HoldsAppend(b0: Blend, b: Blend, swaps: seq<Swap>, sw: Swap)
    requires forall x :: x in swaps ==> SwapHolds(b0, b, x)
    requires SwapHolds(b0, b, sw)
    ensures forall x :: x in swaps + [sw] ==> SwapHolds(b0, b, x)
  {
    forall x | x in swaps + [sw] ensures SwapHolds(b0, b, x) {
      if x != sw {
        assert x in swaps;
      }
    }
  }

  predicate DistinctNames(names: seq<string>) {
    forall i, j :: 0 <= i < j < |names| ==> names[i] != names[j]
  }

  predicate DistinctSources(swaps: seq<Swap>) {
    forall i, j :: 0 <= i < j < |swaps| ==> swaps[i].source != swaps[j].source
  }

  lemma DistinctSourcesSnoc(swaps: seq<Swap>, sw: Swap)
    requires DistinctSources(swaps) && sw.source !in Sources(swaps)
    ensures DistinctSources(swaps + [sw])
  {
    assert forall j :: 0 <= j < |swaps| ==> swaps[j] in swaps && swaps[j].source in Sources(swaps);
  }

  /** The listed objects whose mesh can be copied. */
  function Swappable(b: Blend, names: seq<string>): set<string>
    requires forall n :: n in names ==> n in b.objects
  {
    set n | n in names && MeshOf(b.objects[n], b.meshes).Some?
  }

  lemma SwappableSnoc(b: Blend, prefix: seq<string>, n: string)
    requires forall x :: x in prefix + [n] ==> x in b.objects
    ensures forall x :: x in prefix ==> x in b.objects
    ensures Swappable(b, prefix + [n]) == Swappable(b, prefix) + if MeshOf(b.objects[n], b.meshes).Some? then {n} else {}
  {
    assert forall x :: x in prefix + [n] <==> x in prefix || x == n;
  }

  /** The swap loop over distinct existing sources: each source whose mesh can be copied is
      swapped once, and `SwapInv` describes the result. */
  lemma {:induction false} SwapAllFacts(b: Blend, names: seq<string>)
    requires WellBound(b) && DistinctNames(names)
    requires forall n :: n in names ==> n in b.objects
    ensures SwapInv(b, SwapAll(b, names).0, SwapAll(b, names).1)
    ensures Sources(SwapAll(b, names).1) == Swappable(b, names)
    ensures DistinctSources(SwapAll(b, names).1)
    decreases |names|
  {
    if names == [] {
      assert Sources([]) == {} && Targets([]) == {} && Temps([]) == {} && ProxySet([]) == {};
    } else {
      var prefix, n := names[..|names| - 1], names[|names| - 1];
      assert names == prefix + [n];
      assert DistinctNames(prefix) by {
        forall i, j | 0 <= i < j < |prefix| ensures prefix[i] != prefix[j] {
          assert prefix[i] == names[i] && prefix[j] == names[j];
        }
      }
      assert n !in prefix by {
        forall j | 0 <= j < |prefix| ensures prefix[j] != n {
          assert prefix[j] == names[j];
        }
      }
      SwapAllFacts(b, prefix);
      var (b1, swaps) := SwapAll(b, prefix);
      SwappableSnoc(b, prefix, n);
      SwapAllStep(b, b1, swaps, n, Swappable(b, prefix), Swappable(b, names));
    }
  }

  lemma SwapAllStep(b: Blend, b1: Blend, swaps: seq<Swap>, n: string, before: set<string>, after: set<string>)
    requires WellBound(b) && SwapInv(b, b1, swaps) && DistinctSources(swaps)
    requires n in b.objects && n !in Sources(swaps) && Sources(swaps) == before
    requires after == before + if MeshOf(b.objects[n], b.meshes).Some? then {n} else {}
    ensures var (b2, s) := SwapOne(b1, n);
            var ss := swaps + if s.Some? then [s.value] else [];
            SwapInv(b, b2, ss) && Sources(ss) == after && DistinctSources(ss)
  {
    SwapOneInv(b, b1, swaps, n);
    var (b2, s) := SwapOne(b1, n);
    if s.Some? {
      DistinctSourcesSnoc(swaps, s.value);
      assert Sources(swaps + [s.value]) == Sources(swaps) + {n} by {
        assert forall x :: x in swaps + [s.value] <==> x in swaps || x == s.value;
      }
    } else {
      assert swaps + [] == swaps;
    }
  }

  /** The swap loop of `export_to_web`. */
  method SwapData(data: BlendData, names: seq<string>) returns (swaps: seq<Swap>)
    modifies data
    ensures (data.State(), swaps) == SwapAll(old(data.State()), names)
  {
    swaps := [];
    var i := 0;
    while i < |names|
      invariant 0 <= i <= |names|
      invariant (data.State(), swaps) == SwapAll(old(data.State()), names[..i])
    {
      assert names[..i + 1][..i] == names[..i];
      var n := names[i];
      ghost var before := data.State();
      ghost var made := swaps;
      if n in data.objects && MeshOf(data.objects[n], data.meshes).Some? {
        var o := data.objects[n];
        var temp := FreshName(TempDataPrefix + n, data.meshes.Keys);
        data.meshes := data.meshes[temp := data.meshes[o.data.value]];
        data.objects := data.objects[n := o.(data := Some(temp))];
        if o.inViewLayer {
          swaps := swaps + [Swap(n, o.data.value, temp, n)];
        } else {
          var p := FreshName(ProxyPrefix + n, data.objects.Keys);
          data.objects := data.objects[p := Obj(p, Mesh, Some(temp), [], o.slots, true, None)];
          data.hidden := data.hidden + {p};
          swaps := swaps + [Swap(n, o.data.value, temp, p)];
        }
      }
      assert data.State() == SwapOne(before, n).0;
      assert swaps == made + if SwapOne(before, n).1.Some? then [SwapOne(before, n).1.value] else [];
      i := i + 1;
    }
    assert names[..i] == names;
  }

  // ---------------------------------------------------------------------------------------
  // The passes on the targets

  /** The outcome of one decimation of a mesh: `(success, faces_after, error_details)` of
      `decimation.decimate_object` and the mesh it leaves. */
  datatype Decimated = Decimated(success: bool, facesAfter: nat, error: string, mesh: MeshData)

  /** What `process_textures_native` does: it raises, leaving the images it had already added
      and the materials as they then were, or it binds scaled copies of images into the
      materials and reports `processed_images` (original to copy), the scaled count, its
      errors and the materials it leaves. */
  datatype TextureOutcome =
    | TexturesRaised(message: string, added: set<string>, left: map<string, MaterialAnalyzer.Material>)
    | TexturesDone(copies: seq<(string, string)>, scaled: nat, errors: seq<string>, materials: map<string, MaterialAnalyzer.Material>)

  /** The code `export_to_web` calls but this module does not model: the cleaning and the
      decimation of one mesh, whether Smart UV Project raises on an object (the rest of
      `auto_unwrap_objects` is the UV unwrap module's), material readiness, texture
      processing, the glTF exporter (None when an image format succeeds, else its error), the
      size of the file it writes and the float formatting of sizes and percentages. */
  datatype Kernels = Kernels(clean: MeshData -> (MeshData, nat), uvRaises: Obj -> bool,
                             decimate: (MeshData, real) -> Decimated, ready: string -> bool,
                             textures: (Blend, nat, seq<string>) -> TextureOutcome, gltf: string -> Option<string>, glbSize: nat,
                             formatMb: nat -> string, formatPercent: (nat, nat) -> string)

  /** The meshes the targets are bound to. */
  function BoundMeshes(b: Blend, targets: seq<string>): set<string> {
    set t | t in targets && t in b.objects && b.objects[t].data.Some? :: b.objects[t].data.value
  }

  /** One target of a pass: its mesh replaced by what `f` makes of it, and `f`'s count added. */
  function MeshStep(b: Blend, acc: (map<string, MeshData>, nat), t: string, f: MeshData -> (MeshData, nat)): (map<string, MeshData>, nat) {
    if t in b.objects && MeshOf(b.objects[t], acc.0).Some? then
      var d := b.objects[t].data.value;
      (acc.0[d := f(acc.0[d]).0], acc.1 + f(acc.0[d]).1)
    else acc
  }

  /** A pass over the targets in order (`clean_materials_batch`): each
      target's mesh is replaced by what `f` makes of it, and the counts `f` reports add up. */
  function MeshPass(b: Blend, targets: seq<string>, f: MeshData -> (MeshData, nat)): (r: (map<string, MeshData>, nat))
    ensures r.0.Keys == b.meshes.Keys
    ensures forall k :: k in b.meshes && k !in BoundMeshes(b, targets) ==> r.0[k] == b.meshes[k]
    decreases |targets|
  {
    if targets == [] then (b.meshes, 0)
    else
      var prefix := targets[..|targets| - 1];
      var t := targets[|targets| - 1];
      assert BoundMeshes(b, prefix) <= BoundMeshes(b, targets);
      assert t in b.objects && b.objects[t].data.Some? ==> b.objects[t].data.value in BoundMeshes(b, targets);
      MeshStep(b, MeshPass(b, prefix, f), t, f)
  }

  lemma MeshPassSnoc(b: Blend, targets: seq<string>, i: nat, f: MeshData -> (MeshData, nat))
    requires i < |targets|
    ensures MeshPass(b, targets[..i + 1], f) == MeshStep(b, MeshPass(b, targets[..i], f), targets[i], f)
  {
    assert targets[..i + 1][..i] == targets[..i];
  }

  /** One target of the pass loop. */
  method MeshOne(data: BlendData, ghost b: Blend, t: string, f: MeshData -> (MeshData, nat), total: nat) returns (total2: nat)
    requires data.objects == b.objects
    modifies data`meshes
    ensures (data.meshes, total2) == MeshStep(b, (old(data.meshes), total), t, f)
  {
    total2 := total;
    if t in data.objects && MeshOf(data.objects[t], data.meshes).Some? {
      var d := data.objects[t].data.value;
      var (m, c) := f(data.meshes[d]);
      data.meshes := data.meshes[d := m];
      total2 := total + c;
    }
  }

  /** The pass loop on the data. */
  method RunMeshPass(data: BlendData, targets: seq<string>, f: MeshData -> (MeshData, nat)) returns (total: nat)
    modifies data
    ensures (data.meshes, total) == MeshPass(old(data.State()), targets, f)
    ensures data.State() == old(data.State()).(meshes := data.meshes)
  {
    total := 0;
    ghost var st := data.State();
    var i := 0;
    while i < |targets|
      invariant 0 <= i <= |targets|
      invariant (data.meshes, total) == MeshPass(st, targets[..i], f)
      invariant data.objects == st.objects && data.hidden == st.hidden
      invariant data.images == st.images && data.materials == st.materials
    {
      MeshPassSnoc(st, targets, i, f);
      total := MeshOne(data, st, targets[i], f, total);
      i := i + 1;
    }
    assert targets[..i] == targets;
  }

  /** `obj_to_target.get(obj)` by source name. */
  function TargetOf(swaps: seq<Swap>, n: string): (r: Option<string>)
    ensures r.Some? ==> exists s :: s in swaps && s.source == n && s.target == r.value
    ensures r.None? ==> n !in Sources(swaps)
    decreases |swaps|
  {
    if swaps == [] then None
    else if swaps[|swaps| - 1].source == n then Some(swaps[|swaps| - 1].target)
    else
      assert forall x :: x in swaps ==> x in swaps[..|swaps| - 1] || x == swaps[|swaps| - 1];
      TargetOf(swaps[..|swaps| - 1], n)
  }

  /** `individual_overrides.get(name, settings.decimate_ratio)`: the ratio of the last entry
      for the object, else the global ratio. */
  function OverrideRatio(name: string, overrides: seq<Properties.DecimateOverride>, global: real): real {
    match LastIndexOfName(seq(|overrides|, k requires 0 <= k < |overrides| => overrides[k].objectName), name)
    case Some(k) => overrides[k].ratio
    case None => global
  }

  /** Only meshes with more than this many faces are decimated. */
  const DecimateMinFaces := 10

  /** `decimated_count`, `total_faces_before`, `total_faces_after` and the warnings. */
  datatype Tally = Tally(count: nat, before: nat, after: nat, warnings: seq<string>)

  /** The mesh the source's target is bound to, when it has more than ten faces. */
  function Decimable(objects: map<string, Obj>, meshes: map<string, MeshData>, swaps: seq<Swap>, n: string): Option<string> {
    match TargetOf(swaps, n)
    case None => None
    case Some(t) =>
      if t in objects && MeshOf(objects[t], meshes).Some? && |meshes[objects[t].data.value].faceMaterials| > DecimateMinFaces
      then Some(objects[t].data.value) else None
  }

  /** `[obj_to_target[obj] for obj in source_mesh_objects if obj in obj_to_target]`. */
  function TargetNames(swaps: seq<Swap>): (r: seq<string>)
    ensures |r| == |swaps| && forall j :: 0 <= j < |swaps| ==> r[j] == swaps[j].target
  {
    seq(|swaps|, j requires 0 <= j < |swaps| => swaps[j].target)
  }

  /** One source of the decimation loop. */
  function DecimateStep(objects: map<string, Obj>, acc: (map<string, MeshData>, Tally), swaps: seq<Swap>, n: string,
                        overrides: seq<Properties.DecimateOverride>, global: real, k: Kernels): (map<string, MeshData>, Tally) {
    var (meshes, t) := acc;
    match Decimable(objects, meshes, swaps, n)
    case None => acc
    case Some(d) =>
      var faces := |meshes[d].faceMaterials|;
      var out := k.decimate(meshes[d], OverrideRatio(n, overrides, global));
      (meshes[d := out.mesh],
       if out.success then t.(count := t.count + 1, before := t.before + faces, after := t.after + out.facesAfter)
       else t.(before := t.before + faces, warnings := t.warnings + if out.error != "" then [n + ": " + out.error] else []))
  }

  /** The decimation loop over the sources in name order. */
  function DecimatePass(b: Blend, names: seq<string>, swaps: seq<Swap>, overrides: seq<Properties.DecimateOverride>,
                        global: real, k: Kernels): (r: (map<string, MeshData>, Tally))
    ensures r.0.Keys == b.meshes.Keys
    decreases |names|
  {
    if names == [] then (b.meshes, Tally(0, 0, 0, []))
    else DecimateStep(b.objects, DecimatePass(b, names[..|names| - 1], swaps, overrides, global, k), swaps, names[|names| - 1], overrides, global, k)
  }

  /** Only the meshes of targets change, every decimated object had more than ten faces, and
      each warning names a source. */
  lemma {:induction false} DecimatePassFacts(b: Blend, names: seq<string>, swaps: seq<Swap>, overrides: seq<Properties.DecimateOverride>,
                                             global: real, k: Kernels)
    ensures var r := DecimatePass(b, names, swaps, overrides, global, k);
            && (forall d :: d in b.meshes && d !in BoundMeshes(b, TargetNames(swaps)) ==> r.0[d] == b.meshes[d])
            && r.1.count <= |names|
            && r.1.before >= (DecimateMinFaces + 1) * r.1.count
            && (forall w :: w in r.1.warnings ==> exists n :: n in names && StartsWith(w, n + ": "))
    decreases |names|
  {
    if names != [] {
      var n := names[|names| - 1];
      DecimatePassFacts(b, names[..|names| - 1], swaps, overrides, global, k);
      var acc := DecimatePass(b, names[..|names| - 1], swaps, overrides, global, k);
      assert forall x :: x in names[..|names| - 1] ==> x in names;
      var d := Decimable(b.objects, acc.0, swaps, n);
      if d.Some? {
        var s :| s in swaps && s.source == n && s.target == TargetOf(swaps, n).value;
        var j :| 0 <= j < |swaps| && swaps[j] == s;
        assert TargetNames(swaps)[j] == s.target;
        assert d.value in BoundMeshes(b, TargetNames(swaps));
      }
      assert forall e :: StartsWith(n + ": " + e, n + ": ");
    }
  }

  lemma DecimatePassSnoc(b: Blend, names: seq<string>, swaps: seq<Swap>, overrides: seq<Properties.DecimateOverride>,
                         global: real, k: Kernels, i: nat)
    requires i < |names|
    ensures DecimatePass(b, names[..i + 1], swaps, overrides, global, k)
            == DecimateStep(b.objects, DecimatePass(b, names[..i], swaps, overrides, global, k), swaps, names[i], overrides, global, k)
  {
    assert names[..i + 1][..i] == names[..i];
  }

  /** The target a source's decimation unhides: `decimate_with_modifier` clears `hide_viewport`
      before it applies the modifier and sets it again only when applying succeeded. */
  function DecimateFailed(objects: map<string, Obj>, meshes: map<string, MeshData>, swaps: seq<Swap>, n: string,
                          overrides: seq<Properties.DecimateOverride>, global: real, k: Kernels): set<string> {
    match Decimable(objects, meshes, swaps, n)
    case None => {}
    case Some(d) => if k.decimate(meshes[d], OverrideRatio(n, overrides, global)).success then {} else {TargetOf(swaps, n).value}
  }

  /** The targets the decimation loop leaves visible. */
  function DecimateFailures(b: Blend, names: seq<string>, swaps: seq<Swap>, overrides: seq<Properties.DecimateOverride>,
                            global: real, k: Kernels): set<string>
    decreases |names|
  {
    if names == [] then {}
    else
      var prefix := names[..|names| - 1];
      DecimateFailures(b, prefix, swaps, overrides, global, k)
      + DecimateFailed(b.objects, DecimatePass(b, prefix, swaps, overrides, global, k).0, swaps, names[|names| - 1], overrides, global, k)
  }

  /** Only targets are unhidden, and none when every decimation succeeds. */
  lemma {:induction false} DecimateFailuresFacts(b: Blend, names: seq<string>, swaps: seq<Swap>,
                                                 overrides: seq<Properties.DecimateOverride>, global: real, k: Kernels)
    ensures DecimateFailures(b, names, swaps, overrides, global, k) <= Targets(swaps)
    ensures (forall m, r :: k.decimate(m, r).success) ==> DecimateFailures(b, names, swaps, overrides, global, k) == {}
    decreases |names|
  {
    if names != [] {
      DecimateFailuresFacts(b, names[..|names| - 1], swaps, overrides, global, k);
      var n := names[|names| - 1];
      if TargetOf(swaps, n).Some? {
        var s :| s in swaps && s.source == n && s.target == TargetOf(swaps, n).value;
        assert s.target in Targets(swaps);
      }
    }
  }

  lemma DecimateFailuresSnoc(b: Blend, names: seq<string>, swaps: seq<Swap>, overrides: seq<Properties.DecimateOverride>,
                             global: real, k: Kernels, i: nat)
    requires i < |names|
    ensures DecimateFailures(b, names[..i + 1], swaps, overrides, global, k)
            == DecimateFailures(b, names[..i], swaps, overrides, global, k)
               + DecimateFailed(b.objects, DecimatePass(b, names[..i], swaps, overrides, global, k).0, swaps, names[i], overrides, global, k)
  {
    assert names[..i + 1][..i] == names[..i];
  }

  /** One source of the decimation loop on the data. */
  method DecimateOne(data: BlendData, tally: Tally, swaps: seq<Swap>, n: string,
                     overrides: seq<Properties.DecimateOverride>, global: real, k: Kernels) returns (next: Tally)
    modifies data
    ensures (data.meshes, next) == DecimateStep(old(data.objects), (old(data.meshes), tally), swaps, n, overrides, global, k)
    ensures data.hidden == old(data.hidden) - DecimateFailed(old(data.objects), old(data.meshes), swaps, n, overrides, global, k)
    ensures data.State() == old(data.State()).(meshes := data.meshes, hidden := data.hidden)
  {
    next := tally;
    var target := TargetOf(swaps, n);
    if target.Some? {
      var t := target.value;
      if t in data.objects && MeshOf(data.objects[t], data.meshes).Some? {
        var d := data.objects[t].data.value;
        var faces := |data.meshes[d].faceMaterials|;
        if faces > DecimateMinFaces {
          assert Decimable(data.objects, data.meshes, swaps, n) == Some(d);
          var out := k.decimate(data.meshes[d], OverrideRatio(n, overrides, global));
          data.meshes := data.meshes[d := out.mesh];
          if out.success {
            next := next.(count := next.count + 1, before := next.before + faces, after := next.after + out.facesAfter);
          } else {
            data.hidden := data.hidden - {t};
            next := next.(before := next.before + faces);
            if out.error != "" {
              next := next.(warnings := next.warnings + [n + ": " + out.error]);
            }
          }
          assert data.meshes == DecimateStep(old(data.objects), (old(data.meshes), tally), swaps, n, overrides, global, k).0;
          assert next == DecimateStep(old(data.objects), (old(data.meshes), tally), swaps, n, overrides, global, k).1;
        } else {
          assert Decimable(data.objects, data.meshes, swaps, n) == None;
        }
      }
    }
  }

  /** The decimation loop on the data. */
  method DecimateTargets(data: BlendData, names: seq<string>, swaps: seq<Swap>, overrides: seq<Properties.DecimateOverride>,
                         global: real, k: Kernels) returns (tally: Tally)
    modifies data
    ensures (data.meshes, tally) == DecimatePass(old(data.State()), names, swaps, overrides, global, k)
    ensures data.hidden == old(data.hidden) - DecimateFailures(old(data.State()), names, swaps, overrides, global, k)
    ensures data.State() == old(data.State()).(meshes := data.meshes, hidden := data.hidden)
  {
    tally := Tally(0, 0, 0, []);
    ghost var st := data.State();
    var i := 0;
    while i < |names|
      invariant 0 <= i <= |names|
      invariant (data.meshes, tally) == DecimatePass(st, names[..i], swaps, overrides, global, k)
      invariant data.hidden == st.hidden - DecimateFailures(st, names[..i], swaps, overrides, global, k)
      invariant data.State() == st.(meshes := data.meshes, hidden := data.hidden)
    {
      DecimatePassSnoc(st, names, swaps, overrides, global, k, i);
      DecimateFailuresSnoc(st, names, swaps, overrides, global, k, i);
      tally := DecimateOne(data, tally, swaps, names[i], overrides, global, k);
      i := i + 1;
    }
    assert names[..i] == names;
  }

  // ---------------------------------------------------------------------------------------
  // The summary parts of the passes

  /** "Subdiv Override: Level N" once some modifier was lowered. */
  function SubdivInfo(records: seq<SubdivRecord>, level: int): seq<string> {
    if records != [] then ["Subdiv Override: Level " + IntToString(level)] else []
  }

  /** A count reported only when it is positive. */
  function CountInfo(n: nat, lead: string, trail: string): seq<string> {
    if n > 0 then [lead + NatToString(n) + trail] else []
  }

  /** The decimation summary, with the reduction when faces were counted. */
  function DecimationInfo(count: nat, before: nat, after: nat, formatPercent: (nat, nat) -> string): seq<string> {
    if count == 0 then []
    else if before > 0 then ["Decimated " + NatToString(count) + " objects (" + formatPercent(before, after) + "% reduction)"]
    else ["Decimated " + NatToString(count) + " objects"]
  }

  /** The bare "Decimated N objects" is never produced by the decimation loop: every object it
      counts had more than ten faces, so the reduction is always shown. */
  lemma DecimationShowsReduction(b: Blend, names: seq<string>, swaps: seq<Swap>, overrides: seq<Properties.DecimateOverride>,
                                 global: real, k: Kernels)
    ensures var t := DecimatePass(b, names, swaps, overrides, global, k).1;
            t.count > 0 ==>
              DecimationInfo(t.count, t.before, t.after, k.formatPercent)
              == ["Decimated " + NatToString(t.count) + " objects (" + k.formatPercent(t.before, t.after) + "% reduction)"]
  {
    DecimatePassFacts(b, names, swaps, overrides, global, k);
  }

  /** The names left by an exclusion list, in order. */
  function Kept(names: seq<string>, excluded: seq<string>): (r: seq<string>)
    ensures forall n :: n in r <==> n in names && !Excluded(n, excluded)
    ensures |r| <= |names|
    decreases |names|
  {
    if names == [] then []
    else
      var n := names[|names| - 1];
      assert forall x :: x in names <==> x in names[..|names| - 1] || x == n;
      Kept(names[..|names| - 1], excluded) + (if Excluded(n, excluded) then [] else [n])
  }

  /** The entries of a name list with a non-empty name. */
  function NamedEntries(names: seq<string>): (r: seq<string>)
    ensures forall n :: n in r <==> n in names && n != ""
    decreases |names|
  {
    if names == [] then []
    else
      var n := names[|names| - 1];
      assert forall x :: x in names <==> x in names[..|names| - 1] || x == n;
      NamedEntries(names[..|names| - 1]) + (if n == "" then [] else [n])
  }

  // ---------------------------------------------------------------------------------------
  // Material analysis

  /** The analysed materials that are not ready, in analysis order. */
  function Unsupported(names: seq<string>, ready: string -> bool): (r: seq<string>)
    ensures forall x :: x in r <==> x in names && !ready(x)
    ensures |r| <= |names|
    decreases |names|
  {
    if names == [] then []
    else
      var n := names[|names| - 1];
      assert forall x :: x in names <==> x in names[..|names| - 1] || x == n;
      Unsupported(names[..|names| - 1], ready) + (if ready(n) then [] else [n])
  }

  /** Analysing an enumeration of the selection's materials reports exactly the materials of the
      selection that are not ready, each once. */
  lemma UnsupportedOfSelection(analysed: seq<string>, selection: seq<Obj>, collections: map<string, seq<Obj>>,
                               ready: string -> bool)
    requires Enumerates(analysed, MaterialAnalyzer.MaterialsToAnalyze(selection, collections))
    ensures forall x :: x in Unsupported(analysed, ready) <==>
              x in MaterialAnalyzer.MaterialsToAnalyze(selection, collections) && !ready(x)
    ensures |Unsupported(analysed, ready)| <= |MaterialAnalyzer.MaterialsToAnalyze(selection, collections)|
  {
    EnumerationSize(analysed, MaterialAnalyzer.MaterialsToAnalyze(selection, collections));
  }

  /** The analysis loop. */
  method AnalyseMaterials(names: seq<string>, ready: string -> bool) returns (unsupported: seq<string>)
    ensures unsupported == Unsupported(names, ready)
  {
    unsupported := [];
    var i := 0;
    while i < |names|
      invariant 0 <= i <= |names|
      invariant unsupported == Unsupported(names[..i], ready)
    {
      assert names[..i + 1][..i] == names[..i];
      if !ready(names[i]) {
        unsupported := unsupported + [names[i]];
      }
      i := i + 1;
    }
    assert names[..i] == names;
  }

  /** The name list of a material message: the first five names and, when there are more,
      "(+N more)" with the number left out. */
  function MaterialList(names: seq<string>): (r: string)
    ensures forall i :: 0 <= i < |names| && i < 5 ==> Contains(r, names[i])
    ensures |names| > 5 ==> EndsWith(r, " (+" + NatToString(|names| - 5) + " more)")
    ensures |names| <= 5 ==> r == Join(", ", names)
  {
    var shown := if |names| > 5 then names[..5] else names;
    var more := if |names| > 5 then " (+" + NatToString(|names| - 5) + " more)" else "";
    assert forall i :: 0 <= i < |names| && i < 5 ==> Contains(Join(", ", shown) + more, names[i]) by {
      forall i | 0 <= i < |names| && i < 5
        ensures Contains(Join(", ", shown) + more, names[i])
      {
        JoinContains(", ", shown, i);
        ContainsConcat("", Join(", ", shown), more, names[i]);
        assert "" + Join(", ", shown) == Join(", ", shown);
      }
    }
    assert shown == names ==> Join(", ", shown) + more == Join(", ", names);
    Join(", ", shown) + more
  }

  /** The export's warning about unsupported materials; nothing when all are ready. */
  function MaterialWarnings(unsupported: seq<string>): seq<string> {
    if unsupported == [] then []
    else [NatToString(|unsupported|) + " unsupported material(s) detected: " + MaterialList(unsupported)
          + ". Check Material Readiness panel."]
  }

  // ---------------------------------------------------------------------------------------
  // Texture optimization

  /** The copy names of `processed_images`. */
  function CopyNames(copies: seq<(string, string)>): set<string> {
    set p | p in copies :: p.1
  }

  /** The first `n` entries. */
  function Take(s: seq<string>, n: nat): (r: seq<string>)
    ensures |r| <= n && r <= s
  {
    if |s| <= n then s else s[..n]
  }

  /** What the texture step contributes: the data it leaves, the (original, copy) pairs to
      undo, the summary parts and the warnings. */
  datatype TextureStep = TextureStep(blend: Blend, copies: seq<(string, string)>, info: seq<string>, warnings: seq<string>)

  /** The texture step: skipped when disabled; a raise becomes one warning and leaves nothing
      to undo; otherwise the copies are kept for the teardown, the scaled count is reported
      and at most three errors are warned about. */
  function OptimizeTextures(b: Blend, enabled: bool, size: nat, excluded: seq<string>, k: Kernels): (r: TextureStep)
    ensures !enabled ==> r == TextureStep(b, [], [], [])
    ensures r.blend.objects == b.objects && r.blend.meshes == b.meshes && r.blend.hidden == b.hidden
    ensures b.images <= r.blend.images
    ensures forall p :: p in r.copies ==> p.1 in r.blend.images
    ensures |r.warnings| <= 3
    ensures enabled && k.textures(b, size, NamedEntries(excluded)).TexturesRaised? ==>
              r.copies == [] && r.info == [] && r.warnings == ["Texture processing error: " + k.textures(b, size, NamedEntries(excluded)).message]
  {
    if !enabled then TextureStep(b, [], [], [])
    else
      match k.textures(b, size, NamedEntries(excluded))
      case TexturesRaised(message, added, left) =>
        TextureStep(b.(images := b.images + added, materials := left), [], [], ["Texture processing error: " + message])
      case TexturesDone(copies, scaled, errors, materials) =>
        TextureStep(b.(images := b.images + CopyNames(copies), materials := materials), copies,
                    if scaled > 0 then ["Scaled " + NatToString(scaled) + " texture(s) to " + NatToString(size) + "px (Native)",
                                        "WebP export by glTF exporter"] else [],
                    Take(errors, 3))
  }

  // ---------------------------------------------------------------------------------------
  // The export selection

  /** The names selected for the export: the original selection in order, without the
      instance sources and without names no longer in `bpy.data.objects`. */
  function ExportSelection(selection: seq<Obj>, instanceSources: set<Obj>, objects: set<string>): (r: seq<string>)
    ensures |r| <= |selection|
    decreases |selection|
  {
    if selection == [] then []
    else
      var o := selection[|selection| - 1];
      ExportSelection(selection[..|selection| - 1], instanceSources, objects) + (if o !in instanceSources && o.name in objects then [o.name] else [])
  }

  /** The export selects exactly the selected objects that are not instance sources and still
      exist, by name. */
  lemma {:induction false} ExportSelectionFacts(selection: seq<Obj>, instanceSources: set<Obj>, objects: set<string>)
    ensures var r := ExportSelection(selection, instanceSources, objects);
            && (forall n :: n in r ==> n in objects)
            && (forall o :: o in selection && o !in instanceSources && o.name in objects ==> o.name in r)
            && (forall n :: n in r ==> exists o :: o in selection && o !in instanceSources && o.name == n)
    decreases |selection|
  {
    if selection != [] {
      var prefix := selection[..|selection| - 1];
      ExportSelectionFacts(prefix, instanceSources, objects);
      assert selection == prefix + [selection[|selection| - 1]];
      assert forall x :: x in prefix ==> x in selection;
    }
  }

  lemma ExportSelectionSnoc(selection: seq<Obj>, i: nat, instanceSources: set<Obj>, objects: set<string>)
    requires i < |selection|
    ensures ExportSelection(selection[..i + 1], instanceSources, objects)
         == ExportSelection(selection[..i], instanceSources, objects)
            + (if selection[i] !in instanceSources && selection[i].name in objects then [selection[i].name] else [])
  {
    assert selection[..i + 1][..i] == selection[..i];
  }

  /** Deselect everything, select the export selection and make its first name active. */
  method SelectForExport(view: ViewState, selection: seq<Obj>, instanceSources: set<Obj>, objects: set<string>)
    modifies view
    ensures view.selected == ExportSelection(selection, instanceSources, objects)
    ensures view.active == if view.selected != [] then Some(view.selected[0]) else old(view.active)
  {
    var selected := [];
    var i := 0;
    while i < |selection|
      invariant 0 <= i <= |selection|
      invariant selected == ExportSelection(selection[..i], instanceSources, objects)
      invariant unchanged(view)
    {
      ExportSelectionSnoc(selection, i, instanceSources, objects);
      var o := selection[i];
      if o !in instanceSources && o.name in objects {
        selected := selected + [o.name];
      }
      i := i + 1;
    }
    assert selection[..i] == selection;
    view.selected := selected;
    if selected != [] {
      view.active := Some(selected[0]);
    }
  }

  // ---------------------------------------------------------------------------------------
  // GLB export

  /** The compression part of the summary. */
  function DracoInfo(useDraco: bool, level: int): string {
    if useDraco then "Draco Level " + IntToString(level) else "Uncompressed"
  }

  const WebpFallbackWarning := "Some textures couldn't convert to WebP - exported with AUTO format"
  const OriginalFormatsWarning := "Export completed with original texture formats (conversion failed)"

  /** The image formats the exporter was run with, in order, and the warnings of the fallback. */
  datatype Glb = Glb(attempts: seq<string>, warnings: seq<string>)

  /** The call of the glTF exporter with image format WEBP, then AUTO, then NONE: each later
      attempt is made only when the earlier one raised, the export fails only when all three
      raised, and then with the last error. */
  function ExportGlb(gltf: string -> Option<string>): (r: Result<Glb>)
    ensures r.Err? <==> gltf("WEBP").Some? && gltf("AUTO").Some? && gltf("NONE").Some?
    ensures r.Err? ==> r.error == "GLB export failed: " + gltf("NONE").value
    ensures r.Ok? ==> var a := r.value.attempts;
                      && 1 <= |a| <= 3 && a == ["WEBP", "AUTO", "NONE"][..|a|]
                      && gltf(a[|a| - 1]).None?
                      && (forall j :: 0 <= j < |a| - 1 ==> gltf(a[j]).Some?)
                      && (r.value.warnings == [] <==> |a| == 1)
  {
    if gltf("WEBP").None? then Ok(Glb(["WEBP"], []))
    else if gltf("AUTO").None? then Ok(Glb(["WEBP", "AUTO"], [WebpFallbackWarning]))
    else if gltf("NONE").None? then Ok(Glb(["WEBP", "AUTO", "NONE"], [OriginalFormatsWarning]))
    else Err("GLB export failed: " + gltf("NONE").value)
  }

  /** The summary appended to the final report: the parts in parentheses, or nothing. */
  function InfoString(parts: seq<string>): string {
    if parts != [] then " (" + Join(", ", parts) + ")" else ""
  }

  // ---------------------------------------------------------------------------------------
  // Teardown

  /** The objects of the named selection that exist. */
  function SelectedObjects(objects: map<string, Obj>, names: seq<string>): (r: seq<Obj>)
    ensures forall o :: o in r ==> exists n :: n in names && n in objects && objects[n] == o
    decreases |names|
  {
    if names == [] then []
    else
      var n := names[|names| - 1];
      SelectedObjects(objects, names[..|names| - 1]) + (if n in objects then [objects[n]] else [])
  }

  /** Putting one original image back: only when both images still exist, the copy is
      replaced by the original in the target materials and then removed. */
  function RestoreTextureStep(b: Blend, p: (string, string), targets: set<string>): Blend {
    if p.0 in b.images && p.1 in b.images
    then b.(materials := Images.RepointMap(b.materials, targets, p.1, p.0), images := b.images - {p.1})
    else b
  }

  /** The texture restore loop over `processed_images` in order. */
  function RestoreTextures(b: Blend, copies: seq<(string, string)>, targets: set<string>): (r: Blend)
    ensures r.objects == b.objects && r.meshes == b.meshes && r.hidden == b.hidden
    ensures r.images <= b.images && r.materials.Keys == b.materials.Keys
    decreases |copies|
  {
    if copies == [] then b
    else RestoreTextureStep(RestoreTextures(b, copies[..|copies| - 1], targets), copies[|copies| - 1], targets)
  }

  /** With no name both an original and a copy, the restore removes exactly the copies whose
      original still exists, keeps every other image, and leaves the materials outside the
      targets alone. */
  lemma {:induction false} RestoreTexturesRemovesCopies(b: Blend, copies: seq<(string, string)>, targets: set<string>)
    requires forall p, q :: p in copies && q in copies ==> p.0 != q.1
    ensures var r := RestoreTextures(b, copies, targets);
            && (forall x :: x in r.images <==> x in b.images && !(exists p :: p in copies && p.1 == x && p.0 in b.images))
            && (forall m :: m in b.materials && m !in targets ==> r.materials[m] == b.materials[m])
    decreases |copies|
  {
    if copies != [] {
      var prefix := copies[..|copies| - 1];
      var p := copies[|copies| - 1];
      assert forall q :: q in copies <==> q in prefix || q == p;
      RestoreTexturesRemovesCopies(b, prefix, targets);
      var mid := RestoreTextures(b, prefix, targets);
      assert p.0 in mid.images <==> p.0 in b.images;
    }
  }

  /** The restore loop on the data. */
  method RestoreTextureCopies(data: BlendData, copies: seq<(string, string)>, targets: set<string>)
    modifies data
    ensures data.State() == RestoreTextures(old(data.State()), copies, targets)
  {
    var i := 0;
    while i < |copies|
      invariant 0 <= i <= |copies|
      invariant data.State() == RestoreTextures(old(data.State()), copies[..i], targets)
    {
      assert copies[..i + 1][..i] == copies[..i];
      var p := copies[i];
      if p.0 in data.images && p.1 in data.images {
        data.materials := Images.RepointMap(data.materials, targets, p.1, p.0);
        data.images := data.images - {p.1};
      }
      i := i + 1;
    }
    assert copies[..i] == copies;
  }

  /** Rebinding one source: only when the source object and its original mesh still exist. */
  function RebindStep(b: Blend, s: Swap): Blend {
    if s.source in b.objects && s.original in b.meshes
    then b.(objects := b.objects[s.source := b.objects[s.source].(data := Some(s.original))])
    else b
  }

  /** The rebinding loop over the swaps in order. */
  function Rebind(b: Blend, swaps: seq<Swap>): (r: Blend)
    ensures r.objects.Keys == b.objects.Keys && r.meshes == b.meshes && r.hidden == b.hidden
    ensures r.images == b.images && r.materials == b.materials
    decreases |swaps|
  {
    if swaps == [] then b else RebindStep(Rebind(b, swaps[..|swaps| - 1]), swaps[|swaps| - 1])
  }

  /** Each source whose object and original mesh exist is bound to its original mesh again and
      is otherwise as it was; every other object is left alone. */
  lemma {:induction false} RebindRestores(b: Blend, swaps: seq<Swap>)
    requires DistinctSources(swaps)
    ensures forall s :: s in swaps && s.source in b.objects && s.original in b.meshes ==>
              Rebind(b, swaps).objects[s.source] == b.objects[s.source].(data := Some(s.original))
    ensures forall k :: k in b.objects && k !in Sources(swaps) ==> Rebind(b, swaps).objects[k] == b.objects[k]
    decreases |swaps|
  {
    if swaps != [] {
      var prefix := swaps[..|swaps| - 1];
      var s := swaps[|swaps| - 1];
      assert forall q :: q in swaps <==> q in prefix || q == s;
      assert forall q :: q in prefix ==> q.source != s.source by {
        forall q | q in prefix ensures q.source != s.source {
          var j :| 0 <= j < |prefix| && prefix[j] == q;
          assert swaps[j] == q;
        }
      }
      assert Sources(swaps) == Sources(prefix) + {s.source};
      RebindRestores(b, prefix);
    }
  }

  /** The rebinding loop on the data. */
  method RebindOriginals(data: BlendData, swaps: seq<Swap>)
    modifies data
    ensures data.State() == Rebind(old(data.State()), swaps)
  {
    var i := 0;
    while i < |swaps|
      invariant 0 <= i <= |swaps|
      invariant data.State() == Rebind(old(data.State()), swaps[..i])
    {
      assert swaps[..i + 1][..i] == swaps[..i];
      var s := swaps[i];
      if s.source in data.objects && s.original in data.meshes {
        data.objects := data.objects[s.source := data.objects[s.source].(data := Some(s.original))];
      }
      i := i + 1;
    }
    assert swaps[..i] == swaps;
  }

  // ---------------------------------------------------------------------------------------
  // Deferred cleanup

  /** A mesh with zero users: no object is bound to it. */
  predicate Unused(objects: map<string, Obj>, m: string) {
    forall k :: k in objects ==> objects[k].data != Some(m)
  }

  function NameSet(names: seq<string>): set<string> {
    set n | n in names
  }

  /** The first loop of `deferred_cleanup`: the proxies that still exist are removed. */
  function WithoutProxies(b: Blend, proxies: seq<string>): Blend {
    b.(objects := b.objects - NameSet(proxies), hidden := b.hidden - NameSet(proxies))
  }

  /** The second loop: each temporary mesh that still exists and has zero users is removed. */
  function WithoutUnusedTemps(b: Blend, temps: seq<string>): Blend {
    b.(meshes := b.meshes - set m | m in b.meshes && m in temps && Unused(b.objects, m))
  }

  /** The orphan sweep: every remaining mesh named "TEMP_DATA_..." with zero users is removed. */
  function WithoutOrphans(b: Blend): Blend {
    b.(meshes := b.meshes - set m | m in b.meshes && StartsWith(m, TempDataPrefix) && Unused(b.objects, m))
  }

  /** What `deferred_cleanup` leaves: with the proxies gone, no mesh that is still bound is
      removed, and no temporary mesh and no "TEMP_DATA_" mesh with zero users remains. */
  function Cleaned(b: Blend, proxies: seq<string>, temps: seq<string>): (r: Blend)
    ensures r.objects.Keys == b.objects.Keys - NameSet(proxies)
    ensures forall k :: k in r.objects ==> r.objects[k] == b.objects[k]
    ensures forall m :: m in b.meshes && !Unused(r.objects, m) ==> m in r.meshes && r.meshes[m] == b.meshes[m]
    ensures forall m :: m in r.meshes ==> m in b.meshes && r.meshes[m] == b.meshes[m]
    ensures forall m :: m in r.meshes && (m in temps || StartsWith(m, TempDataPrefix)) ==> !Unused(r.objects, m)
    ensures r.images == b.images && r.materials == b.materials
  {
    WithoutOrphans(WithoutUnusedTemps(WithoutProxies(b, proxies), temps))
  }

  /** Bound meshes survive the cleanup, so every object keeps its mesh. */
  lemma CleanedWellBound(b: Blend, proxies: seq<string>, temps: seq<string>)
    requires WellBound(b)
    ensures WellBound(Cleaned(b, proxies, temps))
  {
    var r := Cleaned(b, proxies, temps);
    forall k | k in r.objects && r.objects[k].data.Some?
      ensures r.objects[k].data.value in r.meshes
    {
      assert !Unused(r.objects, r.objects[k].data.value);
    }
  }

  /** The proxy loop on the data. */
  method RemoveProxies(data: BlendData, proxies: seq<string>)
    modifies data
    ensures data.State() == WithoutProxies(old(data.State()), proxies)
  {
    ghost var b := data.State();
    var i := 0;
    while i < |proxies|
      invariant 0 <= i <= |proxies|
      invariant data.State() == WithoutProxies(b, proxies[..i])
    {
      assert NameSet(proxies[..i + 1]) == NameSet(proxies[..i]) + {proxies[i]} by {
        assert forall x :: x in proxies[..i + 1] <==> x in proxies[..i] || x == proxies[i];
      }
      if proxies[i] in data.objects {
        data.objects := data.objects - {proxies[i]};
      }
      data.hidden := data.hidden - {proxies[i]};
      i := i + 1;
    }
    assert proxies[..i] == proxies;
  }

  /** The temporary-mesh loop on the data; removing a mesh changes no binding, so whether a
      later mesh is unused does not depend on the order. */
  method RemoveUnusedTemps(data: BlendData, temps: seq<string>)
    modifies data
    ensures data.State() == WithoutUnusedTemps(old(data.State()), temps)
  {
    ghost var b := data.State();
    ghost var gone: set<string> := {};
    var i := 0;
    while i < |temps|
      invariant 0 <= i <= |temps|
      invariant gone == set m | m in b.meshes && m in temps[..i] && Unused(b.objects, m)
      invariant data.State() == b.(meshes := b.meshes - gone)
    {
      assert forall x :: x in temps[..i + 1] <==> x in temps[..i] || x == temps[i];
      var t := temps[i];
      if t in data.meshes && Unused(data.objects, t) {
        data.meshes := data.meshes - {t};
        gone := gone + {t};
      }
      i := i + 1;
    }
    assert temps[..i] == temps;
  }

  /** The orphan sweep on the data: the names are collected first, then removed. */
  method RemoveOrphans(data: BlendData)
    modifies data
    ensures data.State() == WithoutOrphans(old(data.State()))
  {
    ghost var b := data.State();
    var orphaned := set m | m in data.meshes && StartsWith(m, TempDataPrefix) && Unused(data.objects, m);
    var rest := orphaned;
    while rest != {}
      invariant rest <= orphaned
      invariant data.State() == b.(meshes := b.meshes - (orphaned - rest))
      decreases |rest|
    {
      var m :| m in rest;
      data.meshes := data.meshes - {m};
      rest := rest - {m};
    }
  }

  /** `deferred_cleanup` on the data; it returns None, so the timer does not repeat. */
  method DeferredCleanup(data: BlendData, proxies: seq<string>, temps: seq<string>) returns (again: Option<real>)
    modifies data
    ensures data.State() == Cleaned(old(data.State()), proxies, temps)
    ensures again == None
  {
    RemoveProxies(data, proxies);
    RemoveUnusedTemps(data, temps);
    RemoveOrphans(data);
    again := None;
  }

  // ---------------------------------------------------------------------------------------
  // The staged export

  /** The settings the export reads, as they are when it starts. */
  datatype Options = Options(subdiv: bool, subdivLevel: int, subdivExcluded: seq<string>,
                             subdivOverrides: seq<Properties.SubdivOverride>, autoUv: bool, decimation: bool,
                             decimateRatio: real, decimateExcluded: seq<string>,
                             decimateOverrides: seq<Properties.DecimateOverride>, textures: bool, textureSize: nat,
                             textureExcluded: seq<string>, draco: bool, dracoLevel: int)

  function OptionsOf(s: Properties.ExportSettings): Options
    reads s
  {
    Options(s.enableSubdivOverride, s.subdivOverrideLevel, s.subdivExcludeObjects, s.subdivIndividualOverrides,
            s.enableAutoUv, s.enableDecimation, s.decimateRatio, s.decimateExcludeObjects,
            s.decimateIndividualOverrides, s.enableTextureOptimization, s.textureMaxSize,
            s.textureExcludeMaterials, s.useDraco, s.dracoCompressionLevel)
  }

  /** The state the stages thread along: the data, what the teardown will undo
      (`subdiv_original_levels`, `data_swap_map`, `texture_scaled_copies`), the summary parts
      and the warnings reported so far. */
  datatype Prepared = Prepared(blend: Blend, records: seq<SubdivRecord>, swaps: seq<Swap>,
                               copies: seq<(string, string)>, info: seq<string>, warnings: seq<string>)

  /** Stage 2, the subdivision override, when enabled. */
  function SubdivStage(o: Options, b: Blend, sources: seq<string>): Prepared {
    if o.subdiv then
      var (objects, records) := SubdivPass(b.objects, sources, o.subdivExcluded, o.subdivOverrides, o.subdivLevel);
      Prepared(b.(objects := objects), records, [], [], SubdivInfo(records, o.subdivLevel), [])
    else Prepared(b, [], [], [], [], [])
  }

  /** Stage 3, the data swap of every source. */
  function SwapStage(p: Prepared, sources: seq<string>): Prepared {
    var (b, swaps) := SwapAll(p.blend, sources);
    p.(blend := b, swaps := swaps)
  }

  /** Stage 4, the material cleaning of the targets. */
  function CleanStage(p: Prepared, sources: seq<string>, k: Kernels): Prepared {
    var targets := TargetNames(p.swaps);
    if sources != [] && targets != [] then
      var (meshes, removed) := MeshPass(p.blend, targets, k.clean);
      p.(blend := p.blend.(meshes := meshes), info := p.info + CountInfo(removed, "Removed ", " unused materials"))
    else p
  }

  /** Stage 5, `auto_unwrap_objects` on the targets, when enabled: a target without a UV map
      gets one, and one on which Smart UV Project raised is left visible. The selection it
      leaves is not kept, since stage 9 selects the export selection afresh. */
  function UvStage(o: Options, p: Prepared, sources: seq<string>, k: Kernels): Prepared {
    var targets := TargetNames(p.swaps);
    if o.autoUv && sources != [] && targets != [] then
      var (stats, st) := UvUnwrap.AutoUnwrap(SelectedObjects(p.blend.objects, targets),
                                            UvUnwrap.UnwrapState([], None, p.blend.hidden, p.blend.meshes),
                                            p.blend.objects.Keys, k.uvRaises);
      p.(blend := p.blend.(meshes := st.meshes, hidden := st.hidden),
         info := p.info + CountInfo(stats.unwrapped, "UV unwrapped ", " objects"))
    else p
  }

  /** Stage 6, the decimation of the non-excluded sources in name order, when enabled; a
      target whose decimation failed is left visible. */
  function DecimateStage(o: Options, p: Prepared, sources: seq<string>, k: Kernels): Prepared {
    if o.decimation && sources != [] then
      var names := SortNames(Kept(sources, o.decimateExcluded));
      if names != [] then
        var (meshes, t) := DecimatePass(p.blend, names, p.swaps, o.decimateOverrides, o.decimateRatio, k);
        var shown := DecimateFailures(p.blend, names, p.swaps, o.decimateOverrides, o.decimateRatio, k);
        p.(blend := p.blend.(meshes := meshes, hidden := p.blend.hidden - shown), info := p.info + DecimationInfo(t.count, t.before, t.after, k.formatPercent),
           warnings := p.warnings + t.warnings)
      else p
    else p
  }

  /** Stage 7, the material analysis: a warning, never a stop. */
  function MaterialStage(p: Prepared, analysed: seq<string>, k: Kernels): Prepared {
    p.(warnings := p.warnings + MaterialWarnings(Unsupported(analysed, k.ready)))
  }

  /** Stage 8, the texture optimization. */
  function TextureStage(o: Options, p: Prepared, k: Kernels): Prepared {
    var t := OptimizeTextures(p.blend, o.textures, o.textureSize, o.textureExcluded, k);
    p.(blend := t.blend, copies := t.copies, info := p.info + t.info, warnings := p.warnings + t.warnings)
  }

  /** Stages 2 to 8 in order. */
  function Prepare(o: Options, b: Blend, sources: seq<string>, analysed: seq<string>, k: Kernels): Prepared {
    var p3 := SwapStage(SubdivStage(o, b, sources), sources);
    var p5 := UvStage(o, CleanStage(p3, sources, k), sources, k);
    TextureStage(o, MaterialStage(DecimateStage(o, p5, sources, k), analysed, k), k)
  }

  /** The teardown of the success path, in order: subdivision levels, then textures (in the
      materials of the export selection), then the mesh bindings. */
  function Teardown(p: Prepared, selected: seq<string>, collections: map<string, seq<Obj>>): Blend {
    var b1 := p.blend.(objects := RestoreSubdiv(p.blend.objects, p.records));
    var targets := MaterialAnalyzer.MaterialsToAnalyze(SelectedObjects(b1.objects, selected), collections);
    Rebind(RestoreTextures(b1, p.copies, targets), p.swaps)
  }

  datatype ReportKind = Info | Warning | Error
  datatype Report = Report(kind: ReportKind, message: string)

  function Warnings(ws: seq<string>): (r: seq<Report>)
    ensures |r| == |ws| && forall i :: 0 <= i < |ws| ==> r[i] == Report(Warning, ws[i])
  {
    seq(|ws|, i requires 0 <= i < |ws| => Report(Warning, ws[i]))
  }

  datatype Outcome = Finished | Cancelled

  /** A whole run: the outcome, the data it leaves, the reports, the last status text, the
      timers it registers in order and the selection it leaves. */
  datatype Run = Run(outcome: Outcome, blend: Blend, reports: seq<Report>, status: string, timers: seq<Timer>,
                     selected: seq<string>, active: Option<string>)

  /** `export_to_web` from the sources onward. On success the summary is reported, the status
      cleared after 3 s, the teardown done and the cleanup scheduled at 0.1 s, and leaving
      `preserve_blender_state` schedules the selection restore at 0.2 s. On failure the
      restore is scheduled on the way out, the error is reported, the status is cleared after
      5 s, and nothing is undone. */
  function ExportRun(o: Options, b: Blend, sources: seq<string>, instanceSources: set<Obj>, selection: seq<Obj>,
                     saved: ContextManagers.Saved, analysed: seq<string>, collections: map<string, seq<Obj>>,
                     k: Kernels): Run
  {
    Complete(o, Prepare(o, b, sources, analysed, k), instanceSources, selection, saved, collections, k)
  }

  /** The run after stage 8: the export selection, the GLB export and what follows it. */
  function Complete(o: Options, p: Prepared, instanceSources: set<Obj>, selection: seq<Obj>, saved: ContextManagers.Saved,
                    collections: map<string, seq<Obj>>, k: Kernels): Run
  {
    var selected := ExportSelection(selection, instanceSources, p.blend.objects.Keys);
    var active := if selected != [] then Some(selected[0]) else saved.active;
    var restore := ContextManagers.RestoreTimer(saved);
    match ExportGlb(k.gltf)
    case Err(e) =>
      Run(Cancelled, p.blend, Warnings(p.warnings) + [Report(Error, "Export failed: " + e)], "✗ Export failed: " + e,
          [restore, Timer(ClearStatusAfterFailureMs, ClearExportStatus)], selected, active)
    case Ok(g) =>
      var mb := k.formatMb(k.glbSize);
      Run(Finished, Teardown(p, selected, collections),
          Warnings(p.warnings + g.warnings)
          + [Report(Info, "Exported " + mb + "MB" + InfoString(p.info + [DracoInfo(o.draco, o.dracoLevel)]) + " to Framo")],
          "✓ Export complete! (" + mb + "MB)",
          [Timer(ClearStatusDelayMs, ClearExportStatus), Timer(CleanupDelayMs, Timers.DeferredCleanup(Proxies(p.swaps), TempNames(p.swaps))),
           restore],
          selected, active)
  }

  // The stages on the data

  method SubdivOnData(data: BlendData, o: Options, sources: seq<string>) returns (p: Prepared)
    modifies data
    ensures p == SubdivStage(o, old(data.State()), sources) && data.State() == p.blend
  {
    if o.subdiv {
      var records := ApplySubdivOverride(data, sources, o.subdivExcluded, o.subdivOverrides, o.subdivLevel);
      p := Prepared(data.State(), records, [], [], SubdivInfo(records, o.subdivLevel), []);
    } else {
      p := Prepared(data.State(), [], [], [], [], []);
    }
  }

  method SwapOnData(data: BlendData, p: Prepared, sources: seq<string>) returns (q: Prepared)
    requires data.State() == p.blend
    modifies data
    ensures q == SwapStage(p, sources) && data.State() == q.blend
  {
    var swaps := SwapData(data, sources);
    q := p.(blend := data.State(), swaps := swaps);
  }

  method CleanOnData(data: BlendData, p: Prepared, sources: seq<string>, k: Kernels) returns (q: Prepared)
    requires data.State() == p.blend
    modifies data
    ensures q == CleanStage(p, sources, k) && data.State() == q.blend
  {
    q := p;
    var targets := TargetNames(p.swaps);
    if sources != [] && targets != [] {
      var removed := RunMeshPass(data, targets, k.clean);
      q := p.(blend := data.State(), info := p.info + CountInfo(removed, "Removed ", " unused materials"));
    }
  }

  method UvOnData(data: BlendData, o: Options, p: Prepared, sources: seq<string>, k: Kernels) returns (q: Prepared)
    requires data.State() == p.blend
    modifies data
    ensures q == UvStage(o, p, sources, k) && data.State() == q.blend
  {
    q := p;
    var targets := TargetNames(p.swaps);
    if o.autoUv && sources != [] && targets != [] {
      var view := new ViewState([], None);
      var vis := new Visibility(data.hidden);
      var store := new MeshStore(data.meshes);
      var stats := UvUnwrap.AutoUnwrapObjects(SelectedObjects(data.objects, targets), data.objects.Keys, k.uvRaises,
                                              view, vis, store);
      data.hidden := vis.hidden;
      data.meshes := store.meshes;
      q := p.(blend := data.State(), info := p.info + CountInfo(stats.unwrapped, "UV unwrapped ", " objects"));
    }
  }

  method DecimateOnData(data: BlendData, o: Options, p: Prepared, sources: seq<string>, k: Kernels) returns (q: Prepared)
    requires data.State() == p.blend
    modifies data
    ensures q == DecimateStage(o, p, sources, k) && data.State() == q.blend
  {
    q := p;
    if o.decimation && sources != [] {
      var names := SortNames(Kept(sources, o.decimateExcluded));
      if names != [] {
        var t := DecimateTargets(data, names, p.swaps, o.decimateOverrides, o.decimateRatio, k);
        q := p.(blend := data.State(), info := p.info + DecimationInfo(t.count, t.before, t.after, k.formatPercent),
                warnings := p.warnings + t.warnings);
      }
    }
  }

  method TexturesOnData(data: BlendData, o: Options, p: Prepared, k: Kernels) returns (q: Prepared)
    requires data.State() == p.blend
    modifies data
    ensures q == TextureStage(o, p, k) && data.State() == q.blend
  {
    var t := OptimizeTextures(data.State(), o.textures, o.textureSize, o.textureExcluded, k);
    data.images := t.blend.images;
    data.materials := t.blend.materials;
    q := p.(blend := t.blend, copies := t.copies, info := p.info + t.info, warnings := p.warnings + t.warnings);
  }

  /** Stages 2 to 8 on the data. */
  method PrepareData(data: BlendData, o: Options, sources: seq<string>, analysed: seq<string>, k: Kernels) returns (p: Prepared)
    modifies data
    ensures p == Prepare(o, old(data.State()), sources, analysed, k) && data.State() == p.blend
  {
    p := SubdivOnData(data, o, sources);
    p := SwapOnData(data, p, sources);
    p := CleanOnData(data, p, sources, k);
    p := UvOnData(data, o, p, sources, k);
    p := DecimateOnData(data, o, p, sources, k);
    var unsupported := AnalyseMaterials(analysed, k.ready);
    p := p.(warnings := p.warnings + MaterialWarnings(unsupported));
    p := TexturesOnData(data, o, p, k);
  }

  /** The teardown on the data. */
  method TeardownData(data: BlendData, p: Prepared, selected: seq<string>, collections: map<string, seq<Obj>>)
    requires data.State() == p.blend
    modifies data
    ensures data.State() == Teardown(p, selected, collections)
  {
    RestoreSubdivLevels(data, p.records);
    var targets := MaterialAnalyzer.MaterialsToAnalyze(SelectedObjects(data.objects, selected), collections);
    RestoreTextureCopies(data, p.copies, targets);
    RebindOriginals(data, p.swaps);
  }

  /** What `collect_recursive` promises about the sources it hands to the stages. */
  ghost predicate Collects(c: Collected, selection: seq<Obj>, collections: map<string, seq<Obj>>) {
    && (forall o :: o in selection ==> o in c.processed)
    && c.instanceSources == Reached(c.processed, collections)
    && (forall o :: o in c.processed ==> o in selection || o in c.instanceSources)
    && (forall o :: o in c.sources <==> o in c.processed && o.kind == Mesh)
    && DistinctObjs(c.sources)
  }

  /** The success path inside the `try`: the final status and report, the status timer, the
      teardown and the cleanup timer. */
  method FinishExport(data: BlendData, timers: TimerQueue, o: Options, p: Prepared, selected: seq<string>, g: Glb,
                      collections: map<string, seq<Obj>>, k: Kernels) returns (reports: seq<Report>, status: string)
    requires data.State() == p.blend
    modifies data, timers
    ensures var mb := k.formatMb(k.glbSize);
            && reports == Warnings(p.warnings + g.warnings)
                          + [Report(Info, "Exported " + mb + "MB" + InfoString(p.info + [DracoInfo(o.draco, o.dracoLevel)]) + " to Framo")]
            && status == "✓ Export complete! (" + mb + "MB)"
            && data.State() == Teardown(p, selected, collections)
            && timers.pending == old(timers.pending)
                                 + [Timer(ClearStatusDelayMs, ClearExportStatus),
                                    Timer(CleanupDelayMs, Timers.DeferredCleanup(Proxies(p.swaps), TempNames(p.swaps)))]
  {
    var mb := k.formatMb(k.glbSize);
    status := "✓ Export complete! (" + mb + "MB)";
    reports := Warnings(p.warnings + g.warnings)
               + [Report(Info, "Exported " + mb + "MB" + InfoString(p.info + [DracoInfo(o.draco, o.dracoLevel)]) + " to Framo")];
    timers.Register(Timer(ClearStatusDelayMs, ClearExportStatus));
    TeardownData(data, p, selected, collections);
    timers.Register(Timer(CleanupDelayMs, Timers.DeferredCleanup(Proxies(p.swaps), TempNames(p.swaps))));
  }

  /** The GLB export succeeded: the summary and the teardown, then leaving
      `preserve_blender_state` registers the selection restore. */
  method ExportSucceeded(data: BlendData, timers: TimerQueue, o: Options, p: Prepared, selected: seq<string>, g: Glb,
                         saved: ContextManagers.Saved, collections: map<string, seq<Obj>>, k: Kernels)
    returns (reports: seq<Report>, status: string)
    requires data.State() == p.blend
    modifies data, timers
    ensures var mb := k.formatMb(k.glbSize);
            && reports == Warnings(p.warnings + g.warnings)
                          + [Report(Info, "Exported " + mb + "MB" + InfoString(p.info + [DracoInfo(o.draco, o.dracoLevel)]) + " to Framo")]
            && status == "✓ Export complete! (" + mb + "MB)"
            && data.State() == Teardown(p, selected, collections)
            && timers.pending == old(timers.pending)
                                 + [Timer(ClearStatusDelayMs, ClearExportStatus),
                                    Timer(CleanupDelayMs, Timers.DeferredCleanup(Proxies(p.swaps), TempNames(p.swaps))),
                                    ContextManagers.RestoreTimer(saved)]
  {
    reports, status := FinishExport(data, timers, o, p, selected, g, collections, k);
    ghost var q1 := timers.pending;
    var exit := ContextManagers.ReleaseState(saved, Ok(true), timers);
    assert timers.pending == q1 + [ContextManagers.RestoreTimer(saved)];
  }

  /** The GLB export raised: leaving `preserve_blender_state` registers the selection restore,
      then the `except` clause reports the error and clears the status after 5 s. */
  method ExportFailed(timers: TimerQueue, p: Prepared, saved: ContextManagers.Saved, e: string)
    returns (reports: seq<Report>, status: string)
    modifies timers
    ensures reports == Warnings(p.warnings) + [Report(Error, "Export failed: " + e)]
    ensures status == "✗ Export failed: " + e
    ensures timers.pending == old(timers.pending)
                              + [ContextManagers.RestoreTimer(saved), Timer(ClearStatusAfterFailureMs, ClearExportStatus)]
  {
    var body: Result<bool> := Err(e);
    var exit := ContextManagers.ReleaseState(saved, body, timers);
    ghost var q1 := timers.pending;
    status := "✗ Export failed: " + exit.error;
    reports := Warnings(p.warnings) + [Report(Error, "Export failed: " + exit.error)];
    timers.Register(Timer(ClearStatusAfterFailureMs, ClearExportStatus));
    assert timers.pending == q1 + [Timer(ClearStatusAfterFailureMs, ClearExportStatus)];
  }

  /** The body of `preserve_blender_state` after stage 8, and the `except` clause after it;
      the final status is returned. */
  method CompleteExport(data: BlendData, view: ViewState, timers: TimerQueue, o: Options, p: Prepared,
                        instanceSources: set<Obj>, selection: seq<Obj>, saved: ContextManagers.Saved,
                        collections: map<string, seq<Obj>>, k: Kernels) returns (outcome: Outcome, reports: seq<Report>, status: string)
    requires data.State() == p.blend && saved.active == view.active
    modifies data, view, timers
    ensures var r := Complete(o, p, instanceSources, selection, saved, collections, k);
            && outcome == r.outcome && reports == r.reports && data.State() == r.blend && status == r.status
            && timers.pending == old(timers.pending) + r.timers && view.selected == r.selected && view.active == r.active
  {
    SelectForExport(view, selection, instanceSources, data.objects.Keys);
    var glb := ExportGlb(k.gltf);
    if glb.Ok? {
      reports, status := ExportSucceeded(data, timers, o, p, view.selected, glb.value, saved, collections, k);
      outcome := Finished;
    } else {
      reports, status := ExportFailed(timers, p, saved, glb.error);
      outcome := Cancelled;
    }
  }

  /** Stages 2 to 8 and the rest of the run. */
  method RunExport(data: BlendData, view: ViewState, timers: TimerQueue, o: Options, sources: seq<string>,
                   instanceSources: set<Obj>, selection: seq<Obj>, saved: ContextManagers.Saved, analysed: seq<string>,
                   collections: map<string, seq<Obj>>, k: Kernels) returns (outcome: Outcome, reports: seq<Report>, status: string)
    requires saved.active == view.active
    requires Enumerates(analysed, MaterialAnalyzer.MaterialsToAnalyze(selection, collections))
    modifies data, view, timers
    ensures var r := ExportRun(o, old(data.State()), sources, instanceSources, selection, saved, analysed, collections, k);
            && outcome == r.outcome && reports == r.reports && data.State() == r.blend && status == r.status
            && timers.pending == old(timers.pending) + r.timers && view.selected == r.selected && view.active == r.active
  {
    var p := PrepareData(data, o, sources, analysed, k);
    outcome, reports, status := CompleteExport(data, view, timers, o, p, instanceSources, selection, saved, collections, k);
  }

  /** `ExportService.export_to_web`: `is_exporting` is set for the run and cleared on both
      paths, and the last status is the run's; everything else is the run of the stages on
      the collected sources. */
  method ExportToWeb(settings: Properties.ExportSettings, data: BlendData, view: ViewState, timers: TimerQueue,
                     selection: seq<Obj>, collections: map<string, seq<Obj>>, analysed: seq<string>, k: Kernels)
    returns (outcome: Outcome, reports: seq<Report>, collected: Collected)
    requires Enumerates(analysed, MaterialAnalyzer.MaterialsToAnalyze(selection, collections))
    modifies settings`exportStatus, settings`isExporting, data, view, timers
    ensures Collects(collected, selection, collections)
    ensures var r := ExportRun(old(OptionsOf(settings)), old(data.State()), Names(collected.sources), collected.instanceSources,
                               selection, ContextManagers.Saved(old(view.selected), old(view.active)), analysed, collections, k);
            && outcome == r.outcome && reports == r.reports && data.State() == r.blend
            && settings.exportStatus == r.status && timers.pending == old(timers.pending) + r.timers
            && view.selected == r.selected && view.active == r.active
    ensures !settings.isExporting
  {
    var o := OptionsOf(settings);
    settings.isExporting := true;
    settings.UpdateExportStatus("Preparing export...");
    var status;
    outcome, reports, status, collected := CollectAndRun(data, view, timers, o, selection, collections, analysed, k);
    settings.UpdateExportStatus(status);
    settings.isExporting := false;
  }

  /** The body of `export_to_web`'s `try`: the state is saved, the sources are collected and
      the stages run on them. */
  method CollectAndRun(data: BlendData, view: ViewState, timers: TimerQueue, o: Options, selection: seq<Obj>,
                       collections: map<string, seq<Obj>>, analysed: seq<string>, k: Kernels)
    returns (outcome: Outcome, reports: seq<Report>, status: string, collected: Collected)
    requires Enumerates(analysed, MaterialAnalyzer.MaterialsToAnalyze(selection, collections))
    modifies data, view, timers
    ensures Collects(collected, selection, collections)
    ensures var r := ExportRun(o, old(data.State()), Names(collected.sources), collected.instanceSources,
                               selection, ContextManagers.Saved(old(view.selected), old(view.active)), analysed, collections, k);
            && outcome == r.outcome && reports == r.reports && data.State() == r.blend && status == r.status
            && timers.pending == old(timers.pending) + r.timers && view.selected == r.selected && view.active == r.active
  {
    var saved := ContextManagers.CaptureState(view);
    collected := CollectSources(selection, collections);
    outcome, reports, status := RunExport(data, view, timers, o, Names(collected.sources), collected.instanceSources,
                                          selection, saved, analysed, collections, k);
  }

  // ---------------------------------------------------------------------------------------
  // What a run leaves

  /** Every swap's target is still bound to its temporary mesh, which is not one of the
      meshes `b1` had. */
  predicate Swapped(b1: Blend, x: Blend, swaps: seq<Swap>) {
    forall s :: s in swaps ==> s.target in x.objects && x.objects[s.target].data == Some(s.temp) && s.temp !in b1.meshes
  }

  /** `y` differs from `x` only in the contents of meshes `b1` did not have and in visibility
      flags it cleared. */
  predicate KeepsOriginals(b1: Blend, x: Blend, y: Blend) {
    && y.objects == x.objects && y.hidden <= x.hidden && y.meshes.Keys == x.meshes.Keys
    && forall m :: m in b1.meshes && m in x.meshes ==> y.meshes[m] == x.meshes[m]
  }

  /** Smart UV Project never raises and every decimation succeeds. */
  ghost predicate NoRaise(k: Kernels) {
    (forall x :: !k.uvRaises(x)) && (forall m, r :: k.decimate(m, r).success)
  }

  /** Stage 5 keeps the bindings and every mesh no target is bound to; it clears a visibility
      flag only when Smart UV Project raised. */
  lemma UvStageFrame(o: Options, p: Prepared, sources: seq<string>, k: Kernels, b1: Blend)
    requires forall m :: m in BoundMeshes(p.blend, TargetNames(p.swaps)) ==> m !in b1.meshes
    ensures var q := UvStage(o, p, sources, k);
            && q.swaps == p.swaps && q.records == p.records && KeepsOriginals(b1, p.blend, q.blend)
            && ((forall x :: !k.uvRaises(x)) ==> q.blend.hidden == p.blend.hidden)
  {
    var targets := TargetNames(p.swaps);
    if o.autoUv && sources != [] && targets != [] {
      var objs := SelectedObjects(p.blend.objects, targets);
      var st0 := UvUnwrap.UnwrapState([], None, p.blend.hidden, p.blend.meshes);
      UvUnwrap.UnwrapPassFrame(MeshObjects(objs), st0, p.blend.objects.Keys, k.uvRaises);
      forall m, x | m in b1.meshes && x in MeshObjects(objs)
        ensures x.data != Some(m)
      {
        var n :| n in targets && n in p.blend.objects && p.blend.objects[n] == x;
        assert x.data.Some? ==> x.data.value in BoundMeshes(p.blend, targets);
      }
    }
  }

  /** Stage 6 keeps the bindings and every mesh no target is bound to; it clears a visibility
      flag only for a target whose decimation failed. */
  lemma DecimateStageFrame(o: Options, p: Prepared, sources: seq<string>, k: Kernels, b1: Blend)
    requires forall m :: m in BoundMeshes(p.blend, TargetNames(p.swaps)) ==> m !in b1.meshes
    ensures var q := DecimateStage(o, p, sources, k);
            && q.swaps == p.swaps && q.records == p.records && KeepsOriginals(b1, p.blend, q.blend)
            && p.blend.hidden - q.blend.hidden <= Targets(p.swaps)
            && ((forall m, r :: k.decimate(m, r).success) ==> q.blend.hidden == p.blend.hidden)
  {
    if o.decimation && sources != [] {
      var names := SortNames(Kept(sources, o.decimateExcluded));
      DecimatePassFacts(p.blend, names, p.swaps, o.decimateOverrides, o.decimateRatio, k);
      DecimateFailuresFacts(p.blend, names, p.swaps, o.decimateOverrides, o.decimateRatio, k);
    }
  }

  /** The passes reach only the temporary meshes. */
  lemma BoundTemps(b1: Blend, x: Blend, swaps: seq<Swap>)
    requires Swapped(b1, x, swaps)
    ensures forall m :: m in BoundMeshes(x, TargetNames(swaps)) ==> m !in b1.meshes
  {
    forall m | m in BoundMeshes(x, TargetNames(swaps)) ensures m !in b1.meshes {
      var t :| t in TargetNames(swaps) && t in x.objects && x.objects[t].data.Some? && x.objects[t].data.value == m;
      var j :| 0 <= j < |swaps| && TargetNames(swaps)[j] == t;
      assert swaps[j] in swaps;
    }
  }

  /** Stages 4 to 8 change no binding and no original mesh. */
  lemma {:induction false} PassesKeepOriginals(o: Options, p3: Prepared, sources: seq<string>, analysed: seq<string>, k: Kernels, b1: Blend)
    requires Swapped(b1, p3.blend, p3.swaps)
    ensures var p := TextureStage(o, MaterialStage(DecimateStage(o, UvStage(o, CleanStage(p3, sources, k), sources, k), sources, k), analysed, k), k);
            && KeepsOriginals(b1, p3.blend, p.blend) && p.swaps == p3.swaps && p.records == p3.records
            && (NoRaise(k) ==> p.blend.hidden == p3.blend.hidden)
  {
    var targets := TargetNames(p3.swaps);
    BoundTemps(b1, p3.blend, p3.swaps);
    var p4 := CleanStage(p3, sources, k);
    assert KeepsOriginals(b1, p3.blend, p4.blend);
    assert BoundMeshes(p4.blend, targets) == BoundMeshes(p3.blend, targets);
    UvStageFrame(o, p4, sources, k, b1);
    var p5 := UvStage(o, p4, sources, k);
    assert BoundMeshes(p5.blend, targets) == BoundMeshes(p3.blend, targets);
    DecimateStageFrame(o, p5, sources, k, b1);
    var p6 := DecimateStage(o, p5, sources, k);
    assert KeepsOriginals(b1, p3.blend, p6.blend);
  }

  /** Restoring subdivision levels reads and writes only modifiers, whatever else the objects
      carry. */
  lemma {:induction false} RestoreSubdivModifiers(a: map<string, Obj>, c: map<string, Obj>, recs: seq<SubdivRecord>, n: string)
    requires n in a && n in c && a[n].modifiers == c[n].modifiers
    ensures RestoreSubdiv(c, recs)[n] == c[n].(modifiers := RestoreSubdiv(a, recs)[n].modifiers)
    decreases |recs|
  {
    if recs == [] {
      assert c[n] == c[n].(modifiers := a[n].modifiers);
    } else {
      RestoreSubdivModifiers(a, c, recs[..|recs| - 1], n);
    }
  }

  /** The hypotheses of the round trip: the sources are distinct objects of the file, every
      object's mesh exists, modifier names are unique per object, and only objects are hidden. */
  predicate Sane(b: Blend, sources: seq<string>) {
    && WellBound(b) && DistinctNames(sources) && (forall n :: n in sources ==> n in b.objects)
    && (forall n :: n in b.objects ==> UniqueModifierNames(b.objects[n].modifiers))
    && b.hidden <= b.objects.Keys
  }

  /** The swap stage's facts, with `b1` the data after the subdivision override. */
  lemma PrepareFacts(o: Options, b: Blend, sources: seq<string>, analysed: seq<string>, k: Kernels)
    requires Sane(b, sources)
    ensures var b1 := SubdivStage(o, b, sources).blend;
            var sw := SwapAll(b1, sources);
            var p := Prepare(o, b, sources, analysed, k);
            && b1.meshes == b.meshes && b1.hidden == b.hidden && b1.objects.Keys == b.objects.Keys
            && (forall n :: n in b.objects ==> b1.objects[n] == b.objects[n].(modifiers := b1.objects[n].modifiers))
            && RestoreSubdiv(b1.objects, SubdivStage(o, b, sources).records) == b.objects
            && SwapInv(b1, sw.0, sw.1) && DistinctSources(sw.1)
            && p.swaps == sw.1 && p.records == SubdivStage(o, b, sources).records
            && KeepsOriginals(b1, sw.0, p.blend)
            && (NoRaise(k) ==> p.blend.hidden == sw.0.hidden)
  {
    var p2 := SubdivStage(o, b, sources);
    var b1 := p2.blend;
    if o.subdiv {
      SubdivRoundTrip(b.objects, sources, o.subdivExcluded, o.subdivOverrides, o.subdivLevel);
    }
    assert WellBound(b1);
    SwapAllFacts(b1, sources);
    var sw := SwapAll(b1, sources);
    var p3 := SwapStage(p2, sources);
    assert Swapped(b1, p3.blend, p3.swaps) by {
      forall s | s in p3.swaps ensures s.target in p3.blend.objects && p3.blend.objects[s.target].data == Some(s.temp) && s.temp !in b1.meshes {
        assert SwapHolds(b1, sw.0, s);
      }
    }
    PassesKeepOriginals(o, p3, sources, analysed, k, b1);
  }

  /** A successful run puts every object of the file back as it was: the subdivision levels,
      and the mesh binding of each swapped source. */
  lemma {:induction false} SuccessRestoresObjects(o: Options, b: Blend, sources: seq<string>, instanceSources: set<Obj>,
                                                  selection: seq<Obj>, saved: ContextManagers.Saved, analysed: seq<string>,
                                                  collections: map<string, seq<Obj>>, k: Kernels)
    requires Sane(b, sources)
    ensures var r := ExportRun(o, b, sources, instanceSources, selection, saved, analysed, collections, k);
            r.outcome == Finished ==> forall n :: n in b.objects ==> n in r.blend.objects && r.blend.objects[n] == b.objects[n]
  {
    var p := Prepare(o, b, sources, analysed, k);
    var selected := ExportSelection(selection, instanceSources, p.blend.objects.Keys);
    CompleteSuccess(o, p, instanceSources, selection, saved, collections, k);
    if Complete(o, p, instanceSources, selection, saved, collections, k).outcome == Finished {
      PrepareFacts(o, b, sources, analysed, k);
      var p2 := SubdivStage(o, b, sources);
      var (b2, swaps) := SwapAll(p2.blend, sources);
      TeardownRestores(b, p2.blend, b2, swaps, p, selected, collections);
    }
  }

  /** The run after stage 8 succeeds exactly when an image format succeeded, and then leaves
      the data as the teardown does. */
  lemma CompleteSuccess(o: Options, p: Prepared, instanceSources: set<Obj>, selection: seq<Obj>, saved: ContextManagers.Saved,
                        collections: map<string, seq<Obj>>, k: Kernels)
    ensures var r := Complete(o, p, instanceSources, selection, saved, collections, k);
            r.outcome == Finished ==> r.blend == Teardown(p, ExportSelection(selection, instanceSources, p.blend.objects.Keys), collections)
  {
  }

  /** The teardown gives every object of the file its own modifiers and mesh back. */
  lemma TeardownRestores(b: Blend, b1: Blend, b2: Blend, swaps: seq<Swap>, p: Prepared, selected: seq<string>,
                         collections: map<string, seq<Obj>>)
    requires b1.objects.Keys == b.objects.Keys
    requires forall n :: n in b.objects ==> b1.objects[n] == b.objects[n].(modifiers := b1.objects[n].modifiers)
    requires RestoreSubdiv(b1.objects, p.records) == b.objects
    requires SwapInv(b1, b2, swaps) && DistinctSources(swaps) && p.swaps == swaps
    requires KeepsOriginals(b1, b2, p.blend)
    ensures forall n :: n in b.objects ==>
              n in Teardown(p, selected, collections).objects && Teardown(p, selected, collections).objects[n] == b.objects[n]
  {
    var x1 := p.blend.(objects := RestoreSubdiv(p.blend.objects, p.records));
    var targets := MaterialAnalyzer.MaterialsToAnalyze(SelectedObjects(x1.objects, selected), collections);
    var x2 := RestoreTextures(x1, p.copies, targets);
    assert Teardown(p, selected, collections) == Rebind(x2, swaps);
    assert x2.objects == RestoreSubdiv(b2.objects, p.records);
    assert x2.meshes.Keys == b2.meshes.Keys;
    RebindRestores(x2, swaps);
    forall n | n in b.objects
      ensures n in Rebind(x2, swaps).objects && Rebind(x2, swaps).objects[n] == b.objects[n]
    {
      TeardownObject(b, b1, b2, swaps, p.records, x2, Rebind(x2, swaps).objects, n);
    }
  }

  /** One object through the teardown: the subdivision levels come back, then, for a swapped
      source, the original mesh. */
  lemma TeardownObject(b: Blend, b1: Blend, b2: Blend, swaps: seq<Swap>, recs: seq<SubdivRecord>, x2: Blend,
                       ro: map<string, Obj>, n: string)
    requires n in b.objects && b1.objects.Keys == b.objects.Keys
    requires b1.objects[n] == b.objects[n].(modifiers := b1.objects[n].modifiers)
    requires RestoreSubdiv(b1.objects, recs) == b.objects
    requires SwapInv(b1, b2, swaps)
    requires x2.objects == RestoreSubdiv(b2.objects, recs) && x2.meshes.Keys == b2.meshes.Keys
    requires ro.Keys == x2.objects.Keys
    requires forall s :: s in swaps && s.source in x2.objects && s.original in x2.meshes ==>
               ro[s.source] == x2.objects[s.source].(data := Some(s.original))
    requires forall k :: k in x2.objects && k !in Sources(swaps) ==> ro[k] == x2.objects[k]
    ensures n in ro && ro[n] == b.objects[n]
  {
    if n in Sources(swaps) {
      var s :| s in swaps && s.source == n;
      assert SwapHolds(b1, b2, s);
      RestoreSubdivModifiers(b1.objects, b2.objects, recs, n);
      assert x2.objects[n] == b1.objects[n].(data := Some(s.temp)).(modifiers := b.objects[n].modifiers);
    } else {
      assert b2.objects[n] == b1.objects[n];
      RestoreSubdivModifiers(b1.objects, b2.objects, recs, n);
    }
  }

  /** The meshes of the file itself that the orphan sweep removes: those named "TEMP_DATA_..."
      with zero users. */
  function UserOrphans(b: Blend): set<string> {
    set m | m in b.meshes && StartsWith(m, TempDataPrefix) && Unused(b.objects, m)
  }

  /** What the swap loop adds, as sets of names: the proxies as objects and hidden flags, the
      temporary meshes as meshes, none of them a name the file had. */
  lemma SwapShape(b1: Blend, b2: Blend, swaps: seq<Swap>)
    requires SwapInv(b1, b2, swaps)
    ensures b2.objects.Keys == b1.objects.Keys + NameSet(Proxies(swaps)) && b1.objects.Keys !! NameSet(Proxies(swaps))
    ensures b2.hidden == b1.hidden + NameSet(Proxies(swaps))
    ensures b2.meshes.Keys == b1.meshes.Keys + NameSet(TempNames(swaps)) && b1.meshes.Keys !! NameSet(TempNames(swaps))
    ensures forall m :: m in b1.meshes ==> b2.meshes[m] == b1.meshes[m]
  {
    assert NameSet(Proxies(swaps)) == ProxySet(swaps);
    assert NameSet(TempNames(swaps)) == Temps(swaps);
    forall s | s in swaps ensures (s.target != s.source <==> s.target !in b1.objects) && s.temp !in b1.meshes {
      assert SwapHolds(b1, b2, s);
    }
    assert Targets(swaps) <= b1.objects.Keys + ProxySet(swaps);
  }

  /** The cleanup after the teardown: `x` has the objects of the file back, plus the proxies,
      and the meshes of the file, plus the temporary ones. */
  lemma CleanupAfterTeardown(b: Blend, proxies: seq<string>, temps: seq<string>, x: Blend)
    requires WellBound(b) && b.hidden <= b.objects.Keys
    requires x.objects.Keys == b.objects.Keys + NameSet(proxies) && b.objects.Keys !! NameSet(proxies)
    requires forall n :: n in b.objects ==> x.objects[n] == b.objects[n]
    requires x.hidden <= b.hidden + NameSet(proxies)
    requires x.meshes.Keys == b.meshes.Keys + NameSet(temps) && b.meshes.Keys !! NameSet(temps)
    requires forall m :: m in b.meshes ==> x.meshes[m] == b.meshes[m]
    ensures var c := Cleaned(x, proxies, temps);
            && c.objects == b.objects && c.hidden == x.hidden - NameSet(proxies) && c.hidden <= b.hidden
            && c.meshes == b.meshes - UserOrphans(b)
  {
    var step1 := WithoutProxies(x, proxies);
    assert step1.objects == b.objects;
    forall t | t in temps ensures t !in b.meshes && Unused(b.objects, t) {
      assert t in NameSet(temps);
    }
    var step2 := WithoutUnusedTemps(step1, temps);
    assert step2.meshes == b.meshes by {
      assert step2.meshes.Keys == b.meshes.Keys;
    }
  }

  /** A successful run followed by the cleanup it schedules leaves the objects exactly as they
      were, and every mesh of the file except the user's own unused "TEMP_DATA_..." meshes. No
      object is hidden that was not; a hidden source in the view layer is left visible when
      its unwrap or decimation raised, and when nothing raised every flag is as it was. */
  lemma {:induction false} SuccessLeavesNoTrace(o: Options, b: Blend, sources: seq<string>, instanceSources: set<Obj>,
                                                selection: seq<Obj>, saved: ContextManagers.Saved, analysed: seq<string>,
                                                collections: map<string, seq<Obj>>, k: Kernels)
    requires Sane(b, sources)
    ensures var r := ExportRun(o, b, sources, instanceSources, selection, saved, analysed, collections, k);
            r.outcome == Finished ==>
              && |r.timers| == 3 && r.timers[1].callback.DeferredCleanup?
              && var c := Cleaned(r.blend, r.timers[1].callback.proxies, r.timers[1].callback.tempMeshes);
                 && c.objects == b.objects && c.meshes == b.meshes - UserOrphans(b)
                 && c.hidden <= b.hidden && (NoRaise(k) ==> c.hidden == b.hidden)
  {
    var r := ExportRun(o, b, sources, instanceSources, selection, saved, analysed, collections, k);
    if r.outcome == Finished {
      SuccessRestoresObjects(o, b, sources, instanceSources, selection, saved, analysed, collections, k);
      PrepareFacts(o, b, sources, analysed, k);
      var b1 := SubdivStage(o, b, sources).blend;
      var (b2, swaps) := SwapAll(b1, sources);
      var p := Prepare(o, b, sources, analysed, k);
      assert r.timers[1].callback == Timers.DeferredCleanup(Proxies(swaps), TempNames(swaps));
      assert r.blend.objects.Keys == b2.objects.Keys && r.blend.meshes == p.blend.meshes && r.blend.hidden == p.blend.hidden;
      SwapShape(b1, b2, swaps);
      CleanupAfterTeardown(b, Proxies(swaps), TempNames(swaps), r.blend);
      assert b.hidden !! NameSet(Proxies(swaps));
    }
  }

  /** A failed export undoes nothing: the data is what the stages left, every swapped source
      is still bound to its temporary mesh, and every proxy is still there, hidden unless its
      unwrap or decimation raised. The run fails exactly when all three image formats raised. */
  lemma FailureKeepsSwaps(o: Options, b: Blend, sources: seq<string>, instanceSources: set<Obj>,
                          selection: seq<Obj>, saved: ContextManagers.Saved, analysed: seq<string>,
                          collections: map<string, seq<Obj>>, k: Kernels)
    requires Sane(b, sources)
    ensures var r := ExportRun(o, b, sources, instanceSources, selection, saved, analysed, collections, k);
            var p := Prepare(o, b, sources, analysed, k);
            && (r.outcome == Cancelled <==> k.gltf("WEBP").Some? && k.gltf("AUTO").Some? && k.gltf("NONE").Some?)
            && (r.outcome == Cancelled ==>
                  && r.blend == p.blend
                  && forall s :: s in p.swaps ==>
                       && s.source in r.blend.objects && r.blend.objects[s.source].data == Some(s.temp)
                       && (s.target != s.source ==> s.target in r.blend.objects && (NoRaise(k) ==> s.target in r.blend.hidden)))
  {
    var p := Prepare(o, b, sources, analysed, k);
    CompleteFailure(o, p, instanceSources, selection, saved, collections, k);
    PrepareFacts(o, b, sources, analysed, k);
    var b1 := SubdivStage(o, b, sources).blend;
    var (b2, swaps) := SwapAll(b1, sources);
    SwapsKept(b1, b2, swaps, p.blend);
  }

  /** The run after stage 8 fails exactly when all three image formats raised, and then
      leaves the data as stage 8 did. */
  lemma CompleteFailure(o: Options, p: Prepared, instanceSources: set<Obj>, selection: seq<Obj>, saved: ContextManagers.Saved,
                        collections: map<string, seq<Obj>>, k: Kernels)
    ensures var r := Complete(o, p, instanceSources, selection, saved, collections, k);
            && (r.outcome == Cancelled <==> k.gltf("WEBP").Some? && k.gltf("AUTO").Some? && k.gltf("NONE").Some?)
            && (r.outcome == Cancelled ==> r.blend == p.blend)
  {
  }

  /** What the swaps made is still there in data that kept the swap stage's objects. */
  lemma SwapsKept(b1: Blend, b2: Blend, swaps: seq<Swap>, y: Blend)
    requires forall s :: s in swaps ==> SwapHolds(b1, b2, s)
    requires KeepsOriginals(b1, b2, y)
    ensures forall s :: s in swaps ==>
              && s.source in y.objects && y.objects[s.source].data == Some(s.temp)
              && (s.target != s.source ==> s.target in y.objects && s.target in b2.hidden)
  {
  }

  /** The timers a run registers: on success the cleanup at 0.1 s fires before the selection
      restore at 0.2 s, which fires before the status is cleared; on failure the restore fires
      before the status is cleared. The restore always carries the names captured on entry. */
  lemma RunTimers(o: Options, b: Blend, sources: seq<string>, instanceSources: set<Obj>,
                  selection: seq<Obj>, saved: ContextManagers.Saved, analysed: seq<string>,
                  collections: map<string, seq<Obj>>, k: Kernels)
    ensures var r := ExportRun(o, b, sources, instanceSources, selection, saved, analysed, collections, k);
            && (r.outcome == Finished ==>
                  && |r.timers| == 3 && r.timers[1].callback.DeferredCleanup? && r.timers[2].callback.RestoreSelection?
                  && r.timers[0].callback.ClearExportStatus?
                  && FiresBefore(r.timers, 1, 2) && FiresBefore(r.timers, 2, 0))
            && (r.outcome == Cancelled ==>
                  && |r.timers| == 2 && r.timers[0].callback.RestoreSelection? && r.timers[1].callback.ClearExportStatus?
                  && FiresBefore(r.timers, 0, 1))
            && (r.outcome == Finished ==> r.timers[2] == ContextManagers.RestoreTimer(saved))
            && (r.outcome == Cancelled ==> r.timers[0] == ContextManagers.RestoreTimer(saved))
  {
  }
}
