/** The part of Blender's data that the add-on reads: objects with their type, mesh datablock
    name, modifier stack, material slots and view-layer membership. Names key everything,
    as in `bpy.data.objects`. */
module Scene {
  import opened Wrappers

  /** An object's `type`; the other Blender types (CURVE, LIGHT, ...) carry their name. */
  datatype ObjectType = Mesh | Empty | OtherType(typeName: string)

  /** The `type` string Blender reports. */
  function TypeName(k: ObjectType): string {
    match k
    case Mesh => "MESH"
    case Empty => "EMPTY"
    case OtherType(t) => t
  }

  datatype ModifierType = Subsurf | DecimateModifier | OtherModifier

  /** A modifier; `levels` and `renderLevels` matter only for a SUBSURF modifier. */
  datatype Modifier = Modifier(name: string, kind: ModifierType, levels: int, renderLevels: int)

  /** An object: `data` names its mesh datablock, `slots` holds the material name in each
      slot (None for an empty slot), `instance` names the collection an instancing empty shows. */
  datatype Obj = Obj(name: string, kind: ObjectType, data: Option<string>, modifiers: seq<Modifier>,
                     slots: seq<Option<string>>, inViewLayer: bool, instance: Option<string>)

  /** An empty that instances a collection (`instance_type == 'COLLECTION'` with an
      `instance_collection`); `collections` maps each collection to its `all_objects`. */
  predicate InstancesCollection(o: Obj, collections: map<string, seq<Obj>>) {
    o.kind == Empty && o.instance.Some? && o.instance.value in collections
  }

  /** The level a SUBSURF modifier renders at: `render_levels` when positive, else `levels`. */
  function EffectiveLevel(m: Modifier): int {
    if m.renderLevels > 0 then m.renderLevels else m.levels
  }

  /** Index of the first SUBSURF modifier, if any. */
  function FirstSubsurf(mods: seq<Modifier>): (r: Option<nat>)
    ensures r.Some? ==> r.value < |mods| && mods[r.value].kind == Subsurf
                        && forall j :: 0 <= j < r.value ==> mods[j].kind != Subsurf
    ensures r.None? ==> forall j :: 0 <= j < |mods| ==> mods[j].kind != Subsurf
    decreases |mods|
  {
    if mods == [] then None
    else if mods[0].kind == Subsurf then Some(0)
    else match FirstSubsurf(mods[1..])
      case None => None
      case Some(k) => Some(k + 1)
  }

  /** The first object with the given name (`bpy.data.objects.get`). */
  function Find(objects: seq<Obj>, name: string): (r: Option<Obj>)
    ensures r.Some? ==> r.value in objects && r.value.name == name
    ensures r.None? ==> forall o :: o in objects ==> o.name != name
    decreases |objects|
  {
    if objects == [] then None
    else if objects[0].name == name then Some(objects[0])
    else Find(objects[1..], name)
  }

  function Names(objects: seq<Obj>): (r: seq<string>)
    ensures |r| == |objects| && forall i :: 0 <= i < |objects| ==> r[i] == objects[i].name
    decreases |objects|
  {
    if objects == [] then [] else [objects[0].name] + Names(objects[1..])
  }

  /** The first slot holding material `m`, if any. */
  function FirstSlotWith(slots: seq<Option<string>>, m: string): (r: Option<nat>)
    ensures r.Some? ==> r.value < |slots| && slots[r.value] == Some(m)
                        && forall j :: 0 <= j < r.value ==> slots[j] != Some(m)
    ensures r.None? ==> Some(m) !in slots
    decreases |slots|
  {
    if slots == [] then None
    else if slots[0] == Some(m) then Some(0)
    else match FirstSlotWith(slots[1..], m)
      case None => None
      case Some(k) => Some(k + 1)
  }

  /** A mesh datablock: its UV layer count, each face's material index, its vertex count and
      its user count. */
  datatype MeshData = MeshData(uvLayers: nat, faceMaterials: seq<nat>, vertices: nat, users: nat)

  /** The mesh datablock of a mesh object; none for another type, a mesh without data, or a
      data name the store does not hold. */
  function MeshOf(o: Obj, meshes: map<string, MeshData>): (r: Option<MeshData>)
    ensures r.Some? <==> o.kind == Mesh && o.data.Some? && o.data.value in meshes
    ensures r.Some? ==> r.value == meshes[o.data.value]
  {
    if o.kind == Mesh && o.data.Some? && o.data.value in meshes then Some(meshes[o.data.value]) else None
  }

  /** `has_uv_map`: a mesh with data and at least one UV layer. */
  function HasUvMap(o: Obj, meshes: map<string, MeshData>): (r: bool)
    ensures r <==> o.kind == Mesh && o.data.Some? && o.data.value in meshes && meshes[o.data.value].uvLayers > 0
  {
    MeshOf(o, meshes).Some? && MeshOf(o, meshes).value.uvLayers > 0
  }

  /** The mesh store after `uv_layers.new(name="UVMap")` ran on `o`'s mesh if it had no layer. */
  function AddUvLayer(meshes: map<string, MeshData>, o: Obj): (r: map<string, MeshData>)
    ensures r.Keys == meshes.Keys
    ensures MeshOf(o, meshes).Some? ==> HasUvMap(o, r)
    ensures forall d :: d in meshes ==> r[d] == meshes[d].(uvLayers := r[d].uvLayers)
    ensures forall d :: d in meshes && (meshes[d].uvLayers > 0 || o.data != Some(d)) ==> r[d] == meshes[d]
  {
    if MeshOf(o, meshes).Some? && meshes[o.data.value].uvLayers == 0
    then meshes[o.data.value := meshes[o.data.value].(uvLayers := 1)]
    else meshes
  }

  /** The mesh objects among `objects`, in order (`[obj for obj in objects if obj.type == 'MESH']`). */
  function MeshObjects(objects: seq<Obj>): (r: seq<Obj>)
    ensures forall o :: o in r <==> o in objects && o.kind == Mesh
    ensures |r| <= |objects|
    decreases |objects|
  {
    if objects == [] then []
    else MeshObjects(objects[..|objects| - 1]) + (if objects[|objects| - 1].kind == Mesh then [objects[|objects| - 1]] else [])
  }

  /** The loop collecting the mesh objects. */
  method CollectMeshObjects(objects: seq<Obj>) returns (ms: seq<Obj>)
    ensures ms == MeshObjects(objects)
  {
    ms := [];
    var i := 0;
    while i < |objects|
      invariant 0 <= i <= |objects|
      invariant ms == MeshObjects(objects[..i])
    {
      assert objects[..i + 1][..i] == objects[..i];
      if objects[i].kind == Mesh {
        ms := ms + [objects[i]];
      }
      i := i + 1;
    }
    assert objects[..i] == objects;
  }

  /** `bpy.data.meshes` by name; UV operators add layers in place. */
  class MeshStore {
    var meshes: map<string, MeshData>

    constructor(meshes: map<string, MeshData>)
      ensures this.meshes == meshes
    {
      this.meshes := meshes;
    }
  }

  /** The selection and active object of the view layer. */
  class ViewState {
    var selected: seq<string>
    var active: Option<string>

    constructor(selected: seq<string>, active: Option<string>)
      ensures this.selected == selected && this.active == active
    {
      this.selected := selected;
      this.active := active;
    }
  }

  /** The viewport visibility flags: the names of the objects with `hide_viewport` set. */
  class Visibility {
    var hidden: set<string>

    constructor(hidden: set<string>)
      ensures this.hidden == hidden
    {
      this.hidden := hidden;
    }
  }

  /** The names of `names` that still exist, in order: what re-selecting the saved selection
      leaves selected. */
  function Present(names: seq<string>, existing: set<string>): (r: seq<string>)
    ensures forall x :: x in r <==> x in names && x in existing
    ensures |r| <= |names|
    decreases |names|
  {
    if names == [] then []
    else Present(names[..|names| - 1], existing) + (if names[|names| - 1] in existing then [names[|names| - 1]] else [])
  }

  /** Re-selecting a selection whose objects all exist gives it back. */
  lemma PresentAll(names: seq<string>, existing: set<string>)
    requires forall x :: x in names ==> x in existing
    ensures Present(names, existing) == names
  {
    PresentEvery(names, existing);
  }

  lemma {:induction false} PresentEvery(names: seq<string>, existing: set<string>)
    requires forall i :: 0 <= i < |names| ==> names[i] in existing
    ensures Present(names, existing) == names
    decreases |names|
  {
    if names != [] {
      var prefix := names[..|names| - 1];
      assert forall i :: 0 <= i < |prefix| ==> prefix[i] == names[i];
      PresentEvery(prefix, existing);
      assert names == prefix + [names[|names| - 1]];
    }
  }

  /** The restore loop of `smart_uv_unwrap` and `decimate_with_modifier`: re-select each saved
      object that still exists. */
  method Reselect(saved: seq<string>, existing: set<string>) returns (selected: seq<string>)
    ensures selected == Present(saved, existing)
  {
    selected := [];
    var i := 0;
    while i < |saved|
      invariant 0 <= i <= |saved|
      invariant selected == Present(saved[..i], existing)
    {
      assert saved[..i + 1][..i] == saved[..i];
      if saved[i] in existing {
        selected := selected + [saved[i]];
      }
      i := i + 1;
    }
    assert saved[..i] == saved;
  }

  /** `len` is the length of the longest name in `names`. */
  predicate IsLongest(len: nat, names: set<string>) {
    (exists n :: n in names && |n| == len) && forall m :: m in names ==> |m| <= len
  }

  /** A non-empty set of names has a longest length. */
  lemma {:induction false} LongestExists(names: set<string>)
    requires names != {}
    ensures exists len: nat :: IsLongest(len, names)
    decreases names
  {
    var x :| x in names;
    if names - {x} != {} {
      LongestExists(names - {x});
      var len: nat :| IsLongest(len, names - {x});
      if |x| > len {
        assert IsLongest(|x|, names);
      } else {
        var y :| y in names - {x} && |y| == len;
        assert IsLongest(len, names);
      }
    } else {
      assert names == {x};
      assert IsLongest(|x|, names);
    }
  }

  /** The length of the longest name in a set. */
  function LongestName(names: set<string>): (r: nat)
    ensures forall n :: n in names ==> |n| <= r
  {
    if names == {} then 0
    else
      LongestExists(names);
      var len: nat :| IsLongest(len, names);
      len
  }

  /** The name Blender gives a new or renamed datablock: the requested name when no datablock
      of that kind has it, otherwise the requested name with a suffix no existing name
      carries. Blender counts `.001`, `.002`, ...; the model keeps only that the result starts
      with the request and is new. */
  function FreshName(base: string, taken: set<string>): (r: string)
    ensures r !in taken
    ensures |base| <= |r| && r[..|base|] == base
    ensures base !in taken ==> r == base
  {
    if base !in taken then base
    else base + "." + seq(LongestName(taken), _ => '0')
  }
}
