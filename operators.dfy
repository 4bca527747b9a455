/** The settings operators of `core/operators.py`: the subdivision-level probe, the
    candidate list for subdivision exclusion, the exclusion and override list operators, the
    material jump into the Shading workspace, and the export operator's poll. */
module Operators {
  import opened Wrappers
  import opened Scene
  import opened Properties
  import MaterialAnalyzer
  import Strings

  datatype OperatorResult = Finished | Cancelled

  /** `get_object_subdiv_level`: the effective level of the object's first SUBSURF modifier,
      0 for a missing object, a non-mesh or a mesh without SUBSURF. */
  function SubdivLevel(objects: seq<Obj>, name: string): (r: int)
    ensures Find(objects, name).None? ==> r == 0
    ensures Find(objects, name).Some? && Find(objects, name).value.kind != Mesh ==> r == 0
    ensures Find(objects, name).Some? && Find(objects, name).value.kind == Mesh ==>
              var mods := Find(objects, name).value.modifiers;
              (r == 0 && forall j :: 0 <= j < |mods| ==> mods[j].kind != Subsurf)
              || exists k :: 0 <= k < |mods| && mods[k].kind == Subsurf && r == EffectiveLevel(mods[k])
                             && forall j :: 0 <= j < k ==> mods[j].kind != Subsurf
  {
    match Find(objects, name)
    case None => 0
    case Some(o) =>
      if o.kind != Mesh then 0
      else match FirstSubsurf(o.modifiers)
        case None => 0
        case Some(k) => EffectiveLevel(o.modifiers[k])
  }

  /** Whether `get_subdiv_objects_for_exclusion` lists `o`: a mesh whose first SUBSURF
      modifier is above the override level, and not already excluded. */
  predicate ExclusionCandidate(o: Obj, excluded: seq<string>, overrideLevel: int) {
    o.kind == Mesh && FirstSubsurf(o.modifiers).Some?
    && EffectiveLevel(o.modifiers[FirstSubsurf(o.modifiers).value]) > overrideLevel
    && o.name !in excluded
  }

  /** The names of the non-empty exclusion entries. */
  function NonEmpty(names: seq<string>): (r: seq<string>)
    ensures forall n :: n in r <==> n in names && n != ""
    decreases |names|
  {
    if names == [] then [] else (if names[0] != "" then [names[0]] else []) + NonEmpty(names[1..])
  }

  /** The candidates, in object order. */
  function Candidates(objects: seq<Obj>, excluded: seq<string>, overrideLevel: int): (r: seq<string>)
    ensures forall n :: n in r <==> exists o :: o in objects && o.name == n && ExclusionCandidate(o, excluded, overrideLevel)
    decreases |objects|
  {
    if objects == [] then []
    else
      (if ExclusionCandidate(objects[0], excluded, overrideLevel) then [objects[0].name] else [])
      + Candidates(objects[1..], excluded, overrideLevel)
  }

  datatype EnumItem = EnumItem(identifier: string, name: string, description: string)

  const NoCandidates := [EnumItem("", "No objects to exclude", "")]

  function Items(names: seq<string>): (r: seq<EnumItem>)
    ensures |r| == |names| && forall i :: 0 <= i < |names| ==> r[i] == EnumItem(names[i], names[i], "")
    decreases |names|
  {
    if names == [] then [] else [EnumItem(names[0], names[0], "")] + Items(names[1..])
  }

  /** `get_subdiv_objects_for_exclusion`. */
  method SubdivObjectsForExclusion(objects: seq<Obj>, excludeList: seq<string>, overrideLevel: int)
    returns (items: seq<EnumItem>)
    ensures var c := Candidates(objects, NonEmpty(excludeList), overrideLevel);
            items == if c == [] then NoCandidates else Items(c)
    ensures items != []
  {
    var excluded := NonEmpty(excludeList);
    var names: seq<string> := [];
    var i := 0;
    while i < |objects|
      invariant 0 <= i <= |objects|
      invariant names + Candidates(objects[i..], excluded, overrideLevel) == Candidates(objects, excluded, overrideLevel)
    {
      CandidatesFrom(objects, i, excluded, overrideLevel);
      var o := objects[i];
      if o.kind == Mesh {
        var k := FirstSubsurf(o.modifiers);
        if k.Some? && EffectiveLevel(o.modifiers[k.value]) > overrideLevel && o.name !in excluded {
          names := names + [o.name];
        }
      }
      i := i + 1;
    }
    assert objects[i..] == [];
    items := if names == [] then NoCandidates else Items(names);
  }

  /** The candidates from object `i` on: that object's name if it is one, then the rest. */
  lemma CandidatesFrom(objects: seq<Obj>, i: nat, excluded: seq<string>, overrideLevel: int)
    requires i < |objects|
    ensures Candidates(objects[i..], excluded, overrideLevel)
            == (if ExclusionCandidate(objects[i], excluded, overrideLevel) then [objects[i].name] else [])
               + Candidates(objects[i + 1..], excluded, overrideLevel)
  {
    assert objects[i..][1..] == objects[i + 1..];
  }

  /** The duplicate scan of the add operators. */
  method Contains(list: seq<string>, name: string) returns (found: bool)
    ensures found <==> name in list
  {
    var i := 0;
    while i < |list|
      invariant 0 <= i <= |list|
      invariant name !in list[..i]
    {
      if list[i] == name {
        return true;
      }
      assert list[..i + 1] == list[..i] + [list[i]];
      i := i + 1;
    }
    assert list[..i] == list;
    return false;
  }

  predicate NoDuplicates<T(==)>(s: seq<T>) {
    forall i, j :: 0 <= i < j < |s| ==> s[i] != s[j]
  }

  /** The list after an add operator: unchanged when the name is already present. */
  function AddUnique(list: seq<string>, name: string): (r: seq<string>)
    ensures name in r
    ensures forall n :: n in r <==> n in list || n == name
  {
    if name in list then list else list + [name]
  }

  /** Adding never creates a duplicate. */
  lemma AddUniqueKeepsNoDuplicates(list: seq<string>, name: string)
    requires NoDuplicates(list)
    ensures NoDuplicates(AddUnique(list, name))
  {
  }

  /** The list after a remove-by-index operator. */
  function RemoveAt<T>(list: seq<T>, index: int): (r: seq<T>)
    ensures 0 <= index < |list| ==> |r| == |list| - 1
                                    && forall k :: 0 <= k < |r| ==> r[k] == (if k < index then list[k] else list[k + 1])
    ensures !(0 <= index < |list|) ==> r == list
    ensures forall x :: x in r ==> x in list
  {
    if 0 <= index < |list| then list[..index] + list[index + 1..] else list
  }

  /** `FRAMO_OT_add_excluded_material.execute`. */
  method AddExcludedMaterial(settings: ExportSettings, materialName: string) returns (r: OperatorResult)
    modifies settings`textureExcludeMaterials
    ensures r == Cancelled <==> materialName in old(settings.textureExcludeMaterials)
    ensures settings.textureExcludeMaterials == AddUnique(old(settings.textureExcludeMaterials), materialName)
  {
    var dup := Contains(settings.textureExcludeMaterials, materialName);
    if dup {
      return Cancelled;
    }
    settings.textureExcludeMaterials := settings.textureExcludeMaterials + [materialName];
    return Finished;
  }

  /** `FRAMO_OT_remove_excluded_material.execute`. */
  method RemoveExcludedMaterial(settings: ExportSettings, index: int) returns (r: OperatorResult)
    modifies settings`textureExcludeMaterials
    ensures r == Finished
    ensures settings.textureExcludeMaterials == RemoveAt(old(settings.textureExcludeMaterials), index)
  {
    if 0 <= index < |settings.textureExcludeMaterials| {
      settings.textureExcludeMaterials := settings.textureExcludeMaterials[..index]
                                          + settings.textureExcludeMaterials[index + 1..];
    }
    return Finished;
  }

  /** `FRAMO_OT_add_excluded_subdiv_object.execute`: an empty name is cancelled too. */
  method AddExcludedSubdivObject(settings: ExportSettings, objectName: string) returns (r: OperatorResult)
    modifies settings`subdivExcludeObjects
    ensures r == Cancelled <==> objectName == "" || objectName in old(settings.subdivExcludeObjects)
    ensures settings.subdivExcludeObjects ==
              if objectName == "" then old(settings.subdivExcludeObjects)
              else AddUnique(old(settings.subdivExcludeObjects), objectName)
  {
    if objectName == "" {
      return Cancelled;
    }
    var dup := Contains(settings.subdivExcludeObjects, objectName);
    if dup {
      return Cancelled;
    }
    settings.subdivExcludeObjects := settings.subdivExcludeObjects + [objectName];
    return Finished;
  }

  /** `FRAMO_OT_remove_excluded_subdiv_object.execute`. */
  method RemoveExcludedSubdivObject(settings: ExportSettings, index: int) returns (r: OperatorResult)
    modifies settings`subdivExcludeObjects
    ensures r == Finished
    ensures settings.subdivExcludeObjects == RemoveAt(old(settings.subdivExcludeObjects), index)
  {
    if 0 <= index < |settings.subdivExcludeObjects| {
      settings.subdivExcludeObjects := settings.subdivExcludeObjects[..index] + settings.subdivExcludeObjects[index + 1..];
    }
    return Finished;
  }

  /** The name of each subdivision override, in order. */
  function SubdivNames(list: seq<SubdivOverride>): (r: seq<string>)
    ensures |r| == |list| && forall i :: 0 <= i < |list| ==> r[i] == list[i].objectName
    decreases |list|
  {
    if list == [] then [] else [list[0].objectName] + SubdivNames(list[1..])
  }

  function DecimateNames(list: seq<DecimateOverride>): (r: seq<string>)
    ensures |r| == |list| && forall i :: 0 <= i < |list| ==> r[i] == list[i].objectName
    decreases |list|
  {
    if list == [] then [] else [list[0].objectName] + DecimateNames(list[1..])
  }

  /** The `enumerate` scan of the toggle and remove operators: the first index holding `name`,
      or `|names|` when there is none. */
  method FirstIndexOf(names: seq<string>, name: string) returns (i: nat)
    ensures i <= |names|
    ensures i < |names| ==> names[i] == name
    ensures forall j :: 0 <= j < i ==> names[j] != name
  {
    i := 0;
    while i < |names| && names[i] != name
      invariant 0 <= i <= |names|
      invariant forall j :: 0 <= j < i ==> names[j] != name
    {
      i := i + 1;
    }
  }

  /** Index of the first entry with `name` (specification of `FirstIndexOf`). */
  function IndexOf(names: seq<string>, name: string): (r: nat)
    ensures r <= |names|
    ensures r < |names| ==> names[r] == name
    ensures forall j :: 0 <= j < r ==> names[j] != name
    ensures r == |names| <==> name !in names
    decreases |names|
  {
    if names == [] then 0 else if names[0] == name then 0 else 1 + IndexOf(names[1..], name)
  }

  lemma IndexOfUnique(names: seq<string>, name: string, i: nat)
    requires i <= |names| && (i < |names| ==> names[i] == name)
    requires forall j :: 0 <= j < i ==> names[j] != name
    ensures i == IndexOf(names, name)
  {
  }

  /** Toggle: drop the first entry for `name` if there is one, else append `entry`. */
  function ToggleEntry<T>(list: seq<T>, names: seq<string>, name: string, entry: T): seq<T>
    requires |names| == |list|
  {
    var k := IndexOf(names, name);
    if k < |list| then RemoveAt(list, k) else list + [entry]
  }

  /** Toggling a name that has no entry, then toggling it again, restores the list. */
  lemma ToggleTwiceSubdiv(list: seq<SubdivOverride>, name: string, level: int, level': int)
    requires name !in SubdivNames(list)
    ensures var once := ToggleEntry(list, SubdivNames(list), name, SubdivOverride(name, level));
            ToggleEntry(once, SubdivNames(once), name, SubdivOverride(name, level')) == list
  {
    var once := list + [SubdivOverride(name, level)];
    assert IndexOf(SubdivNames(list), name) == |list|;
    assert ToggleEntry(list, SubdivNames(list), name, SubdivOverride(name, level)) == once;
    IndexOfUnique(SubdivNames(once), name, |list|);
    assert once[..|list|] == list;
  }

  lemma ToggleTwiceDecimate(list: seq<DecimateOverride>, name: string, ratio: real, ratio': real)
    requires name !in DecimateNames(list)
    ensures var once := ToggleEntry(list, DecimateNames(list), name, DecimateOverride(name, ratio));
            ToggleEntry(once, DecimateNames(once), name, DecimateOverride(name, ratio')) == list
  {
    var once := list + [DecimateOverride(name, ratio)];
    assert IndexOf(DecimateNames(list), name) == |list|;
    assert ToggleEntry(list, DecimateNames(list), name, DecimateOverride(name, ratio)) == once;
    IndexOfUnique(DecimateNames(once), name, |list|);
    assert once[..|list|] == list;
  }

  /** What `override_level` holds after an assignment: Blender clamps it to the declared
      range 0..6. */
  function StoredOverrideLevel(level: int): (r: int)
    ensures SubdivOverrideInBounds(SubdivOverride("", r))
    ensures 0 <= level <= 6 ==> r == level
    ensures level > 6 ==> r == 6
  {
    if level < 0 then 0 else if level > 6 then 6 else level
  }

  /** `FRAMO_OT_toggle_subdiv_exclusion.execute`: the new override records the object's
      current subdivision level, as far as the property's range allows. */
  method ToggleSubdivExclusion(settings: ExportSettings, objects: seq<Obj>, objectName: string)
    returns (r: OperatorResult)
    modifies settings`subdivIndividualOverrides
    ensures r == Finished
    ensures var old_ := old(settings.subdivIndividualOverrides);
            settings.subdivIndividualOverrides ==
              ToggleEntry(old_, SubdivNames(old_), objectName, SubdivOverride(objectName, StoredOverrideLevel(SubdivLevel(objects, objectName))))
    ensures old(settings.Valid()) ==> settings.Valid()
  {
    var i := FirstIndexOf(SubdivNames(settings.subdivIndividualOverrides), objectName);
    IndexOfUnique(SubdivNames(settings.subdivIndividualOverrides), objectName, i);
    if i < |settings.subdivIndividualOverrides| {
      settings.subdivIndividualOverrides := RemoveAt(settings.subdivIndividualOverrides, i);
      return Finished;
    }
    settings.subdivIndividualOverrides :=
      settings.subdivIndividualOverrides + [SubdivOverride(objectName, StoredOverrideLevel(SubdivLevel(objects, objectName)))];
    return Finished;
  }

  /** `FRAMO_OT_add_individual_subdiv_override.execute`. */
  method AddIndividualSubdivOverride(settings: ExportSettings, objects: seq<Obj>, objectName: string)
    returns (r: OperatorResult)
    modifies settings`subdivIndividualOverrides
    ensures r == Cancelled <==> objectName in SubdivNames(old(settings.subdivIndividualOverrides))
    ensures settings.subdivIndividualOverrides ==
              if r == Cancelled then old(settings.subdivIndividualOverrides)
              else old(settings.subdivIndividualOverrides) + [SubdivOverride(objectName, StoredOverrideLevel(SubdivLevel(objects, objectName)))]
    ensures old(settings.Valid()) ==> settings.Valid()
  {
    var dup := Contains(SubdivNames(settings.subdivIndividualOverrides), objectName);
    if dup {
      return Cancelled;
    }
    settings.subdivIndividualOverrides :=
      settings.subdivIndividualOverrides + [SubdivOverride(objectName, StoredOverrideLevel(SubdivLevel(objects, objectName)))];
    return Finished;
  }

  /** `FRAMO_OT_remove_individual_subdiv_override.execute`: only the first match goes. */
  method RemoveIndividualSubdivOverride(settings: ExportSettings, objectName: string) returns (r: OperatorResult)
    modifies settings`subdivIndividualOverrides
    ensures r == Finished
    ensures var old_ := old(settings.subdivIndividualOverrides);
            settings.subdivIndividualOverrides == RemoveAt(old_, IndexOf(SubdivNames(old_), objectName))
    ensures old(settings.Valid()) ==> settings.Valid()
  {
    var i := FirstIndexOf(SubdivNames(settings.subdivIndividualOverrides), objectName);
    IndexOfUnique(SubdivNames(settings.subdivIndividualOverrides), objectName, i);
    if i < |settings.subdivIndividualOverrides| {
      settings.subdivIndividualOverrides := RemoveAt(settings.subdivIndividualOverrides, i);
    }
    return Finished;
  }

  /** `FRAMO_OT_toggle_decimate_exclusion.execute`: a new override takes the global ratio. */
  method ToggleDecimateExclusion(settings: ExportSettings, objectName: string) returns (r: OperatorResult)
    modifies settings`decimateIndividualOverrides
    ensures r == Finished
    ensures var old_ := old(settings.decimateIndividualOverrides);
            settings.decimateIndividualOverrides ==
              ToggleEntry(old_, DecimateNames(old_), objectName, DecimateOverride(objectName, settings.decimateRatio))
    ensures old(settings.Valid()) ==> settings.Valid()
  {
    var i := FirstIndexOf(DecimateNames(settings.decimateIndividualOverrides), objectName);
    IndexOfUnique(DecimateNames(settings.decimateIndividualOverrides), objectName, i);
    if i < |settings.decimateIndividualOverrides| {
      settings.decimateIndividualOverrides := RemoveAt(settings.decimateIndividualOverrides, i);
      return Finished;
    }
    settings.decimateIndividualOverrides :=
      settings.decimateIndividualOverrides + [DecimateOverride(objectName, settings.decimateRatio)];
    return Finished;
  }

  /** `FRAMO_OT_add_individual_decimate_override.execute`. */
  method AddIndividualDecimateOverride(settings: ExportSettings, objectName: string) returns (r: OperatorResult)
    modifies settings`decimateIndividualOverrides
    ensures r == Cancelled <==> objectName in DecimateNames(old(settings.decimateIndividualOverrides))
    ensures settings.decimateIndividualOverrides ==
              if r == Cancelled then old(settings.decimateIndividualOverrides)
              else old(settings.decimateIndividualOverrides) + [DecimateOverride(objectName, settings.decimateRatio)]
    ensures old(settings.Valid()) ==> settings.Valid()
  {
    var dup := Contains(DecimateNames(settings.decimateIndividualOverrides), objectName);
    if dup {
      return Cancelled;
    }
    settings.decimateIndividualOverrides :=
      settings.decimateIndividualOverrides + [DecimateOverride(objectName, settings.decimateRatio)];
    return Finished;
  }

  /** `FRAMO_OT_remove_individual_decimate_override.execute`. */
  method RemoveIndividualDecimateOverride(settings: ExportSettings, objectName: string) returns (r: OperatorResult)
    modifies settings`decimateIndividualOverrides
    ensures r == Finished
    ensures var old_ := old(settings.decimateIndividualOverrides);
            settings.decimateIndividualOverrides == RemoveAt(old_, IndexOf(DecimateNames(old_), objectName))
    ensures old(settings.Valid()) ==> settings.Valid()
  {
    var i := FirstIndexOf(DecimateNames(settings.decimateIndividualOverrides), objectName);
    IndexOfUnique(DecimateNames(settings.decimateIndividualOverrides), objectName, i);
    if i < |settings.decimateIndividualOverrides| {
      settings.decimateIndividualOverrides := RemoveAt(settings.decimateIndividualOverrides, i);
    }
    return Finished;
  }

  /** A mesh with a slot holding the material. */
  predicate HoldsMaterial(o: Obj, material: string) {
    o.kind == Mesh && Some(material) in o.slots
  }

  /** The search of `open_material_in_shading` over one object list: the first mesh holding
      the material, with its first slot index. */
  method FindHolder(objects: seq<Obj>, material: string) returns (r: Option<(nat, nat)>)
    ensures r.None? ==> forall o :: o in objects ==> !HoldsMaterial(o, material)
    ensures r.Some? ==> var (i, slot) := r.value;
              i < |objects| && HoldsMaterial(objects[i], material)
              && FirstSlotWith(objects[i].slots, material) == Some(slot)
              && forall j :: 0 <= j < i ==> !HoldsMaterial(objects[j], material)
  {
    var i := 0;
    while i < |objects|
      invariant 0 <= i <= |objects|
      invariant forall j :: 0 <= j < i ==> !HoldsMaterial(objects[j], material)
    {
      if objects[i].kind == Mesh {
        var s := FirstSlotWith(objects[i].slots, material);
        if s.Some? {
          return Some((i, s.value));
        }
      }
      i := i + 1;
    }
    return None;
  }

  /** `FRAMO_OT_open_material_in_shading.execute`: `selected` are the selected objects,
      `objects` every object of the file (`bpy.data.objects`); `materials` names the materials
      that exist. The holder is looked for in the selection first. Once one is found the
      selection is cleared; `select_set(True)` then raises `RuntimeError` for a holder outside
      the view layer, and the operator ends cancelled (`raised`) with nothing selected. Otherwise
      the holder becomes the only selected object and the active one, and its active slot is
      the one holding the material, so the final active-material assignment is a no-op. */
  method OpenMaterialInShading(view: ViewState, selected: seq<Obj>, objects: seq<Obj>,
                               materials: set<string>, material: string)
    returns (r: OperatorResult, target: Option<Obj>, activeSlot: nat, raised: bool)
    modifies view
    ensures material !in materials ==> r == Cancelled && target.None?
    ensures r == Cancelled <==> target.None? || raised
    ensures raised <==> target.Some? && !target.value.inViewLayer
    ensures target.None? ==> view.selected == old(view.selected) && view.active == old(view.active)
    ensures raised ==> view.selected == [] && view.active == old(view.active)
    ensures material in materials && (exists o :: o in selected && HoldsMaterial(o, material)) ==>
              target.Some? && target.value in selected
    ensures material in materials && (exists o :: o in objects && HoldsMaterial(o, material)) ==> target.Some?
    ensures target.Some? ==> HoldsMaterial(target.value, material) && target.value in selected + objects
    ensures r == Finished ==> FirstSlotWith(target.value.slots, material) == Some(activeSlot)
    ensures r == Finished ==> activeSlot < |target.value.slots| && target.value.slots[activeSlot] == Some(material)
    ensures r == Finished ==> view.selected == [target.value.name] && view.active == Some(target.value.name)
  {
    if material !in materials {
      return Cancelled, None, 0, false;
    }
    var hit := FindHolder(selected, material);
    var from := selected;
    if hit.None? {
      hit := FindHolder(objects, material);
      from := objects;
    }
    if hit.None? {
      return Cancelled, None, 0, false;
    }
    var (i, slot) := hit.value;
    target := Some(from[i]);
    view.selected := [];
    if !from[i].inViewLayer {
      return Cancelled, target, 0, true;
    }
    view.selected := [from[i].name];
    view.active := Some(from[i].name);
    return Finished, target, slot, false;
  }

  /** `FRAMO_OT_export_to_web.poll`: a connected user name and a non-empty selection. */
  function ExportPoll(userName: Option<string>, selected: seq<string>): (r: bool)
    ensures r <==> userName.Some? && userName.value != "" && selected != []
  {
    match userName
    case None => false
    case Some(n) => n != "" && selected != []
  }

  /** `FRAMO_OT_replace_material_execute.execute`: cancelled unless both materials exist;
      otherwise warns when the new material is not ready and repoints the old one's slots. */
  method ReplaceMaterialExecute(store: map<string, MaterialAnalyzer.Material>, oldName: string, newName: string,
                                selected: seq<Obj>, sceneObjects: seq<Obj>)
    returns (r: OperatorResult, warned: bool, updated: seq<Obj>, count: nat)
    ensures r == Cancelled <==> oldName !in store || newName !in store
    ensures r == Cancelled ==> !warned && count == 0
    ensures r == Finished ==>
              warned == !MaterialAnalyzer.ReadyMaterial(Some(store[newName]))
              && count == MaterialAnalyzer.TotalHits(if selected != [] then selected else sceneObjects, oldName)
    ensures r == Finished && oldName != newName ==>
              forall o :: o in updated && MaterialAnalyzer.Scanned(o) ==> Some(oldName) !in o.slots
  {
    if oldName !in store || newName !in store {
      return Cancelled, false, [], 0;
    }
    var report := MaterialAnalyzer.AnalyzeMaterialReadiness(Some(store[newName]));
    warned := !report.isReady;
    updated, count := MaterialAnalyzer.ReplaceMaterialOnObjects(Some(oldName), Some(newName), selected, sceneObjects);
    r := Finished;
  }

  /** `FRAMO_OT_reset_export_settings.execute`. Unsetting `use_draco` and the compression level
      gives their defaults, and assigning MEDIUM runs the preset's update hook, so every Draco
      field ends at the MEDIUM values; decimation is switched off at ratio 0.1 and texture
      optimisation on at 1024 px. Nothing else changes. */
  method ResetExportSettings(settings: ExportSettings) returns (r: OperatorResult)
    modifies settings
    ensures r == Finished
    ensures settings.compressionPreset == Medium
    ensures settings.DracoSettings() == DefaultDraco
    ensures !settings.enableDecimation && settings.decimateRatio == 0.1
    ensures settings.enableTextureOptimization && settings.textureMaxSize == 1024
    ensures old(settings.Valid()) ==> settings.Valid()
    ensures unchanged(settings`decimateType, settings`enableAutoUv, settings`enableUvAtlasing,
                      settings`atlasMinObjects, settings`enableSubdivOverride, settings`subdivOverrideLevel,
                      settings`subdivExcludeObjects, settings`subdivIndividualOverrides)
    ensures unchanged(settings`decimateExcludeObjects, settings`decimateIndividualOverrides,
                      settings`textureExcludeMaterials, settings`exportStatus, settings`isExporting)
  {
    settings.useDraco := true;
    settings.dracoCompressionLevel := 6;
    settings.compressionPreset := Medium;
    settings.UpdateCompressionPreset();
    settings.enableDecimation := false;
    settings.decimateRatio := 0.1;
    settings.enableTextureOptimization := true;
    settings.textureMaxSize := 1024;
    r := Finished;
  }

  /** The material of that name exists and is ready. */
  ghost predicate ReadyName(store: map<string, MaterialAnalyzer.Material>, name: string) {
    MaterialAnalyzer.ReadyMaterial(MaterialAnalyzer.Lookup(store, name))
  }

  /** The readiness of each listed material, in order. */
  ghost function Readiness(names: seq<string>, store: map<string, MaterialAnalyzer.Material>): (r: seq<bool>)
    ensures |r| == |names| && forall k :: 0 <= k < |names| ==> r[k] == ReadyName(store, names[k])
  {
    seq(|names|, k requires 0 <= k < |names| => ReadyName(store, names[k]))
  }

  /** Number of `true` flags. */
  function CountTrue(flags: seq<bool>): nat
    decreases |flags|
  {
    if flags == [] then 0 else CountTrue(flags[..|flags| - 1]) + (if flags[|flags| - 1] then 1 else 0)
  }

  /** At most every flag is set, and all of them exactly when none is clear. */
  lemma {:induction false} CountTrueBounds(flags: seq<bool>)
    ensures CountTrue(flags) <= |flags|
    ensures CountTrue(flags) == |flags| <==> forall k :: 0 <= k < |flags| ==> flags[k]
    decreases |flags|
  {
    if flags != [] {
      var init := flags[..|flags| - 1];
      CountTrueBounds(init);
      assert forall k :: 0 <= k < |init| ==> init[k] == flags[k];
    }
  }

  /** `FRAMO_OT_analyze_materials.execute`: the report's two numbers, the materials analysed and
      the ready ones among them. `names` is the list `get_materials_to_analyze` makes of the
      selection's materials, in the order their set yields them. */
  method AnalyzeMaterials(selected: seq<Obj>, collections: map<string, seq<Obj>>, names: seq<string>,
                          store: map<string, MaterialAnalyzer.Material>)
    returns (total: nat, ready: nat)
    requires Strings.Enumerates(names, MaterialAnalyzer.MaterialsToAnalyze(selected, collections))
    ensures total == |names| == |MaterialAnalyzer.MaterialsToAnalyze(selected, collections)|
    ensures ready == CountTrue(Readiness(names, store))
    ensures ready <= total
    ensures ready == total <==>
              forall m :: m in MaterialAnalyzer.MaterialsToAnalyze(selected, collections) ==> ReadyName(store, m)
  {
    ghost var s := MaterialAnalyzer.MaterialsToAnalyze(selected, collections);
    ready := CountReady(names, store);
    total := |names|;
    Strings.EnumerationSize(names, s);
    EnumeratedReady(names, s, store);
  }

  /** The loop of `execute`: the materials of `names` that are ready. */
  method CountReady(names: seq<string>, store: map<string, MaterialAnalyzer.Material>) returns (ready: nat)
    ensures ready == CountTrue(Readiness(names, store))
    ensures ready <= |names|
    ensures ready == |names| <==> forall k :: 0 <= k < |names| ==> ReadyName(store, names[k])
  {
    ready := 0;
    var i := 0;
    while i < |names|
      invariant 0 <= i <= |names|
      invariant ready == CountTrue(Readiness(names, store)[..i])
    {
      var report := MaterialAnalyzer.AnalyzeMaterialReadiness(MaterialAnalyzer.Lookup(store, names[i]));
      assert Readiness(names, store)[..i + 1][..i] == Readiness(names, store)[..i];
      if report.isReady {
        ready := ready + 1;
      }
      i := i + 1;
    }
    assert Readiness(names, store)[..i] == Readiness(names, store);
    CountTrueBounds(Readiness(names, store));
  }

  /** Every entry of an enumeration is ready exactly when every element of the set is. */
  lemma EnumeratedReady(names: seq<string>, s: set<string>, store: map<string, MaterialAnalyzer.Material>)
    requires Strings.Enumerates(names, s)
    ensures (forall k :: 0 <= k < |names| ==> ReadyName(store, names[k])) <==> (forall m :: m in s ==> ReadyName(store, m))
  {
    if forall k :: 0 <= k < |names| ==> ReadyName(store, names[k]) {
      forall m | m in s ensures ReadyName(store, m) {
        var k :| 0 <= k < |names| && names[k] == m;
      }
    }
  }
}
