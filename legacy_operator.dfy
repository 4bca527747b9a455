/** The add-on's older entry point, kept in `__init__.py`: its own settings group and preset
    callback, the `Export to Web` operator that works on temporary copies of the selected
    meshes and deletes them again in a `finally` block, the material-details toggle and the
    settings reset. */
module LegacyOperator {
  import opened Wrappers
  import opened Strings
  import opened Scene
  import Properties
  import ES = ExportService
  import UvUnwrap
  import MaterialAnalyzer

  // ---------------------------------------------------------------------------------------
  // Settings

  /** The options `repair_object` is called with. */
  datatype RepairFlags = RepairFlags(duplicateVerts: bool, duplicateFaces: bool, unreferencedVerts: bool,
                                     fixNormals: bool, fillHoles: bool, degenerate: bool, watertight: bool)

  /** The legacy `FramoExportSettings` fields the operator reads or writes. */
  class LegacySettings {
    var useDraco: bool
    var dracoCompressionLevel: int
    var dracoQuantizationPosition: int
    var dracoQuantizationNormal: int
    var dracoQuantizationTexcoord: int
    var compressionPreset: Properties.CompressionPreset
    var enableDecimation: bool
    var decimateRatio: real
    var decimateType: Properties.DecimateType
    var enableAutoUv: bool
    var enableMeshRepair: bool
    var repairFlags: RepairFlags
    var decimationMethod: string

    function DracoSettings(): Properties.Draco
      reads this
    {
      Properties.Draco(useDraco, dracoCompressionLevel, dracoQuantizationPosition, dracoQuantizationNormal,
                       dracoQuantizationTexcoord)
    }

    /** The declared defaults. Draco starts switched off although the preset starts at MEDIUM,
        whose values switch it on: the callback only runs when the preset is changed. */
    constructor()
      ensures DracoSettings() == Properties.DefaultDraco.(enabled := false)
      ensures compressionPreset == Properties.Medium
      ensures enableDecimation && decimateRatio == 0.1 && decimateType == Properties.Collapse
      ensures enableAutoUv && !enableMeshRepair && decimationMethod == "AUTO"
      ensures repairFlags == RepairFlags(true, true, true, true, false, true, false)
    {
      useDraco, dracoCompressionLevel := false, 6;
      dracoQuantizationPosition, dracoQuantizationNormal, dracoQuantizationTexcoord := 14, 10, 12;
      compressionPreset := Properties.Medium;
      enableDecimation, decimateRatio, decimateType := true, 0.1, Properties.Collapse;
      enableAutoUv, enableMeshRepair := true, false;
      repairFlags := RepairFlags(true, true, true, true, false, true, false);
      decimationMethod := "AUTO";
    }

    /** `update_compression_preset`: the same table as the current settings group, so the
        Draco fields become what `Properties.ApplyPreset` says. */
    method UpdateCompressionPreset()
      modifies this`useDraco, this`dracoCompressionLevel, this`dracoQuantizationPosition,
               this`dracoQuantizationNormal, this`dracoQuantizationTexcoord
      ensures DracoSettings() == Properties.ApplyPreset(compressionPreset, old(DracoSettings()))
    {
      if compressionPreset == Properties.NoCompression {
        useDraco := false;
      } else if compressionPreset == Properties.Low {
        useDraco, dracoCompressionLevel := true, 3;
        dracoQuantizationPosition, dracoQuantizationNormal, dracoQuantizationTexcoord := 16, 12, 14;
      } else if compressionPreset == Properties.Medium {
        useDraco, dracoCompressionLevel := true, 6;
        dracoQuantizationPosition, dracoQuantizationNormal, dracoQuantizationTexcoord := 14, 10, 12;
      } else if compressionPreset == Properties.High {
        useDraco, dracoCompressionLevel := true, 10;
        dracoQuantizationPosition, dracoQuantizationNormal, dracoQuantizationTexcoord := 11, 8, 10;
      }
    }

    /** `FRAMO_OT_reset_export_settings.execute`: the MEDIUM preset with its Draco values,
        auto-UV and decimation on at ratio 0.1; the repair options and the method stay. */
    method ResetExportSettings() returns (report: ES.Report)
      modifies this`compressionPreset, this`useDraco, this`dracoCompressionLevel, this`dracoQuantizationPosition,
               this`dracoQuantizationNormal, this`dracoQuantizationTexcoord, this`enableAutoUv,
               this`enableDecimation, this`decimateRatio
      ensures compressionPreset == Properties.Medium
      ensures forall d :: DracoSettings() == Properties.ApplyPreset(Properties.Medium, d)
      ensures enableAutoUv && enableDecimation && decimateRatio == 0.1
      ensures report == ES.Report(ES.Info, "Export settings reset to defaults")
    {
      compressionPreset := Properties.Medium;
      useDraco, dracoCompressionLevel := true, 6;
      dracoQuantizationPosition, dracoQuantizationNormal, dracoQuantizationTexcoord := 14, 10, 12;
      enableAutoUv := true;
      enableDecimation, decimateRatio := true, 0.1;
      report := ES.Report(ES.Info, "Export settings reset to defaults");
    }
  }

  // ---------------------------------------------------------------------------------------
  // Material details toggle

  /** The expanded state of a material's details: False until toggled. */
  function Expanded(states: map<string, bool>, name: string): bool {
    name in states && states[name]
  }

  /** The toggle on the state map. */
  function Toggled(states: map<string, bool>, name: string): (r: map<string, bool>)
    ensures r.Keys == states.Keys + {name}
    ensures Expanded(r, name) == !Expanded(states, name)
    ensures forall n :: n in states && n != name ==> r[n] == states[n]
  {
    states[name := !Expanded(states, name)]
  }

  /** Toggling twice restores the expanded state of every material; only an entry the map
      lacked is left behind, holding False. */
  lemma ToggleTwice(states: map<string, bool>, name: string)
    ensures forall n :: Expanded(Toggled(Toggled(states, name), name), n) == Expanded(states, n)
    ensures Toggled(Toggled(states, name), name) == states[name := Expanded(states, name)]
    ensures name in states ==> Toggled(Toggled(states, name), name) == states
  {
    var once := Toggled(states, name);
    assert Expanded(once, name) == !Expanded(states, name);
    assert Toggled(once, name) == states[name := Expanded(states, name)];
  }

  /** `material_expanded_states`. */
  class ExpandedStates {
    var states: map<string, bool>

    constructor()
      ensures states == map[]
    {
      states := map[];
    }

    /** `FRAMO_OT_toggle_material_expanded.execute` without the redraw. */
    method Toggle(name: string)
      modifies this
      ensures states == Toggled(old(states), name)
    {
      if name !in states {
        states := states[name := false];
      }
      states := states[name := !states[name]];
    }
  }

  // ---------------------------------------------------------------------------------------
  // poll

  /** The scan over `materials_to_check` (the analysis of a material is None when it raises,
      else its `is_ready`): False at the first material that is not ready, True at the end
      and True as soon as an analysis raises. */
  function Scan(materials: seq<Option<string>>, analyse: string -> Option<bool>): bool
    decreases |materials|
  {
    if materials == [] then true
    else if materials[0].None? then Scan(materials[1..], analyse)
    else match analyse(materials[0].value)
      case None => true
      case Some(ready) => if ready then Scan(materials[1..], analyse) else false
  }

  /** Every material before index `i` was skipped or found ready. */
  predicate PassedBefore(materials: seq<Option<string>>, analyse: string -> Option<bool>, i: nat)
    requires i <= |materials|
  {
    forall j :: 0 <= j < i ==> materials[j].None? || analyse(materials[j].value) == Some(true)
  }

  /** A scan that says False has met a material found not ready, every one before it
      skipped or found ready. */
  lemma {:induction false} ScanFalseWitness(materials: seq<Option<string>>, analyse: string -> Option<bool>)
    requires !Scan(materials, analyse)
    ensures exists i :: 0 <= i < |materials| && materials[i].Some? && analyse(materials[i].value) == Some(false)
                        && PassedBefore(materials, analyse, i)
    decreases |materials|
  {
    var rest := materials[1..];
    if materials[0].Some? && analyse(materials[0].value) == Some(false) {
      assert PassedBefore(materials, analyse, 0);
    } else {
      ScanFalseWitness(rest, analyse);
      var i :| 0 <= i < |rest| && rest[i].Some? && analyse(rest[i].value) == Some(false) && PassedBefore(rest, analyse, i);
      assert materials[i + 1] == rest[i];
      assert PassedBefore(materials, analyse, i + 1) by {
        forall j | 0 <= j < i + 1
          ensures materials[j].None? || analyse(materials[j].value) == Some(true)
        {
          if j > 0 {
            assert materials[j] == rest[j - 1];
            assert rest[j - 1].None? || analyse(rest[j - 1].value) == Some(true);
          } else if materials[0].Some? {
            var result := analyse(materials[0].value);
            assert result.Some? && result != Some(false);
            assert result.value;
          }
        }
      }
    }
  }

  /** A material found not ready, every one before it skipped or found ready, makes the scan
      say False. */
  lemma {:induction false} FailureStopsScan(materials: seq<Option<string>>, analyse: string -> Option<bool>, i: nat)
    requires i < |materials| && materials[i].Some? && analyse(materials[i].value) == Some(false)
    requires PassedBefore(materials, analyse, i)
    ensures !Scan(materials, analyse)
    decreases i
  {
    if i > 0 {
      var rest := materials[1..];
      assert rest[i - 1] == materials[i];
      assert PassedBefore(rest, analyse, i - 1) by {
        forall j | 0 <= j < i - 1
          ensures rest[j].None? || analyse(rest[j].value) == Some(true)
        {
          assert rest[j] == materials[j + 1];
        }
      }
      FailureStopsScan(rest, analyse, i - 1);
      assert materials[0].None? || analyse(materials[0].value) == Some(true);
    }
  }

  /** The scan says False exactly when some material is found not ready and every one before
      it was skipped or found ready. */
  lemma {:induction false} ScanFalse(materials: seq<Option<string>>, analyse: string -> Option<bool>)
    ensures !Scan(materials, analyse) <==>
            exists i :: 0 <= i < |materials| && materials[i].Some? && analyse(materials[i].value) == Some(false)
                        && PassedBefore(materials, analyse, i)
  {
    if !Scan(materials, analyse) {
      ScanFalseWitness(materials, analyse);
    }
    if i :| 0 <= i < |materials| && materials[i].Some? && analyse(materials[i].value) == Some(false)
            && PassedBefore(materials, analyse, i) {
      FailureStopsScan(materials, analyse, i);
    }
  }

  /** `poll`: `listing` is `get_materials_to_analyze`, None when it raises. */
  function PollResult(selected: bool, analyzerAvailable: bool, listing: Option<seq<Option<string>>>,
                      analyse: string -> Option<bool>): bool {
    if !selected then false
    else if !analyzerAvailable then true
    else match listing
      case None => true
      case Some(materials) => materials == [] || Scan(materials, analyse)
  }

  /** The operator is disabled exactly when there is a selection, the analyzer is present, the
      listing does not raise and it holds a material found not ready with every earlier one
      skipped or ready (so no analysis raised before it). */
  lemma PollDisabled(selected: bool, analyzerAvailable: bool, listing: Option<seq<Option<string>>>,
                     analyse: string -> Option<bool>)
    ensures !PollResult(selected, analyzerAvailable, listing, analyse) <==>
            !selected
            || (analyzerAvailable && listing.Some?
                && exists i :: 0 <= i < |listing.value| && listing.value[i].Some?
                               && analyse(listing.value[i].value) == Some(false) && PassedBefore(listing.value, analyse, i))
    ensures selected && (!analyzerAvailable || listing == None || listing == Some([])) ==>
            PollResult(selected, analyzerAvailable, listing, analyse)
  {
    if listing.Some? {
      ScanFalse(listing.value, analyse);
    }
  }

  /** `FRAMO_OT_export_to_web.poll`. */
  method Poll(selection: seq<string>, analyzerAvailable: bool, listing: Option<seq<Option<string>>>,
              analyse: string -> Option<bool>) returns (enabled: bool)
    ensures enabled == PollResult(selection != [], analyzerAvailable, listing, analyse)
  {
    if selection == [] {
      return false;
    }
    if !analyzerAvailable || listing.None? || listing.value == [] {
      return true;
    }
    var materials := listing.value;
    var i := 0;
    while i < |materials|
      invariant 0 <= i <= |materials|
      invariant Scan(materials, analyse) == Scan(materials[i..], analyse)
    {
      assert materials[i..][1..] == materials[i + 1..];
      if materials[i].Some? {
        var result := analyse(materials[i].value);
        if result.None? {
          return true;
        }
        if !result.value {
          return false;
        }
      }
      i := i + 1;
    }
    return true;
  }

  // ---------------------------------------------------------------------------------------
  // execute: what it reads

  /** Which optional modules imported: the material analyzer, UV unwrapping, mesh repair. */
  datatype Modules = Modules(analyzer: bool, uv: bool, repair: bool)

  /** What `repair_object` does to one mesh: its success, the `vertices_removed` and
      `faces_removed` entries (0 when absent), its `error` entry and the mesh it leaves. */
  datatype Repaired = Repaired(success: bool, verticesRemoved: nat, facesRemoved: nat, error: Option<string>,
                               mesh: MeshData)

  /** The code `execute` calls but this module does not model: whether Smart UV Project raises
      on an object (the rest of `auto_unwrap_objects` is the UV unwrap module's), repair and
      bmesh decimation of one mesh, material readiness, the glTF exporter (None when it
      returns, else its error), the size of the file it writes, whether the upload request
      raises, and the float formatting of sizes and percentages. */
  datatype Kernels = Kernels(uvRaises: Obj -> bool, repair: (MeshData, RepairFlags) -> Repaired,
                             decimate: (MeshData, real) -> ES.Decimated, ready: string -> bool,
                             gltf: Option<string>, glbSize: nat, uploadFails: bool,
                             formatMb: nat -> string, formatPercent: (nat, nat) -> string)

  /** The settings as `execute` reads them. */
  datatype Options = Options(decimation: bool, repair: bool, autoUv: bool, decimateType: Properties.DecimateType,
                             ratio: real, decimationMethod: string, repairFlags: RepairFlags, useDraco: bool,
                             level: int)

  function OptionsOf(s: LegacySettings): Options
    reads s
  {
    Options(s.enableDecimation, s.enableMeshRepair, s.enableAutoUv, s.decimateType, s.decimateRatio,
            s.decimationMethod, s.repairFlags, s.useDraco, s.dracoCompressionLevel)
  }

  /** Some stage that works on copies is switched on. */
  predicate WantsCopies(o: Options) {
    o.decimation || o.repair || o.autoUv
  }

  /** `server_instance`: whether the preview server runs, and the GLB it holds as
      `latest_glb`, by size. */
  class Server {
    var running: bool
    var latestGlb: Option<nat>

    constructor(running: bool)
      ensures this.running == running && latestGlb == None
    {
      this.running := running;
      latestGlb := None;
    }
  }

  // ---------------------------------------------------------------------------------------
  // The temporary copies

  const TempPrefix := "TEMP_EXPORT_"

  /** `[obj for obj in selected_objects if obj.type == 'MESH']`, by name. */
  function MeshObjects(objects: map<string, Obj>, selection: seq<string>): (r: seq<string>)
    ensures forall n :: n in r <==> n in selection && n in objects && objects[n].kind == Mesh
    decreases |selection|
  {
    if selection == [] then []
    else
      var n := selection[|selection| - 1];
      assert forall x :: x in selection <==> x in selection[..|selection| - 1] || x == n;
      MeshObjects(objects, selection[..|selection| - 1]) + (if n in objects && objects[n].kind == Mesh then [n] else [])
  }

  /** The mesh name an object is bound to; None for a missing object. */
  function DataOf(b: ES.Blend, n: string): Option<string> {
    if n in b.objects then b.objects[n].data else None
  }

  /** One copy: `obj.copy()` bound to `obj.data.copy()`, renamed `TEMP_EXPORT_<name>`
      (Blender numbers a taken name, and the mesh copy gets a name of its own), keeping the
      original's visibility and linked into the scene. An object whose mesh cannot be read
      is not copied. */
  function CopyOne(b: ES.Blend, n: string): (r: (ES.Blend, Option<string>))
    ensures r.1.None? <==> !(n in b.objects && MeshOf(b.objects[n], b.meshes).Some?)
    ensures r.1.None? ==> r.0 == b
    ensures r.1.Some? ==> StartsWith(r.1.value, TempPrefix + n)
  {
    if n in b.objects && MeshOf(b.objects[n], b.meshes).Some? then
      var o := b.objects[n];
      var t := FreshName(TempPrefix + n, b.objects.Keys);
      var d := FreshName(o.data.value, b.meshes.Keys);
      (b.(objects := b.objects[t := o.(name := t, data := Some(d), inViewLayer := true)],
          meshes := b.meshes[d := b.meshes[o.data.value]],
          hidden := if n in b.hidden then b.hidden + {t} else b.hidden), Some(t))
    else (b, None)
  }

  /** The copy loop over the mesh objects in selection order. */
  function CopyAll(b: ES.Blend, names: seq<string>): (r: (ES.Blend, seq<string>))
    ensures r.1 == [] ==> r.0 == b && forall n :: n in names && n in b.objects ==> MeshOf(b.objects[n], b.meshes).None?
    ensures forall t :: t in r.1 ==> exists n :: n in names && StartsWith(t, TempPrefix + n)
    ensures |r.1| <= |names|
    decreases |names|
  {
    if names == [] then (b, [])
    else
      var prefix := names[..|names| - 1];
      var (b1, temps) := CopyAll(b, prefix);
      var (b2, t) := CopyOne(b1, names[|names| - 1]);
      assert forall x :: x in names <==> x in prefix || x == names[|names| - 1];
      (b2, temps + if t.Some? then [t.value] else [])
  }

  /** A temp object made by the copies: a new object bound to a new mesh. */
  predicate NewCopy(b: ES.Blend, b1: ES.Blend, t: string) {
    t !in b.objects && t in b1.objects && b1.objects[t].name == t && b1.objects[t].data.Some?
    && b1.objects[t].data.value in b1.meshes && b1.objects[t].data.value !in b.meshes
  }

  /** The meshes of the temp objects. */
  function TempMeshes(b1: ES.Blend, temps: seq<string>): set<string> {
    set t | t in temps && DataOf(b1, t).Some? :: DataOf(b1, t).value
  }

  /** What the copies leave beside the user's data `b`: every original object, mesh, image and
      material as it was; the only new objects are the temps, each bound to a new mesh of
      its own; the only new meshes are theirs; only temps are newly hidden. */
  predicate CopyInv(b: ES.Blend, b1: ES.Blend, temps: seq<string>) {
    && (forall n :: n in b.objects ==> n in b1.objects && b1.objects[n] == b.objects[n])
    && (forall n :: n in b1.objects ==> n in b.objects || n in temps)
    && (forall d :: d in b.meshes ==> d in b1.meshes && b1.meshes[d] == b.meshes[d])
    && b1.meshes.Keys == b.meshes.Keys + TempMeshes(b1, temps)
    && (forall t :: t in temps ==> NewCopy(b, b1, t))
    && (forall i, j :: 0 <= i < j < |temps| ==> temps[i] != temps[j] && DataOf(b1, temps[i]) != DataOf(b1, temps[j]))
    && b.hidden <= b1.hidden && (forall h :: h in b1.hidden && h !in b.hidden ==> h in temps)
    && b1.images == b.images && b1.materials == b.materials
  }

  /** Adding one temp `tn` bound to a new mesh `d` keeps the invariant. */
  lemma AddCopyInv(b: ES.Blend, b1: ES.Blend, b2: ES.Blend, temps: seq<string>, tn: string, d: string)
    requires CopyInv(b, b1, temps)
    requires tn !in b1.objects && d !in b1.meshes && d in b2.meshes
    requires b2.objects.Keys == b1.objects.Keys + {tn} && b2.meshes.Keys == b1.meshes.Keys + {d}
    requires forall x :: x in b1.objects ==> b2.objects[x] == b1.objects[x]
    requires forall x :: x in b1.meshes ==> b2.meshes[x] == b1.meshes[x]
    requires b2.objects[tn].data == Some(d) && b2.objects[tn].name == tn
    requires b2.hidden == b1.hidden || b2.hidden == b1.hidden + {tn}
    requires b2.images == b1.images && b2.materials == b1.materials
    ensures CopyInv(b, b2, temps + [tn])
  {
    forall x | x in temps
      ensures x in b1.objects && DataOf(b2, x) == DataOf(b1, x)
    {
      assert NewCopy(b, b1, x);
    }
    TempMeshesSnoc(b1, b2, temps, tn, d);
    KeysStep(b.meshes.Keys, b1.meshes.Keys, b2.meshes.Keys, TempMeshes(b1, temps), TempMeshes(b2, temps + [tn]), d);
    AddCopyNew(b, b1, b2, temps, tn, d);
    AddCopyDistinct(b, b1, b2, temps, tn, d);
    forall h | h in b2.hidden && h !in b.hidden
      ensures h in temps + [tn]
    {
      if h != tn {
        assert h in b1.hidden;
      }
    }
  }

  /** A key set grown by `t1` and then by `d` has grown by `t1` with `d`. */
  lemma KeysStep(k0: set<string>, k1: set<string>, k2: set<string>, t1: set<string>, t2: set<string>, d: string)
    requires k1 == k0 + t1 && k2 == k1 + {d} && t2 == t1 + {d}
    ensures k2 == k0 + t2
  {
  }

  /** The temps, one more included, are all new copies. */
  lemma AddCopyNew(b: ES.Blend, b1: ES.Blend, b2: ES.Blend, temps: seq<string>, tn: string, d: string)
    requires forall t :: t in temps ==> NewCopy(b, b1, t)
    requires forall d :: d in b.meshes ==> d in b1.meshes
    requires forall n :: n in b.objects ==> n in b1.objects
    requires tn !in b1.objects && d !in b1.meshes && d in b2.meshes && tn in b2.objects
    requires forall x :: x in b1.objects ==> x in b2.objects && b2.objects[x] == b1.objects[x]
    requires b1.meshes.Keys <= b2.meshes.Keys
    requires b2.objects[tn].data == Some(d) && b2.objects[tn].name == tn
    ensures forall t :: t in temps + [tn] ==> NewCopy(b, b2, t)
  {
    forall t | t in temps + [tn] ensures NewCopy(b, b2, t) {
      if t != tn {
        assert t in temps && NewCopy(b, b1, t);
      }
    }
  }

  /** The temps, one more included, are distinct and bound to distinct meshes. */
  lemma AddCopyDistinct(b: ES.Blend, b1: ES.Blend, b2: ES.Blend, temps: seq<string>, tn: string, d: string)
    requires forall t :: t in temps ==> NewCopy(b, b1, t)
    requires forall i, j :: 0 <= i < j < |temps| ==> temps[i] != temps[j] && DataOf(b1, temps[i]) != DataOf(b1, temps[j])
    requires tn !in b1.objects && d !in b1.meshes
    requires forall x :: x in temps ==> x in b1.objects && DataOf(b2, x) == DataOf(b1, x)
    requires tn in b2.objects && b2.objects[tn].data == Some(d)
    ensures var ts := temps + [tn];
            forall i, j :: 0 <= i < j < |ts| ==> ts[i] != ts[j] && DataOf(b2, ts[i]) != DataOf(b2, ts[j])
  {
    var ts := temps + [tn];
    forall i, j | 0 <= i < j < |ts|
      ensures ts[i] != ts[j] && DataOf(b2, ts[i]) != DataOf(b2, ts[j])
    {
      if j == |temps| {
        assert ts[i] in temps && NewCopy(b, b1, ts[i]);
      } else {
        assert ts[i] == temps[i] && ts[j] == temps[j];
        assert temps[i] in temps && temps[j] in temps;
      }
    }
  }

  lemma TempMeshesSnoc(b1: ES.Blend, b2: ES.Blend, temps: seq<string>, tn: string, d: string)
    requires tn !in b1.objects && tn in b2.objects && b2.objects[tn].data == Some(d)
    requires forall x :: x in temps ==> x in b1.objects && DataOf(b2, x) == DataOf(b1, x)
    ensures TempMeshes(b2, temps + [tn]) == TempMeshes(b1, temps) + {d}
  {
    var ts := temps + [tn];
    forall x | x in TempMeshes(b2, ts)
      ensures x in TempMeshes(b1, temps) + {d}
    {
      var y :| y in ts && DataOf(b2, y).Some? && DataOf(b2, y).value == x;
      if y != tn { assert y in temps; }
    }
    forall x | x in TempMeshes(b1, temps)
      ensures x in TempMeshes(b2, ts)
    {
      var y :| y in temps && DataOf(b1, y).Some? && DataOf(b1, y).value == x;
      assert y in ts;
    }
    assert DataOf(b2, tn) == Some(d);
    assert tn in ts;
  }

  /** One copy keeps the invariant. */
  lemma CopyOneInv(b: ES.Blend, b1: ES.Blend, temps: seq<string>, n: string)
    requires CopyInv(b, b1, temps)
    ensures var (b2, t) := CopyOne(b1, n);
            CopyInv(b, b2, temps + if t.Some? then [t.value] else [])
  {
    var (b2, t) := CopyOne(b1, n);
    if t.Some? {
      AddCopyInv(b, b1, b2, temps, t.value, b2.objects[t.value].data.value);
    } else {
      assert temps + [] == temps;
    }
  }

  /** The copy loop keeps the invariant from the start. */
  lemma {:induction false} CopyAllInv(b: ES.Blend, names: seq<string>)
    ensures CopyInv(b, CopyAll(b, names).0, CopyAll(b, names).1)
    decreases |names|
  {
    if names != [] {
      var prefix := names[..|names| - 1];
      CopyAllInv(b, prefix);
      CopyOneInv(b, CopyAll(b, prefix).0, CopyAll(b, prefix).1, names[|names| - 1]);
    }
  }

  // ---------------------------------------------------------------------------------------
  // The passes

  /** The state inside the `try`: the data, the temp copies, the selection, the summary parts
      and the warnings reported so far. */
  datatype Staged = Staged(blend: ES.Blend, temps: seq<string>, selected: seq<string>, active: Option<string>,
                           info: seq<string>, warnings: seq<string>)

  /** The copies, made only when a stage that wants them is on and the selection holds mesh
      objects; they replace the selection, and the first becomes active. */
  function CopyStage(o: Options, b: ES.Blend, selection: seq<string>, active: Option<string>): (r: Staged)
    ensures r.info == [] && r.warnings == []
    ensures r.temps != [] ==> WantsCopies(o) && MeshObjects(b.objects, selection) != []
                              && r.selected == r.temps && r.active == Some(r.temps[0])
    ensures r.temps == [] ==> r.blend == b
  {
    var meshObjects := MeshObjects(b.objects, selection);
    if WantsCopies(o) && meshObjects != [] then
      var (b1, temps) := CopyAll(b, meshObjects);
      Staged(b1, temps, temps, if temps != [] then Some(temps[0]) else active, [], [])
    else Staged(b, [], selection, active, [], [])
  }

  /** `temp_objects if temp_objects else mesh_objects`: what each later stage works on. */
  function Targets(s: Staged, meshObjects: seq<string>): seq<string> {
    if s.temps != [] then s.temps else meshObjects
  }

  /** A stage's effect on the data: only the meshes of the targets change, and only targets
      with a readable mesh can lose their hidden flag. */
  predicate PassOn(s: ES.Blend, r: ES.Blend, targets: seq<string>) {
    && r == s.(meshes := r.meshes, hidden := r.hidden) && r.meshes.Keys == s.meshes.Keys
    && (forall d :: d in s.meshes && d !in ES.BoundMeshes(s, targets) ==> r.meshes[d] == s.meshes[d])
    && r.hidden <= s.hidden
    && (forall h :: h in s.hidden && h !in r.hidden ==>
          exists t :: t in targets && t in s.objects && MeshOf(s.objects[t], s.meshes).Some? && s.objects[t].name == h)
  }

  const UvUnavailable := "UV unwrapping module not available."

  /** Auto UV: a warning when the module is missing, else `auto_unwrap_objects` on the targets
      with the current selection. A target without a UV map gets one; on one where Smart UV
      Project raised, that target is left visible, alone selected and active. */
  function UvStage(o: Options, m: Modules, k: Kernels, s: Staged, targets: seq<string>): (r: Staged)
    ensures PassOn(s.blend, r.blend, targets)
    ensures r.temps == s.temps
    ensures (forall x :: !k.uvRaises(x)) ==> r.blend.hidden == s.blend.hidden
    ensures !o.autoUv ==> r == s
    ensures o.autoUv && !m.uv ==> r == s.(warnings := s.warnings + [UvUnavailable])
  {
    if !o.autoUv then s
    else if !m.uv then s.(warnings := s.warnings + [UvUnavailable])
    else if targets == [] then s
    else
      var objs := ES.SelectedObjects(s.blend.objects, targets);
      var st0 := UvUnwrap.UnwrapState(s.selected, s.active, s.blend.hidden, s.blend.meshes);
      var (stats, st) := UvUnwrap.AutoUnwrap(objs, st0, s.blend.objects.Keys, k.uvRaises);
      UvUnwrap.UnwrapPassFrame(Scene.MeshObjects(objs), st0, s.blend.objects.Keys, k.uvRaises);
      UvPassOn(s.blend, st, objs, targets, k.uvRaises);
      s.(blend := s.blend.(meshes := st.meshes, hidden := st.hidden), selected := st.selected, active := st.active,
         info := s.info + ES.CountInfo(stats.unwrapped, "UV unwrapped ", " objects"))
  }

  /** The frame of the unwrap pass, in terms of the targets. */
  lemma UvPassOn(b: ES.Blend, st: UvUnwrap.UnwrapState, objs: seq<Obj>, targets: seq<string>, raises: Obj -> bool)
    requires objs == ES.SelectedObjects(b.objects, targets)
    requires st.meshes.Keys == b.meshes.Keys
    requires forall d :: d in b.meshes && (forall x :: x in Scene.MeshObjects(objs) ==> x.data != Some(d)) ==> st.meshes[d] == b.meshes[d]
    requires st.hidden <= b.hidden
    requires forall h :: h in b.hidden && h !in st.hidden ==>
               exists x :: x in Scene.MeshObjects(objs) && x.name == h && raises(x) && MeshOf(x, b.meshes).Some?
    ensures PassOn(b, b.(meshes := st.meshes, hidden := st.hidden), targets)
  {
    forall d, x | d in b.meshes && d !in ES.BoundMeshes(b, targets) && x in Scene.MeshObjects(objs)
      ensures x.data != Some(d)
    {
      var t :| t in targets && t in b.objects && b.objects[t] == x;
      assert x.data.Some? ==> x.data.value in ES.BoundMeshes(b, targets);
    }
    forall h | h in b.hidden && h !in st.hidden
      ensures exists t :: t in targets && t in b.objects && MeshOf(b.objects[t], b.meshes).Some? && b.objects[t].name == h
    {
      var x :| x in Scene.MeshObjects(objs) && x.name == h && raises(x) && MeshOf(x, b.meshes).Some?;
      var t :| t in targets && t in b.objects && b.objects[t] == x;
    }
  }

  const RepairUnavailable := "Mesh repair libraries not installed. Install trimesh for mesh repair."

  /** `repaired_count`, `total_verts_removed`, `total_faces_removed` and the warnings. */
  datatype RepairTally = RepairTally(count: nat, verts: nat, faces: nat, warnings: seq<string>)

  /** One target of the repair loop. */
  function RepairStep(objects: map<string, Obj>, acc: (map<string, MeshData>, RepairTally), t: string,
                      flags: RepairFlags, k: Kernels): (map<string, MeshData>, RepairTally) {
    var (meshes, tally) := acc;
    if t in objects && MeshOf(objects[t], meshes).Some? then
      var d := objects[t].data.value;
      var out := k.repair(meshes[d], flags);
      (meshes[d := out.mesh],
       if out.success then
         tally.(count := tally.count + 1, verts := tally.verts + out.verticesRemoved,
                faces := tally.faces + out.facesRemoved)
       else
         tally.(warnings := tally.warnings + ["Failed to repair " + t + ": " + (if out.error.Some? then out.error.value else "Unknown error")]))
    else acc
  }

  /** The repair loop over the targets: each repair is counted or warned about, once. */
  function RepairPass(b: ES.Blend, targets: seq<string>, flags: RepairFlags, k: Kernels): (r: (map<string, MeshData>, RepairTally))
    ensures r.0.Keys == b.meshes.Keys
    ensures forall d :: d in b.meshes && d !in ES.BoundMeshes(b, targets) ==> r.0[d] == b.meshes[d]
    ensures r.1.count + |r.1.warnings| <= |targets|
    decreases |targets|
  {
    if targets == [] then (b.meshes, RepairTally(0, 0, 0, []))
    else
      var prefix := targets[..|targets| - 1];
      var t := targets[|targets| - 1];
      assert ES.BoundMeshes(b, prefix) <= ES.BoundMeshes(b, targets);
      assert t in b.objects && b.objects[t].data.Some? ==> b.objects[t].data.value in ES.BoundMeshes(b, targets);
      RepairStep(b.objects, RepairPass(b, prefix, flags, k), t, flags, k)
  }

  lemma RepairPassSnoc(b: ES.Blend, targets: seq<string>, i: nat, flags: RepairFlags, k: Kernels)
    requires i < |targets|
    ensures RepairPass(b, targets[..i + 1], flags, k) == RepairStep(b.objects, RepairPass(b, targets[..i], flags, k), targets[i], flags, k)
  {
    assert targets[..i + 1][..i] == targets[..i];
  }

  /** "Repaired N objects", with what was removed when anything was. */
  function RepairInfo(t: RepairTally): seq<string> {
    if t.count == 0 then []
    else ["Repaired " + NatToString(t.count) + " objects"
          + (if t.verts > 0 || t.faces > 0 then " (removed " + NatToString(t.verts) + " verts, " + NatToString(t.faces) + " faces)" else "")]
  }

  /** Mesh repair: a warning when the libraries are missing, else the repair loop. */
  function RepairStage(o: Options, m: Modules, k: Kernels, s: Staged, targets: seq<string>): (r: Staged)
    ensures PassOn(s.blend, r.blend, targets)
    ensures (r.temps, r.selected, r.active) == (s.temps, s.selected, s.active)
    ensures !o.repair ==> r == s
    ensures o.repair && !m.repair ==> r == s.(warnings := s.warnings + [RepairUnavailable])
  {
    if !o.repair then s
    else if !m.repair then s.(warnings := s.warnings + [RepairUnavailable])
    else if targets == [] then s
    else
      var (meshes, t) := RepairPass(s.blend, targets, o.repairFlags, k);
      s.(blend := s.blend.(meshes := meshes), info := s.info + RepairInfo(t), warnings := s.warnings + t.warnings)
  }

  /** Objects with at most this many faces are not decimated. */
  const LegacyMinFaces := 100

  /** The decimate types by their enum names. */
  function DecimateTypeName(t: Properties.DecimateType): string {
    match t
    case Collapse => "COLLAPSE"
    case Unsubdiv => "UNSUBDIV"
    case Dissolve => "DISSOLVE"
  }

  /** One target of the decimation loop. */
  function DecimateStep(objects: map<string, Obj>, acc: (map<string, MeshData>, ES.Tally), t: string,
                        ratio: real, methodName: string, k: Kernels): (map<string, MeshData>, ES.Tally) {
    var (meshes, tally) := acc;
    if t in objects && MeshOf(objects[t], meshes).Some? && |meshes[objects[t].data.value].faceMaterials| > LegacyMinFaces then
      var d := objects[t].data.value;
      var faces := |meshes[d].faceMaterials|;
      var out := k.decimate(meshes[d], ratio);
      (meshes[d := out.mesh],
       if out.success then tally.(count := tally.count + 1, before := tally.before + faces, after := tally.after + out.facesAfter)
       else
         tally.(before := tally.before + faces,
                warnings := tally.warnings + [if out.error != "" then t + ": " + out.error
                                              else "Failed to decimate " + t + " with " + methodName + " method. Check Blender console for details."]))
    else acc
  }

  /** The decimation loop: a mesh with at most 100 faces is never touched, and every counted
      object had more than 100. */
  function DecimatePass(b: ES.Blend, targets: seq<string>, ratio: real, methodName: string, k: Kernels): (r: (map<string, MeshData>, ES.Tally))
    ensures r.0.Keys == b.meshes.Keys
    ensures forall d :: d in b.meshes && (d !in ES.BoundMeshes(b, targets) || |b.meshes[d].faceMaterials| <= LegacyMinFaces)
                        ==> r.0[d] == b.meshes[d]
    ensures r.1.before >= (LegacyMinFaces + 1) * r.1.count
    ensures r.1.count + |r.1.warnings| <= |targets|
    decreases |targets|
  {
    if targets == [] then (b.meshes, ES.Tally(0, 0, 0, []))
    else
      var prefix := targets[..|targets| - 1];
      var t := targets[|targets| - 1];
      assert ES.BoundMeshes(b, prefix) <= ES.BoundMeshes(b, targets);
      assert t in b.objects && b.objects[t].data.Some? ==> b.objects[t].data.value in ES.BoundMeshes(b, targets);
      DecimateStep(b.objects, DecimatePass(b, prefix, ratio, methodName, k), t, ratio, methodName, k)
  }

  lemma DecimatePassSnoc(b: ES.Blend, targets: seq<string>, i: nat, ratio: real, methodName: string, k: Kernels)
    requires i < |targets|
    ensures DecimatePass(b, targets[..i + 1], ratio, methodName, k)
            == DecimateStep(b.objects, DecimatePass(b, targets[..i], ratio, methodName, k), targets[i], ratio, methodName, k)
  {
    assert targets[..i + 1][..i] == targets[..i];
  }

  /** The selection `decimate_with_modifier` of bmesh_decimation.py leaves on one target of
      the loop: the object alone selected, and the previously active object active again only
      when applying the modifier succeeded. */
  function DecimateViewStep(objects: map<string, Obj>, meshes: map<string, MeshData>, view: (seq<string>, Option<string>),
                            t: string, ratio: real, k: Kernels): (r: (seq<string>, Option<string>))
    ensures r == view || (t in objects && r.0 == [objects[t].name])
  {
    if t in objects && MeshOf(objects[t], meshes).Some? && |meshes[objects[t].data.value].faceMaterials| > LegacyMinFaces then
      var name := objects[t].name;
      ([name], if k.decimate(meshes[objects[t].data.value], ratio).success && view.1.Some? then view.1 else Some(name))
    else view
  }

  /** The selection after the decimation loop, from `view` before it. */
  function DecimateView(b: ES.Blend, targets: seq<string>, ratio: real, methodName: string, k: Kernels,
                        view: (seq<string>, Option<string>)): (seq<string>, Option<string>)
    decreases |targets|
  {
    if targets == [] then view
    else
      var prefix := targets[..|targets| - 1];
      DecimateViewStep(b.objects, DecimatePass(b, prefix, ratio, methodName, k).0, DecimateView(b, prefix, ratio, methodName, k, view),
                       targets[|targets| - 1], ratio, k)
  }

  lemma DecimateViewSnoc(b: ES.Blend, targets: seq<string>, i: nat, ratio: real, methodName: string, k: Kernels,
                         view: (seq<string>, Option<string>))
    requires i < |targets|
    ensures DecimateView(b, targets[..i + 1], ratio, methodName, k, view)
            == DecimateViewStep(b.objects, DecimatePass(b, targets[..i], ratio, methodName, k).0,
                                DecimateView(b, targets[..i], ratio, methodName, k, view), targets[i], ratio, k)
  {
    assert targets[..i + 1][..i] == targets[..i];
  }

  /** After the decimation loop the selection is the one before it or a single target: the
      modifier selects the object it works on and never selects the others again, so the
      legacy export, which has no re-selection while copies exist, exports only one copy once
      any was decimated. */
  lemma {:induction false} DecimateViewSingle(b: ES.Blend, targets: seq<string>, ratio: real, methodName: string, k: Kernels,
                                              view: (seq<string>, Option<string>))
    ensures var r := DecimateView(b, targets, ratio, methodName, k, view);
            r == view || exists t :: t in targets && t in b.objects && r.0 == [b.objects[t].name]
    decreases |targets|
  {
    if targets != [] {
      var prefix := targets[..|targets| - 1];
      DecimateViewSingle(b, prefix, ratio, methodName, k, view);
      var r0 := DecimateView(b, prefix, ratio, methodName, k, view);
      if r0 != view {
        var t :| t in prefix && t in b.objects && r0.0 == [b.objects[t].name];
        assert t in targets;
      }
      assert targets[|targets| - 1] in targets;
    }
  }

  /** Decimation: only the COLLAPSE type runs, every other type is warned about. */
  function DecimateStage(o: Options, k: Kernels, s: Staged, targets: seq<string>): (r: Staged)
    ensures PassOn(s.blend, r.blend, targets)
    ensures r.temps == s.temps && r.blend.hidden == s.blend.hidden
    ensures !o.decimation ==> r == s
    ensures o.decimation && o.decimateType != Properties.Collapse ==>
              r == s.(warnings := s.warnings + ["Decimation only supports Collapse type. " + DecimateTypeName(o.decimateType) + " type not supported."])
    ensures forall d :: d in s.blend.meshes && |s.blend.meshes[d].faceMaterials| <= LegacyMinFaces ==> r.blend.meshes[d] == s.blend.meshes[d]
  {
    if !o.decimation then s
    else if o.decimateType != Properties.Collapse then
      s.(warnings := s.warnings + ["Decimation only supports Collapse type. " + DecimateTypeName(o.decimateType) + " type not supported."])
    else if targets == [] then s
    else
      var (meshes, t) := DecimatePass(s.blend, targets, o.ratio, o.decimationMethod, k);
      var (selected, active) := DecimateView(s.blend, targets, o.ratio, o.decimationMethod, k, (s.selected, s.active));
      s.(blend := s.blend.(meshes := meshes), selected := selected, active := active, info := s.info + ES.DecimationInfo(t.count, t.before, t.after, k.formatPercent),
         warnings := s.warnings + t.warnings)
  }

  /** The stages inside the `try` up to the material check. */
  function Prepare(o: Options, m: Modules, k: Kernels, b: ES.Blend, selection: seq<string>, active: Option<string>): Staged {
    var c := CopyStage(o, b, selection, active);
    var targets := Targets(c, MeshObjects(b.objects, selection));
    DecimateStage(o, k, RepairStage(o, m, k, UvStage(o, m, k, c, targets), targets), targets)
  }

  // ---------------------------------------------------------------------------------------
  // The end of the `try` and the `finally`

  /** The unsupported materials that block the export; none without the analyzer. */
  function Blocked(m: Modules, analysed: seq<string>, ready: string -> bool): seq<string> {
    if m.analyzer then ES.Unsupported(analysed, ready) else []
  }

  function BlockHead(count: nat): string {
    "Export blocked: " + NatToString(count) + " unsupported material(s) found. Fix materials in Material Readiness panel: "
  }

  function BlockMessage(unsupported: seq<string>): string {
    BlockHead(|unsupported|) + ES.MaterialList(unsupported)
  }

  /** Without copies, the saved selection (what still exists) is selected for the export. */
  function ReselectForExport(s: Staged, selection: seq<string>): Staged {
    if s.temps == [] && selection != [] then
      s.(selected := Present(selection, s.blend.objects.Keys), active := Some(selection[0]))
    else s
  }

  /** How the `try` ends: the outcome, every report in order, the state the `finally` starts
      from and whether the payload was stored on the server. */
  datatype Ending = Ending(outcome: ES.Outcome, reports: seq<ES.Report>, state: Staged, stored: bool)

  /** The material block, the single export attempt and the upload. */
  function Conclude(o: Options, m: Modules, k: Kernels, s: Staged, selection: seq<string>, analysed: seq<string>): Ending {
    var blocked := Blocked(m, analysed, k.ready);
    if blocked != [] then
      Ending(ES.Cancelled, ES.Warnings(s.warnings) + [ES.Report(ES.Error, BlockMessage(blocked))], s, false)
    else
      var e := ReselectForExport(s, selection);
      var info := e.info + [ES.DracoInfo(o.useDraco, o.level)];
      match k.gltf
      case Some(err) => Ending(ES.Cancelled, ES.Warnings(s.warnings) + [ES.Report(ES.Error, "Export failed: " + err)], e, false)
      case None =>
        Ending(ES.Finished,
               ES.Warnings(s.warnings) + [ES.Report(ES.Info, "Exported " + k.formatMb(k.glbSize) + "MB" + ES.InfoString(info) + " to Framo")],
               e, k.uploadFails)
  }

  /** One temp of the `finally` loop: the object, when it still exists, is removed, and then its
      mesh when that still exists with zero users. */
  function RemoveTemp(b: ES.Blend, t: string): ES.Blend {
    if t in b.objects then
      var d := b.objects[t].data;
      var b1 := b.(objects := b.objects - {t}, hidden := b.hidden - {t});
      if d.Some? && d.value in b1.meshes && ES.Unused(b1.objects, d.value) then b1.(meshes := b1.meshes - {d.value}) else b1
    else b
  }

  function RemoveTemps(b: ES.Blend, temps: seq<string>): ES.Blend
    decreases |temps|
  {
    if temps == [] then b else RemoveTemp(RemoveTemps(b, temps[..|temps| - 1]), temps[|temps| - 1])
  }

  /** The `finally` block: the temps go, then the saved selection is selected again. */
  function Finally(s: Staged, selection: seq<string>): (ES.Blend, seq<string>, Option<string>) {
    var b := RemoveTemps(s.blend, s.temps);
    if selection != [] then (b, Present(selection, b.objects.Keys), Some(selection[0]))
    else (b, if s.temps != [] then [] else s.selected, s.active)
  }

  /** A whole call of `execute`. */
  datatype Run = Run(outcome: ES.Outcome, reports: seq<ES.Report>, blend: ES.Blend, selected: seq<string>,
                     active: Option<string>, stored: bool)

  const ServerNotRunning := "Server not running. Please restart the the addon."
  const NothingSelected := "No objects selected. Please select at least one object to export."

  function ExecuteRun(o: Options, m: Modules, k: Kernels, running: bool, b: ES.Blend, selection: seq<string>,
                      active: Option<string>, analysed: seq<string>): Run {
    if !running then Run(ES.Cancelled, [ES.Report(ES.Error, ServerNotRunning)], b, selection, active, false)
    else if selection == [] then Run(ES.Cancelled, [ES.Report(ES.Error, NothingSelected)], b, selection, active, false)
    else
      var e := Conclude(o, m, k, Prepare(o, m, k, b, selection, active), selection, analysed);
      var (b2, selected, act) := Finally(e.state, selection);
      Run(e.outcome, e.reports, b2, selected, act, e.stored)
  }

  // ---------------------------------------------------------------------------------------
  // What `execute` promises

  /** The `try` block's ending changes neither the data nor the temps: only the selection. */
  lemma ConcludeKeepsData(o: Options, m: Modules, k: Kernels, s: Staged, selection: seq<string>, analysed: seq<string>)
    ensures var e := Conclude(o, m, k, s, selection, analysed);
            e.state.blend == s.blend && e.state.temps == s.temps
  {
  }


  /** Where copies come from: they are made only when a stage that wants them is on and the
      selection holds a mesh object, always when one of those has a readable mesh, each is
      named `TEMP_EXPORT_` followed by the name of a selected object, and once made they are
      what every later stage works on. */
  lemma CopiesMadeWhen(o: Options, b: ES.Blend, selection: seq<string>, active: Option<string>)
    ensures var c := CopyStage(o, b, selection, active);
            && (c.temps != [] ==> WantsCopies(o) && exists n :: n in selection && n in b.objects && b.objects[n].kind == Mesh)
            && (WantsCopies(o) && (exists n :: n in selection && n in b.objects && MeshOf(b.objects[n], b.meshes).Some?) ==> c.temps != [])
            && (forall t :: t in c.temps ==> exists n :: n in selection && StartsWith(t, TempPrefix + n))
            && (c.temps != [] ==> Targets(c, MeshObjects(b.objects, selection)) == c.temps)
  {
    var c := CopyStage(o, b, selection, active);
    var mo := MeshObjects(b.objects, selection);
    if c.temps != [] {
      var n := mo[0];
      assert n in mo;
    }
    if WantsCopies(o) && exists n :: n in selection && n in b.objects && MeshOf(b.objects[n], b.meshes).Some? {
      var n :| n in selection && n in b.objects && MeshOf(b.objects[n], b.meshes).Some?;
      assert n in mo;
    }
  }

  /** No target is bound to a mesh of the user's data `b`. */
  predicate Isolated(b: ES.Blend, b1: ES.Blend, targets: seq<string>) {
    forall d :: d in ES.BoundMeshes(b1, targets) ==> d !in b.meshes
  }

  /** Whenever a stage that wants copies is on, its targets touch no mesh of the user's: they
      are the copies, or originals whose mesh cannot be read. */
  lemma TargetsIsolated(o: Options, b: ES.Blend, selection: seq<string>, active: Option<string>)
    requires WantsCopies(o)
    ensures var c := CopyStage(o, b, selection, active);
            Isolated(b, c.blend, Targets(c, MeshObjects(b.objects, selection)))
  {
    var c := CopyStage(o, b, selection, active);
    var mo := MeshObjects(b.objects, selection);
    if mo != [] {
      CopyAllInv(b, mo);
    }
    var targets := Targets(c, mo);
    forall d | d in ES.BoundMeshes(c.blend, targets)
      ensures d !in b.meshes
    {
      var t :| t in targets && t in c.blend.objects && c.blend.objects[t].data.Some? && c.blend.objects[t].data.value == d;
      if c.temps != [] {
        assert NewCopy(b, c.blend, t);
      } else {
        assert t in mo && MeshOf(b.objects[t], b.meshes).None?;
      }
    }
  }

  /** A pass on isolated targets keeps the invariant. */
  lemma PassKeepsCopyInv(b: ES.Blend, s: ES.Blend, r: ES.Blend, temps: seq<string>, targets: seq<string>)
    requires ES.WellBound(b) && b.hidden <= b.objects.Keys
    requires CopyInv(b, s, temps) && Isolated(b, s, targets) && PassOn(s, r, targets)
    ensures CopyInv(b, r, temps) && Isolated(b, r, targets)
  {
    assert r.objects == s.objects;
    PassUnhidesOnlyTemps(b, s, r, temps, targets);
    SameBindings(s, r, temps, targets);
    forall d | d in b.meshes
      ensures d in r.meshes && r.meshes[d] == b.meshes[d]
    {
      assert d !in ES.BoundMeshes(s, targets);
    }
    forall t | t in temps
      ensures NewCopy(b, r, t)
    {
      assert NewCopy(b, s, t);
    }
  }

  /** A pass unhides only objects whose mesh it could read; with the user's objects all bound
      to meshes of theirs, those are temps, so none of the user's hidden objects is shown. */
  lemma PassUnhidesOnlyTemps(b: ES.Blend, s: ES.Blend, r: ES.Blend, temps: seq<string>, targets: seq<string>)
    requires ES.WellBound(b) && b.hidden <= b.objects.Keys
    requires CopyInv(b, s, temps) && Isolated(b, s, targets) && PassOn(s, r, targets)
    ensures b.hidden <= r.hidden
  {
    forall h | h in s.hidden && h !in r.hidden
      ensures h !in b.hidden
    {
      var t :| t in targets && t in s.objects && MeshOf(s.objects[t], s.meshes).Some? && s.objects[t].name == h;
      assert s.objects[t].data.value in ES.BoundMeshes(s, targets);
      assert t !in b.objects;
      assert NewCopy(b, s, t);
    }
  }

  /** The mesh sets named through the objects depend on the objects alone. */
  lemma SameBindings(s: ES.Blend, r: ES.Blend, temps: seq<string>, targets: seq<string>)
    requires r.objects == s.objects
    ensures TempMeshes(r, temps) == TempMeshes(s, temps)
    ensures ES.BoundMeshes(r, targets) == ES.BoundMeshes(s, targets)
  {
    assert forall t :: DataOf(r, t) == DataOf(s, t);
  }

  /** Nothing the stages before the material check do reaches the user's own objects, meshes,
      images or materials. */
  lemma PrepareKeepsOriginals(o: Options, m: Modules, k: Kernels, b: ES.Blend, selection: seq<string>, active: Option<string>)
    requires ES.WellBound(b) && b.hidden <= b.objects.Keys
    ensures var p := Prepare(o, m, k, b, selection, active);
            CopyInv(b, p.blend, p.temps)
  {
    var c := CopyStage(o, b, selection, active);
    var mo := MeshObjects(b.objects, selection);
    var targets := Targets(c, mo);
    if WantsCopies(o) && mo != [] {
      CopyAllInv(b, mo);
    } else {
      assert TempMeshes(b, []) == {};
    }
    assert CopyInv(b, c.blend, c.temps);
    if WantsCopies(o) {
      TargetsIsolated(o, b, selection, active);
      var u := UvStage(o, m, k, c, targets);
      PassKeepsCopyInv(b, c.blend, u.blend, c.temps, targets);
      var rp := RepairStage(o, m, k, u, targets);
      PassKeepsCopyInv(b, u.blend, rp.blend, c.temps, targets);
      var dp := DecimateStage(o, k, rp, targets);
      PassKeepsCopyInv(b, rp.blend, dp.blend, c.temps, targets);
    }
  }

  /** What is left after the first `i` temps of the `finally` loop. */
  predicate RemovedUpTo(b3: ES.Blend, temps: seq<string>, i: nat, r: ES.Blend)
    requires i <= |temps|
  {
    r.objects == b3.objects - ES.NameSet(temps[..i]) && r.hidden == b3.hidden - ES.NameSet(temps[..i])
    && r.meshes == b3.meshes - TempMeshes(b3, temps[..i]) && r.images == b3.images && r.materials == b3.materials
  }

  /** Temp `i - 1` and its mesh are still there after the earlier temps are removed. */
  lemma NotYetRemoved(b: ES.Blend, b3: ES.Blend, temps: seq<string>, i: nat)
    requires CopyInv(b, b3, temps) && 0 < i <= |temps|
    ensures temps[i - 1] !in ES.NameSet(temps[..i - 1])
    ensures DataOf(b3, temps[i - 1]).Some? && DataOf(b3, temps[i - 1]).value !in TempMeshes(b3, temps[..i - 1])
  {
    var pre := temps[..i - 1];
    var t := temps[i - 1];
    assert t in temps && NewCopy(b, b3, t);
    forall y | y in pre
      ensures y != t && DataOf(b3, y) != DataOf(b3, t)
    {
      var j :| 0 <= j < |pre| && pre[j] == y;
      assert temps[j] == y;
    }
  }

  /** Once temp `i - 1` is removed, no object is bound to its mesh any more. */
  lemma MeshNowUnused(b: ES.Blend, b3: ES.Blend, temps: seq<string>, i: nat, objs: map<string, Obj>)
    requires CopyInv(b, b3, temps) && ES.WellBound(b) && 0 < i <= |temps|
    requires objs.Keys <= b3.objects.Keys - ES.NameSet(temps[..i])
    requires forall x :: x in objs ==> objs[x] == b3.objects[x]
    ensures DataOf(b3, temps[i - 1]).Some? && ES.Unused(objs, DataOf(b3, temps[i - 1]).value)
  {
    var t := temps[i - 1];
    assert t in temps && NewCopy(b, b3, t);
    var d := b3.objects[t].data.value;
    forall x | x in objs
      ensures objs[x].data != Some(d)
    {
      assert x !in temps[..i];
      if x in b.objects {
        assert objs[x] == b.objects[x];
      } else {
        assert x in temps;
        var j :| 0 <= j < |temps| && temps[j] == x;
        forall j' | 0 <= j' < i
          ensures temps[j'] != x
        {
          assert temps[..i][j'] == temps[j'];
        }
        assert DataOf(b3, temps[j]) != DataOf(b3, temps[i - 1]);
      }
    }
  }

  /** Removing one temp whose mesh has no other user, from data already missing the names `a`
      and the meshes `ms`. */
  lemma RemoveOne(b3: ES.Blend, r0: ES.Blend, a: set<string>, ms: set<string>, t: string, d: string)
    requires r0.objects == b3.objects - a && r0.hidden == b3.hidden - a && r0.meshes == b3.meshes - ms
    requires r0.images == b3.images && r0.materials == b3.materials
    requires t in r0.objects && r0.objects[t].data == Some(d) && d in r0.meshes
    requires ES.Unused(r0.objects - {t}, d)
    ensures var r := RemoveTemp(r0, t);
            r.objects == b3.objects - (a + {t}) && r.hidden == b3.hidden - (a + {t})
            && r.meshes == b3.meshes - (ms + {d}) && r.images == b3.images && r.materials == b3.materials
  {
    assert (b3.objects - a) - {t} == b3.objects - (a + {t});
    assert (b3.meshes - ms) - {d} == b3.meshes - (ms + {d});
  }

  /** The names and temp meshes of one more prefix entry. */
  lemma PrefixSnoc(b3: ES.Blend, temps: seq<string>, i: nat)
    requires 0 < i <= |temps|
    ensures ES.NameSet(temps[..i]) == ES.NameSet(temps[..i - 1]) + {temps[i - 1]}
    ensures TempMeshes(b3, temps[..i]) == TempMeshes(b3, temps[..i - 1])
                                         + (if DataOf(b3, temps[i - 1]).Some? then {DataOf(b3, temps[i - 1]).value} else {})
    ensures RemoveTemps(b3, temps[..i]) == RemoveTemp(RemoveTemps(b3, temps[..i - 1]), temps[i - 1])
  {
    assert temps[..i][..i - 1] == temps[..i - 1];
    assert temps[..i] == temps[..i - 1] + [temps[i - 1]];
  }

  /** One step of the `finally` loop on the invariant's data: temp `i - 1` and its mesh go. */
  lemma RemoveTempStep(b: ES.Blend, b3: ES.Blend, temps: seq<string>, i: nat)
    requires CopyInv(b, b3, temps) && ES.WellBound(b) && 0 < i <= |temps|
    requires RemovedUpTo(b3, temps, i - 1, RemoveTemps(b3, temps[..i - 1]))
    ensures RemovedUpTo(b3, temps, i, RemoveTemps(b3, temps[..i]))
  {
    var r0 := RemoveTemps(b3, temps[..i - 1]);
    var t := temps[i - 1];
    NotYetRemoved(b, b3, temps, i);
    var d := DataOf(b3, t).value;
    PrefixSnoc(b3, temps, i);
    MeshNowUnused(b, b3, temps, i, r0.objects - {t});
    RemoveOne(b3, r0, ES.NameSet(temps[..i - 1]), TempMeshes(b3, temps[..i - 1]), t, d);
  }

  /** Before the `finally` loop nothing is removed. */
  lemma RemovedNone(b3: ES.Blend, temps: seq<string>)
    ensures RemovedUpTo(b3, temps, 0, RemoveTemps(b3, temps[..0]))
  {
    assert temps[..0] == [];
    assert ES.NameSet([]) == {} && TempMeshes(b3, []) == {};
  }

  lemma {:induction false} RemoveTempsFacts(b: ES.Blend, b3: ES.Blend, temps: seq<string>, i: nat)
    requires CopyInv(b, b3, temps) && ES.WellBound(b) && i <= |temps|
    ensures RemovedUpTo(b3, temps, i, RemoveTemps(b3, temps[..i]))
    decreases i
  {
    if i == 0 {
      RemovedNone(b3, temps);
    } else {
      RemoveTempsFacts(b, b3, temps, i - 1);
      RemoveTempStep(b, b3, temps, i);
    }
  }

  /** The `finally` block undoes the copies exactly: once every temp and its mesh are gone,
      the user's data is as it was before `execute`. */
  lemma FinallyRestores(b: ES.Blend, b3: ES.Blend, temps: seq<string>)
    requires CopyInv(b, b3, temps) && ES.WellBound(b) && b.hidden <= b.objects.Keys
    ensures RemoveTemps(b3, temps) == b
  {
    RemoveTempsFacts(b, b3, temps, |temps|);
    assert temps[..|temps|] == temps;
    var r := RemoveTemps(b3, temps);
    forall t | t in temps
      ensures t !in b.objects && DataOf(b3, t).Some? && DataOf(b3, t).value !in b.meshes
    {
      assert NewCopy(b, b3, t);
    }
    assert r.objects == b.objects;
    assert r.meshes.Keys == b.meshes.Keys;
    assert r.meshes == b.meshes;
    assert r.hidden == b.hidden;
  }

  /** `execute` never changes the user's data, on every path out of the `try` (the material
      block, a failed export and a finished one): the copies absorb every pass and the
      `finally` deletes them and their meshes; afterwards the saved selection is selected
      again, as far as its objects exist, with its first object active. */
  lemma ExecuteLeavesNoTrace(o: Options, m: Modules, k: Kernels, running: bool, b: ES.Blend, selection: seq<string>,
                             active: Option<string>, analysed: seq<string>)
    requires ES.WellBound(b) && b.hidden <= b.objects.Keys
    ensures var r := ExecuteRun(o, m, k, running, b, selection, active, analysed);
            && r.blend == b
            && (running && selection != [] ==>
                  r.selected == Present(selection, b.objects.Keys) && r.active == Some(selection[0]))
  {
    if running && selection != [] {
      var p := Prepare(o, m, k, b, selection, active);
      PrepareKeepsOriginals(o, m, k, b, selection, active);
      FinallyRestores(b, p.blend, p.temps);
      var e := Conclude(o, m, k, p, selection, analysed);
      ConcludeKeepsData(o, m, k, p, selection, analysed);
      assert Finally(e.state, selection).0 == b;
    }
  }

  /** The export is blocked exactly when the analyzer is present and some analysed material
      is not ready. */
  lemma BlockedIff(m: Modules, analysed: seq<string>, ready: string -> bool)
    ensures Blocked(m, analysed, ready) != [] <==> m.analyzer && exists n :: n in analysed && !ready(n)
  {
    var u := Blocked(m, analysed, ready);
    if m.analyzer && exists n :: n in analysed && !ready(n) {
      var n :| n in analysed && !ready(n);
      assert n in u;
    }
    if u != [] {
      assert u[0] in u;
    }
  }

  /** What `get_materials_to_analyze` sees after the passes: the materials of the objects then
      selected, collection instances included. */
  function MaterialsAt(s: Staged, collections: map<string, seq<Obj>>): set<string> {
    MaterialAnalyzer.MaterialsToAnalyze(ES.SelectedObjects(s.blend.objects, s.selected), collections)
  }

  /** Analysing an enumeration of those materials blocks the export exactly on the ones that are
      not ready, each named once. */
  lemma BlockedBySelection(m: Modules, analysed: seq<string>, ready: string -> bool, s: Staged,
                           collections: map<string, seq<Obj>>)
    requires m.analyzer ==> Enumerates(analysed, MaterialsAt(s, collections))
    ensures forall x :: x in Blocked(m, analysed, ready) <==> m.analyzer && x in MaterialsAt(s, collections) && !ready(x)
    ensures |Blocked(m, analysed, ready)| <= |MaterialsAt(s, collections)|
  {
    if m.analyzer {
      EnumerationSize(analysed, MaterialsAt(s, collections));
    }
  }

  /** How the `try` ends, whatever the passes left: blocked, failed or finished. */
  lemma ConcludeOutcome(o: Options, m: Modules, k: Kernels, s: Staged, selection: seq<string>, analysed: seq<string>)
    ensures var e := Conclude(o, m, k, s, selection, analysed);
            var u := Blocked(m, analysed, k.ready);
            && (e.outcome == ES.Finished <==> u == [] && k.gltf.None?)
            && (e.stored <==> e.outcome == ES.Finished && k.uploadFails)
            && e.state.blend == s.blend && e.state.temps == s.temps
            && e.reports[..|e.reports| - 1] == ES.Warnings(s.warnings)
            && (u != [] ==> e.reports[|e.reports| - 1] == ES.Report(ES.Error, BlockMessage(u)))
            && (u == [] && k.gltf.Some? ==> e.reports[|e.reports| - 1] == ES.Report(ES.Error, "Export failed: " + k.gltf.value))
  {
  }

  /** The outcomes of `execute`: it finishes exactly when the server runs, something is
      selected, no analysed material is unsupported and the exporter returns; the payload is
      stored on the server exactly when it finished and the upload raised; every warning of
      the passes is reported, in order, before the one final message. */
  lemma ExecuteOutcome(o: Options, m: Modules, k: Kernels, running: bool, b: ES.Blend, selection: seq<string>,
                       active: Option<string>, analysed: seq<string>)
    ensures var r := ExecuteRun(o, m, k, running, b, selection, active, analysed);
            var u := Blocked(m, analysed, k.ready);
            && (r.outcome == ES.Finished <==> running && selection != [] && u == [] && k.gltf.None?)
            && (r.stored <==> r.outcome == ES.Finished && k.uploadFails)
            && (running && selection != [] ==>
                  r.reports[..|r.reports| - 1] == ES.Warnings(Prepare(o, m, k, b, selection, active).warnings)
                  && (u != [] ==> r.reports[|r.reports| - 1] == ES.Report(ES.Error, BlockMessage(u)))
                  && (u == [] && k.gltf.Some? ==> r.reports[|r.reports| - 1] == ES.Report(ES.Error, "Export failed: " + k.gltf.value)))
  {
    if running && selection != [] {
      ConcludeOutcome(o, m, k, Prepare(o, m, k, b, selection, active), selection, analysed);
    }
  }

  /** With the analysed list enumerating the materials selected after the passes, `execute`
      finishes exactly when the server runs, something is selected, every one of those
      materials is ready (or the analyzer is missing) and the exporter returns. */
  lemma ExecuteAnalysesSelection(o: Options, m: Modules, k: Kernels, running: bool, b: ES.Blend, selection: seq<string>,
                                 active: Option<string>, analysed: seq<string>, collections: map<string, seq<Obj>>)
    requires running && selection != [] && m.analyzer ==>
               Enumerates(analysed, MaterialsAt(Prepare(o, m, k, b, selection, active), collections))
    ensures var r := ExecuteRun(o, m, k, running, b, selection, active, analysed);
            r.outcome == ES.Finished <==>
              running && selection != [] && k.gltf.None?
              && (m.analyzer ==> forall x :: x in MaterialsAt(Prepare(o, m, k, b, selection, active), collections) ==> k.ready(x))
  {
    ExecuteOutcome(o, m, k, running, b, selection, active, analysed);
    if running && selection != [] {
      var s := Prepare(o, m, k, b, selection, active);
      BlockedBySelection(m, analysed, k.ready, s, collections);
      var u := Blocked(m, analysed, k.ready);
      if u != [] {
        assert u[0] in u;
      }
    }
  }

  lemma EndsWithConcat(a: string, b: string, suffix: string)
    requires EndsWith(b, suffix)
    ensures EndsWith(a + b, suffix)
  {
    assert (a + b)[|a + b| - |suffix|..] == b[|b| - |suffix|..];
  }

  /** The block message names the first five unsupported materials and, when there are more,
      ends with how many were left out. */
  lemma BlockMessageNames(unsupported: seq<string>)
    ensures forall i :: 0 <= i < |unsupported| && i < 5 ==> Contains(BlockMessage(unsupported), unsupported[i])
    ensures |unsupported| > 5 ==> EndsWith(BlockMessage(unsupported), " (+" + NatToString(|unsupported| - 5) + " more)")
  {
    var head := BlockHead(|unsupported|);
    var list := ES.MaterialList(unsupported);
    forall i | 0 <= i < |unsupported| && i < 5
      ensures Contains(head + list, unsupported[i])
    {
      ContainsConcat(head, list, "", unsupported[i]);
    }
    if |unsupported| > 5 {
      EndsWithConcat(head, list, " (+" + NatToString(|unsupported| - 5) + " more)");
    }
  }

  /** The decimation gate: a mesh of at most 100 faces is never decimated, only COLLAPSE runs,
      and every object counted as decimated had more than 100 faces. */
  lemma DecimationGate(o: Options, k: Kernels, s: Staged, targets: seq<string>)
    ensures var r := DecimateStage(o, k, s, targets);
            && (forall d :: d in s.blend.meshes && |s.blend.meshes[d].faceMaterials| <= LegacyMinFaces ==> r.blend.meshes[d] == s.blend.meshes[d])
            && (o.decimateType != Properties.Collapse ==> r.blend == s.blend && r.info == s.info)
            && (o.decimation && o.decimateType == Properties.Collapse && targets != [] ==>
                  var t := DecimatePass(s.blend, targets, o.ratio, o.decimationMethod, k).1;
                  t.before >= (LegacyMinFaces + 1) * t.count
                  && r.info == s.info + ES.DecimationInfo(t.count, t.before, t.after, k.formatPercent))
  {
  }

  // ---------------------------------------------------------------------------------------
  // execute on the data

  lemma CopyAllSnoc(b: ES.Blend, names: seq<string>, i: nat)
    requires i < |names|
    ensures var (b1, temps) := CopyAll(b, names[..i]);
            var (b2, t) := CopyOne(b1, names[i]);
            CopyAll(b, names[..i + 1]) == (b2, temps + if t.Some? then [t.value] else [])
  {
    assert names[..i + 1][..i] == names[..i];
  }

  method CopyOneOnData(data: ES.BlendData, n: string) returns (t: Option<string>)
    modifies data
    ensures (data.State(), t) == CopyOne(old(data.State()), n)
  {
    if n in data.objects && MeshOf(data.objects[n], data.meshes).Some? {
      var o := data.objects[n];
      var name := FreshName(TempPrefix + n, data.objects.Keys);
      var d := FreshName(o.data.value, data.meshes.Keys);
      data.meshes := data.meshes[d := data.meshes[o.data.value]];
      data.objects := data.objects[name := o.(name := name, data := Some(d), inViewLayer := true)];
      if n in data.hidden {
        data.hidden := data.hidden + {name};
      }
      t := Some(name);
    } else {
      t := None;
    }
  }

  /** The copy loop. */
  method CopyTemps(data: ES.BlendData, names: seq<string>) returns (temps: seq<string>)
    modifies data
    ensures (data.State(), temps) == CopyAll(old(data.State()), names)
  {
    temps := [];
    ghost var st := data.State();
    var i := 0;
    while i < |names|
      invariant 0 <= i <= |names|
      invariant (data.State(), temps) == CopyAll(st, names[..i])
    {
      CopyAllSnoc(st, names, i);
      ghost var next := CopyAll(st, names[..i + 1]);
      ghost var step := CopyOne(data.State(), names[i]);
      assert next == (step.0, temps + if step.1.Some? then [step.1.value] else []);
      var t := CopyOneOnData(data, names[i]);
      if t.Some? {
        temps := temps + [t.value];
      }
      assert data.State() == next.0;
      assert temps == next.1;
      assert (data.State(), temps) == next;
      i := i + 1;
    }
    assert names[..i] == names;
  }

  /** The copies: deselect all, copy each mesh object and select the copies, the first one
      active. */
  method CopyOnData(o: Options, data: ES.BlendData, view: ViewState) returns (temps: seq<string>)
    modifies data, view
    ensures var c := CopyStage(o, old(data.State()), old(view.selected), old(view.active));
            data.State() == c.blend && temps == c.temps && view.selected == c.selected && view.active == c.active
  {
    var meshObjects := MeshObjects(data.objects, view.selected);
    temps := [];
    if WantsCopies(o) && meshObjects != [] {
      view.selected := [];
      temps := CopyTemps(data, meshObjects);
      view.selected := temps;
      if temps != [] {
        view.active := Some(temps[0]);
      }
    }
  }

  /** One target of the repair loop. */
  method RepairOne(data: ES.BlendData, t: string, tally: RepairTally, flags: RepairFlags, k: Kernels)
    returns (tally2: RepairTally)
    modifies data`meshes
    ensures (data.meshes, tally2) == RepairStep(data.objects, (old(data.meshes), tally), t, flags, k)
  {
    tally2 := tally;
    if t in data.objects && MeshOf(data.objects[t], data.meshes).Some? {
      var d := data.objects[t].data.value;
      var out := k.repair(data.meshes[d], flags);
      data.meshes := data.meshes[d := out.mesh];
      if out.success {
        tally2 := tally.(count := tally.count + 1, verts := tally.verts + out.verticesRemoved,
                         faces := tally.faces + out.facesRemoved);
      } else {
        var error := if out.error.Some? then out.error.value else "Unknown error";
        tally2 := tally.(warnings := tally.warnings + ["Failed to repair " + t + ": " + error]);
      }
    }
  }

  /** The repair loop. */
  method RepairObjects(data: ES.BlendData, targets: seq<string>, flags: RepairFlags, k: Kernels) returns (tally: RepairTally)
    modifies data
    ensures (data.meshes, tally) == RepairPass(old(data.State()), targets, flags, k)
    ensures data.State() == old(data.State()).(meshes := data.meshes)
  {
    tally := RepairTally(0, 0, 0, []);
    ghost var st := data.State();
    var i := 0;
    while i < |targets|
      invariant 0 <= i <= |targets|
      invariant (data.meshes, tally) == RepairPass(st, targets[..i], flags, k)
      invariant data.objects == st.objects && data.hidden == st.hidden
      invariant data.images == st.images && data.materials == st.materials
    {
      RepairPassSnoc(st, targets, i, flags, k);
      tally := RepairOne(data, targets[i], tally, flags, k);
      i := i + 1;
    }
    assert targets[..i] == targets;
  }

  /** One target of the decimation loop. */
  method DecimateOne(data: ES.BlendData, view: ViewState, t: string, tally: ES.Tally, ratio: real, methodName: string, k: Kernels)
    returns (tally2: ES.Tally)
    modifies data`meshes, view
    ensures (data.meshes, tally2) == DecimateStep(data.objects, (old(data.meshes), tally), t, ratio, methodName, k)
    ensures (view.selected, view.active) == DecimateViewStep(data.objects, old(data.meshes), old((view.selected, view.active)), t, ratio, k)
  {
    tally2 := tally;
    if t in data.objects && MeshOf(data.objects[t], data.meshes).Some?
       && |data.meshes[data.objects[t].data.value].faceMaterials| > LegacyMinFaces {
      var d := data.objects[t].data.value;
      var faces := |data.meshes[d].faceMaterials|;
      var previous := view.active;
      view.selected := [data.objects[t].name];
      view.active := Some(data.objects[t].name);
      var out := k.decimate(data.meshes[d], ratio);
      if out.success && previous.Some? {
        view.active := previous;
      }
      data.meshes := data.meshes[d := out.mesh];
      if out.success {
        tally2 := tally.(count := tally.count + 1, before := tally.before + faces, after := tally.after + out.facesAfter);
      } else {
        var warning := if out.error != "" then t + ": " + out.error
                       else "Failed to decimate " + t + " with " + methodName + " method. Check Blender console for details.";
        tally2 := tally.(before := tally.before + faces, warnings := tally.warnings + [warning]);
      }
    }
  }

  /** The decimation loop. */
  method DecimateObjects(data: ES.BlendData, view: ViewState, targets: seq<string>, ratio: real, methodName: string, k: Kernels)
    returns (tally: ES.Tally)
    modifies data, view
    ensures (data.meshes, tally) == DecimatePass(old(data.State()), targets, ratio, methodName, k)
    ensures (view.selected, view.active) == DecimateView(old(data.State()), targets, ratio, methodName, k, old((view.selected, view.active)))
    ensures data.State() == old(data.State()).(meshes := data.meshes)
  {
    tally := ES.Tally(0, 0, 0, []);
    ghost var st := data.State();
    ghost var v0 := (view.selected, view.active);
    var i := 0;
    while i < |targets|
      invariant 0 <= i <= |targets|
      invariant (data.meshes, tally) == DecimatePass(st, targets[..i], ratio, methodName, k)
      invariant (view.selected, view.active) == DecimateView(st, targets[..i], ratio, methodName, k, v0)
      invariant data.objects == st.objects && data.hidden == st.hidden
      invariant data.images == st.images && data.materials == st.materials
    {
      DecimatePassSnoc(st, targets, i, ratio, methodName, k);
      DecimateViewSnoc(st, targets, i, ratio, methodName, k, v0);
      tally := DecimateOne(data, view, targets[i], tally, ratio, methodName, k);
      i := i + 1;
    }
    assert targets[..i] == targets;
  }

  /** Auto UV on the data. */
  method UvOnData(o: Options, m: Modules, k: Kernels, data: ES.BlendData, view: ViewState, targets: seq<string>, ghost s: Staged,
                  info: seq<string>, warnings: seq<string>) returns (info2: seq<string>, warnings2: seq<string>)
    requires s.blend == data.State() && (s.selected, s.active) == (view.selected, view.active)
    requires s.info == info && s.warnings == warnings
    modifies data, view
    ensures UvStage(o, m, k, s, targets)
            == s.(blend := data.State(), selected := view.selected, active := view.active, info := info2, warnings := warnings2)
  {
    info2, warnings2 := info, warnings;
    if o.autoUv {
      if !m.uv {
        warnings2 := warnings + [UvUnavailable];
      } else if targets != [] {
        var vis := new Visibility(data.hidden);
        var store := new MeshStore(data.meshes);
        var stats := UvUnwrap.AutoUnwrapObjects(ES.SelectedObjects(data.objects, targets), data.objects.Keys, k.uvRaises,
                                                view, vis, store);
        data.hidden := vis.hidden;
        data.meshes := store.meshes;
        info2 := info + ES.CountInfo(stats.unwrapped, "UV unwrapped ", " objects");
      }
    }
  }

  /** Mesh repair on the data. */
  method RepairOnData(o: Options, m: Modules, k: Kernels, data: ES.BlendData, targets: seq<string>, ghost s: Staged,
                      info: seq<string>, warnings: seq<string>) returns (info2: seq<string>, warnings2: seq<string>)
    requires s.blend == data.State() && s.info == info && s.warnings == warnings
    modifies data
    ensures RepairStage(o, m, k, s, targets) == s.(blend := data.State(), info := info2, warnings := warnings2)
  {
    info2, warnings2 := info, warnings;
    if o.repair {
      if !m.repair {
        warnings2 := warnings + [RepairUnavailable];
      } else if targets != [] {
        var t := RepairObjects(data, targets, o.repairFlags, k);
        info2, warnings2 := info + RepairInfo(t), warnings + t.warnings;
      }
    }
  }

  /** Decimation on the data. */
  method DecimateOnData(o: Options, k: Kernels, data: ES.BlendData, view: ViewState, targets: seq<string>, ghost s: Staged,
                        info: seq<string>, warnings: seq<string>) returns (info2: seq<string>, warnings2: seq<string>)
    requires s.blend == data.State() && (s.selected, s.active) == (view.selected, view.active)
    requires s.info == info && s.warnings == warnings
    modifies data, view
    ensures DecimateStage(o, k, s, targets)
            == s.(blend := data.State(), selected := view.selected, active := view.active, info := info2, warnings := warnings2)
  {
    info2, warnings2 := info, warnings;
    if o.decimation {
      if o.decimateType != Properties.Collapse {
        warnings2 := warnings + ["Decimation only supports Collapse type. " + DecimateTypeName(o.decimateType) + " type not supported."];
      } else if targets != [] {
        var t := DecimateObjects(data, view, targets, o.ratio, o.decimationMethod, k);
        info2 := info + ES.DecimationInfo(t.count, t.before, t.after, k.formatPercent);
        warnings2 := warnings + t.warnings;
      }
    }
  }

  /** The stages inside the `try` up to the material check. */
  method PrepareOnData(o: Options, m: Modules, k: Kernels, data: ES.BlendData, view: ViewState)
    returns (temps: seq<string>, info: seq<string>, warnings: seq<string>)
    modifies data, view
    ensures Prepare(o, m, k, old(data.State()), old(view.selected), old(view.active))
            == Staged(data.State(), temps, view.selected, view.active, info, warnings)
  {
    var meshObjects := MeshObjects(data.objects, view.selected);
    temps := CopyOnData(o, data, view);
    ghost var c := Staged(data.State(), temps, view.selected, view.active, [], []);
    var targets := if temps != [] then temps else meshObjects;
    assert targets == Targets(c, meshObjects);
    info, warnings := UvOnData(o, m, k, data, view, targets, c, [], []);
    ghost var u := UvStage(o, m, k, c, targets);
    info, warnings := RepairOnData(o, m, k, data, targets, u, info, warnings);
    ghost var r := RepairStage(o, m, k, u, targets);
    info, warnings := DecimateOnData(o, k, data, view, targets, r, info, warnings);
  }

  /** Selecting the saved selection again: what still exists, the first saved object active. */
  method Reselect(view: ViewState, selection: seq<string>, existing: set<string>)
    requires selection != []
    modifies view
    ensures view.selected == Present(selection, existing) && view.active == Some(selection[0])
  {
    view.selected := [];
    var i := 0;
    while i < |selection|
      invariant 0 <= i <= |selection|
      invariant view.selected == Present(selection[..i], existing)
    {
      assert selection[..i + 1][..i] == selection[..i];
      if selection[i] in existing {
        view.selected := view.selected + [selection[i]];
      }
      i := i + 1;
    }
    assert selection[..i] == selection;
    view.active := Some(selection[0]);
  }

  method RemoveTempOnData(data: ES.BlendData, t: string)
    modifies data
    ensures data.State() == RemoveTemp(old(data.State()), t)
  {
    if t in data.objects {
      var d := data.objects[t].data;
      data.objects := data.objects - {t};
      data.hidden := data.hidden - {t};
      if d.Some? && d.value in data.meshes && ES.Unused(data.objects, d.value) {
        data.meshes := data.meshes - {d.value};
      }
    }
  }

  /** The deletion loop of the `finally` block. */
  method RemoveTempObjects(data: ES.BlendData, temps: seq<string>)
    modifies data
    ensures data.State() == RemoveTemps(old(data.State()), temps)
  {
    ghost var st := data.State();
    var i := 0;
    while i < |temps|
      invariant 0 <= i <= |temps|
      invariant data.State() == RemoveTemps(st, temps[..i])
    {
      assert temps[..i + 1][..i] == temps[..i];
      RemoveTempOnData(data, temps[i]);
      i := i + 1;
    }
    assert temps[..i] == temps;
  }

  /** The `finally` block. */
  method FinallyOnData(data: ES.BlendData, view: ViewState, temps: seq<string>, selection: seq<string>, ghost s: Staged)
    requires s.blend == data.State() && s.temps == temps && selection != []
    modifies data, view
    ensures (data.State(), view.selected, view.active) == Finally(s, selection)
  {
    if temps != [] {
      view.selected := [];
      RemoveTempObjects(data, temps);
    }
    Reselect(view, selection, data.objects.Keys);
  }

  /** The material check, the export and the upload fallback, up to the `finally`. */
  method ConcludeOnData(o: Options, m: Modules, k: Kernels, data: ES.BlendData, view: ViewState, server: Server,
                        selection: seq<string>, analysed: seq<string>, temps: seq<string>, info: seq<string>,
                        warnings: seq<string>, ghost s: Staged) returns (outcome: ES.Outcome, reports: seq<ES.Report>)
    requires s == Staged(data.State(), temps, view.selected, view.active, info, warnings)
    modifies view, server`latestGlb
    ensures var e := Conclude(o, m, k, s, selection, analysed);
            && outcome == e.outcome && reports == e.reports
            && e.state == Staged(data.State(), temps, view.selected, view.active, e.state.info, warnings)
            && server.latestGlb == if e.stored then Some(k.glbSize) else old(server.latestGlb)
  {
    var unsupported: seq<string> := [];
    if m.analyzer {
      unsupported := ES.AnalyseMaterials(analysed, k.ready);
    }
    if unsupported != [] {
      return ES.Cancelled, ES.Warnings(warnings) + [ES.Report(ES.Error, BlockMessage(unsupported))];
    }
    if temps == [] && selection != [] {
      Reselect(view, selection, data.objects.Keys);
    }
    var parts := info + [ES.DracoInfo(o.useDraco, o.level)];
    if k.gltf.Some? {
      return ES.Cancelled, ES.Warnings(warnings) + [ES.Report(ES.Error, "Export failed: " + k.gltf.value)];
    }
    if k.uploadFails {
      server.latestGlb := Some(k.glbSize);
    }
    var message := "Exported " + k.formatMb(k.glbSize) + "MB" + ES.InfoString(parts) + " to Framo";
    outcome, reports := ES.Finished, ES.Warnings(warnings) + [ES.Report(ES.Info, message)];
  }

  /** `FRAMO_OT_export_to_web.execute`. */
  method Execute(settings: LegacySettings, data: ES.BlendData, view: ViewState, server: Server, m: Modules, k: Kernels,
                 collections: map<string, seq<Obj>>, analysed: seq<string>) returns (outcome: ES.Outcome, reports: seq<ES.Report>)
    requires server.running && view.selected != [] && m.analyzer ==>
               Enumerates(analysed, MaterialsAt(Prepare(OptionsOf(settings), m, k, data.State(), view.selected, view.active), collections))
    modifies data, view, server`latestGlb
    ensures var r := ExecuteRun(OptionsOf(settings), m, k, server.running, old(data.State()), old(view.selected),
                                old(view.active), analysed);
            && outcome == r.outcome && reports == r.reports && data.State() == r.blend
            && view.selected == r.selected && view.active == r.active
            && server.latestGlb == if r.stored then Some(k.glbSize) else old(server.latestGlb)
  {
    if !server.running {
      return ES.Cancelled, [ES.Report(ES.Error, ServerNotRunning)];
    }
    var selection := view.selected;
    if selection == [] {
      return ES.Cancelled, [ES.Report(ES.Error, NothingSelected)];
    }
    var o := OptionsOf(settings);
    var temps, info, warnings := PrepareOnData(o, m, k, data, view);
    ghost var p := Staged(data.State(), temps, view.selected, view.active, info, warnings);
    outcome, reports := ConcludeOnData(o, m, k, data, view, server, selection, analysed, temps, info, warnings, p);
    ghost var e := Conclude(o, m, k, p, selection, analysed);
    FinallyOnData(data, view, temps, selection, e.state);
  }
}
