/** The scene-level export settings (`FramoExportSettings`), the compression preset table
    applied when the preset changes, and the export-status helpers. */
module Properties {
  import opened Wrappers

  datatype CompressionPreset = NoCompression | Low | Medium | High | Custom

  /** The five Draco fields a preset writes. */
  datatype Draco = Draco(enabled: bool, level: int, position: int, normal: int, texcoord: int)

  /** The declared bounds: level 0..10, every quantization 8..16 bits. */
  predicate DracoInBounds(d: Draco) {
    0 <= d.level <= 10 && 8 <= d.position <= 16 && 8 <= d.normal <= 16 && 8 <= d.texcoord <= 16
  }

  /** The fixed values of the three numeric presets. */
  function PresetValues(p: CompressionPreset): Option<Draco> {
    match p
    case Low => Some(Draco(true, 3, 16, 12, 14))
    case Medium => Some(Draco(true, 6, 14, 10, 12))
    case High => Some(Draco(true, 10, 11, 8, 10))
    case _ => None
  }

  /** `update_compression_preset` on the Draco fields. */
  function ApplyPreset(p: CompressionPreset, d: Draco): (r: Draco)
    ensures p == Custom ==> r == d
    ensures p == NoCompression ==> !r.enabled && r == d.(enabled := false)
    ensures PresetValues(p).Some? ==> r.enabled && DracoInBounds(r)
    ensures r.enabled <==> p in {Low, Medium, High} || (p == Custom && d.enabled)
  {
    match p
    case NoCompression => d.(enabled := false)
    case Custom => d
    case _ => PresetValues(p).value
  }

  /** Re-selecting the same preset changes nothing. */
  lemma ApplyPresetIdempotent(p: CompressionPreset, d: Draco)
    ensures ApplyPreset(p, ApplyPreset(p, d)) == ApplyPreset(p, d)
  {
  }

  /** A preset never takes an in-bounds setting out of bounds. */
  lemma ApplyPresetKeepsBounds(p: CompressionPreset, d: Draco)
    requires DracoInBounds(d)
    ensures DracoInBounds(ApplyPreset(p, d))
  {
  }

  /** A numeric preset's result does not depend on the previous settings. */
  lemma ApplyPresetOverwrites(p: CompressionPreset, d: Draco, e: Draco)
    requires p in {Low, Medium, High}
    ensures ApplyPreset(p, d) == ApplyPreset(p, e)
  {
  }

  /** Stronger presets compress harder and quantize more coarsely. */
  lemma PresetsAreOrdered()
    ensures PresetValues(Low).value.level < PresetValues(Medium).value.level < PresetValues(High).value.level
    ensures PresetValues(Low).value.position > PresetValues(Medium).value.position > PresetValues(High).value.position
  {
  }

  const DefaultDraco := Draco(true, 6, 14, 10, 12)
  const DefaultPreset := Medium

  /** The declared Draco defaults are what the default preset writes. */
  lemma DefaultsMatchDefaultPreset(d: Draco)
    ensures ApplyPreset(DefaultPreset, d) == DefaultDraco
    ensures DracoInBounds(DefaultDraco)
  {
  }

  /** One entry of `subdiv_individual_overrides`. */
  datatype SubdivOverride = SubdivOverride(objectName: string, level: int)
  /** One entry of `decimate_individual_overrides`. */
  datatype DecimateOverride = DecimateOverride(objectName: string, ratio: real)

  const DefaultOverrideLevel := 3
  const DefaultOverrideRatio := 0.1

  predicate SubdivOverrideInBounds(o: SubdivOverride) { 0 <= o.level <= 6 }
  predicate RatioInBounds(r: real) { 0.01 <= r <= 1.0 }

  lemma OverrideDefaultsInBounds(name: string)
    ensures SubdivOverrideInBounds(SubdivOverride(name, DefaultOverrideLevel))
    ensures RatioInBounds(DefaultOverrideRatio)
  {
  }

  datatype DecimateType = Collapse | Unsubdiv | Dissolve

  class ExportSettings {
    var useDraco: bool
    var dracoCompressionLevel: int
    var dracoQuantizationPosition: int
    var dracoQuantizationNormal: int
    var dracoQuantizationTexcoord: int
    var compressionPreset: CompressionPreset
    var enableDecimation: bool
    var decimateRatio: real
    var decimateType: DecimateType
    var enableAutoUv: bool
    var enableUvAtlasing: bool
    var atlasMinObjects: int
    var enableSubdivOverride: bool
    var subdivOverrideLevel: int
    var subdivExcludeObjects: seq<string>
    var subdivIndividualOverrides: seq<SubdivOverride>
    var decimateExcludeObjects: seq<string>
    var decimateIndividualOverrides: seq<DecimateOverride>
    var enableTextureOptimization: bool
    var textureMaxSize: nat
    var textureExcludeMaterials: seq<string>
    var exportStatus: string
    var isExporting: bool

    function DracoSettings(): Draco
      reads this
    {
      Draco(useDraco, dracoCompressionLevel, dracoQuantizationPosition, dracoQuantizationNormal,
            dracoQuantizationTexcoord)
    }

    /** The bounds Blender enforces on every assignment to these properties. */
    predicate Valid()
      reads this
    {
      DracoInBounds(DracoSettings()) && RatioInBounds(decimateRatio) && 2 <= atlasMinObjects <= 10
      && 0 <= subdivOverrideLevel <= 4 && textureMaxSize in {2048, 1024, 512, 256}
      && (forall o :: o in subdivIndividualOverrides ==> SubdivOverrideInBounds(o))
      && (forall o :: o in decimateIndividualOverrides ==> RatioInBounds(o.ratio))
    }

    /** The declared defaults. */
    constructor()
      ensures Valid()
      ensures DracoSettings() == DefaultDraco && compressionPreset == DefaultPreset
      ensures !enableDecimation && decimateRatio == 0.1 && decimateType == Collapse
      ensures enableAutoUv && enableUvAtlasing && atlasMinObjects == 2
      ensures enableSubdivOverride && subdivOverrideLevel == 2
      ensures enableTextureOptimization && textureMaxSize == 1024
      ensures subdivExcludeObjects == [] && subdivIndividualOverrides == []
      ensures decimateExcludeObjects == [] && decimateIndividualOverrides == [] && textureExcludeMaterials == []
      ensures exportStatus == "" && !isExporting
    {
      useDraco, dracoCompressionLevel := true, 6;
      dracoQuantizationPosition, dracoQuantizationNormal, dracoQuantizationTexcoord := 14, 10, 12;
      compressionPreset := Medium;
      enableDecimation, decimateRatio, decimateType := false, 0.1, Collapse;
      enableAutoUv, enableUvAtlasing, atlasMinObjects := true, true, 2;
      enableSubdivOverride, subdivOverrideLevel := true, 2;
      subdivExcludeObjects, subdivIndividualOverrides := [], [];
      decimateExcludeObjects, decimateIndividualOverrides := [], [];
      enableTextureOptimization, textureMaxSize, textureExcludeMaterials := true, 1024, [];
      exportStatus, isExporting := "", false;
    }

    /** `update_compression_preset`: the preset's values replace the Draco fields. */
    method UpdateCompressionPreset()
      modifies this
      ensures DracoSettings() == ApplyPreset(compressionPreset, old(DracoSettings()))
      ensures compressionPreset == old(compressionPreset)
      ensures old(Valid()) ==> Valid()
      ensures unchanged(this`enableDecimation, this`decimateRatio, this`decimateType, this`enableAutoUv,
                        this`enableUvAtlasing, this`atlasMinObjects, this`enableSubdivOverride,
                        this`subdivOverrideLevel, this`subdivExcludeObjects, this`subdivIndividualOverrides)
      ensures unchanged(this`decimateExcludeObjects, this`decimateIndividualOverrides,
                        this`enableTextureOptimization, this`textureMaxSize, this`textureExcludeMaterials,
                        this`exportStatus, this`isExporting)
    {
      match compressionPreset
      case NoCompression =>
        useDraco := false;
      case Low =>
        useDraco := true;
        dracoCompressionLevel := 3;
        dracoQuantizationPosition := 16;
        dracoQuantizationNormal := 12;
        dracoQuantizationTexcoord := 14;
      case Medium =>
        useDraco := true;
        dracoCompressionLevel := 6;
        dracoQuantizationPosition := 14;
        dracoQuantizationNormal := 10;
        dracoQuantizationTexcoord := 12;
      case High =>
        useDraco := true;
        dracoCompressionLevel := 10;
        dracoQuantizationPosition := 11;
        dracoQuantizationNormal := 8;
        dracoQuantizationTexcoord := 10;
      case Custom =>
    }

    /** `update_export_status` without the redraw. */
    method UpdateExportStatus(text: string)
      modifies this`exportStatus
      ensures exportStatus == text
    {
      exportStatus := text;
    }
  }

  /** Index of the first window whose scene carries export settings. */
  function FirstWithSettings(scenes: seq<Option<ExportSettings>>): (r: nat)
    ensures r <= |scenes|
    ensures r < |scenes| ==> scenes[r].Some?
    ensures forall j :: 0 <= j < r ==> scenes[j].None?
    decreases |scenes|
  {
    if scenes == [] || scenes[0].Some? then 0 else 1 + FirstWithSettings(scenes[1..])
  }

  /** The settings `clear_export_status` writes to: those of the first window that has any. */
  function ClearTarget(scenes: seq<Option<ExportSettings>>): Option<ExportSettings> {
    var k := FirstWithSettings(scenes);
    if k < |scenes| then scenes[k] else None
  }

  /** `clear_export_status`: `scenes` lists, per window, the settings of its scene (None when
      the window has no screen or scene, or the scene has no settings). When the timer context
      forbids writing, `writable` is false and nothing changes. The callback never repeats. */
  method ClearExportStatus(scenes: seq<Option<ExportSettings>>, writable: bool) returns (again: Option<real>)
    modifies set i | 0 <= i < |scenes| && scenes[i].Some? :: scenes[i].value`exportStatus
    ensures again == None
    ensures writable && ClearTarget(scenes).Some? ==> ClearTarget(scenes).value.exportStatus == ""
    ensures forall s :: s in scenes && s.Some? && (!writable || s != ClearTarget(scenes))
              ==> s.value.exportStatus == old(s.value.exportStatus)
  {
    if !writable {
      return None;
    }
    var i := 0;
    while i < |scenes| && scenes[i].None?
      invariant 0 <= i <= |scenes|
      invariant forall j :: 0 <= j < i ==> scenes[j].None?
    {
      i := i + 1;
    }
    assert i == FirstWithSettings(scenes);
    if i < |scenes| {
      scenes[i].value.exportStatus := "";
    }
    return None;
  }
}
