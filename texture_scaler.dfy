/** The Blender-native texture pass of `texture_scaler.py`: the render image-format settings
    that saving an image goes through, the output-format choice, the scale and compress
    decisions, the image substitution in the selection's materials and the loop that drives
    them, and the read-only texture analysis. */
module TextureScaler {
  import opened Wrappers
  import opened Strings
  import opened Scene
  import opened MaterialAnalyzer
  import opened Images

  /** `is_webp_supported`: WebP output needs Blender 3.0 or later. */
  predicate IsWebpSupported(major: int) {
    major >= 3
  }

  /** The five fields of `scene.render.image_settings` the pass touches. */
  datatype RenderSettings = RenderSettings(fileFormat: string, quality: int, compression: int,
                                           colorMode: string, colorDepth: string)

  /** `scene.render.image_settings`, updated in place. */
  class ImageSettings {
    var fileFormat: string
    var quality: int
    var compression: int
    var colorMode: string
    var colorDepth: string

    constructor(s: RenderSettings)
      ensures Snapshot() == s
    {
      fileFormat, quality, compression, colorMode, colorDepth :=
        s.fileFormat, s.quality, s.compression, s.colorMode, s.colorDepth;
    }

    /** `get_image_format_settings`. */
    function Snapshot(): RenderSettings
      reads this
    {
      RenderSettings(fileFormat, quality, compression, colorMode, colorDepth)
    }

    /** `restore_image_format_settings`: all five fields written back. */
    method Restore(s: RenderSettings)
      modifies this
      ensures Snapshot() == s
    {
      fileFormat, quality, compression, colorMode, colorDepth :=
        s.fileFormat, s.quality, s.compression, s.colorMode, s.colorDepth;
    }

    /** The configuration step of `compress_image_native`. */
    method Configure(format: string, q: int, hasAlpha: bool)
      modifies this
      ensures Snapshot() == Configured(old(Snapshot()), format, q, hasAlpha)
    {
      fileFormat := format;
      if format == "JPEG" {
        quality, colorMode := q, "RGB";
      } else if format == "PNG" {
        compression := if q < 100 then q else 100;
        colorMode := if hasAlpha then "RGBA" else "RGB";
      } else if format == "WEBP" {
        quality := q;
        colorMode := if hasAlpha then "RGBA" else "RGB";
      }
    }
  }

  /** The render settings once configured for `format`. */
  function Configured(s: RenderSettings, format: string, q: int, hasAlpha: bool): RenderSettings {
    var s1 := s.(fileFormat := format);
    var mode := if hasAlpha then "RGBA" else "RGB";
    if format == "JPEG" then s1.(quality := q, colorMode := "RGB")
    else if format == "PNG" then s1.(compression := if q < 100 then q else 100, colorMode := mode)
    else if format == "WEBP" then s1.(quality := q, colorMode := mode)
    else s1
  }

  /** `has_transparency`: an image counts as transparent exactly when it has four channels. */
  function HasTransparency(img: Option<Image>): (r: bool)
    ensures r <==> img.Some? && img.value.channels == 4
  {
    match img
    case None => false
    case Some(i) => if i.channels < 4 then false else i.channels == 4
  }

  /** A format that can hold the image's alpha channel. */
  predicate KeepsAlpha(format: string, hasAlpha: bool) {
    !(format == "JPEG" && hasAlpha)
  }

  /** A format the running Blender can write. */
  predicate Writable(format: string, webpSupported: bool) {
    format != "WEBP" || webpSupported
  }

  /** The output-format choice of `compress_image_native`: the requested format whenever it
      keeps the alpha channel and can be written, otherwise PNG or JPEG, which always can. */
  function ChooseFormat(requested: string, hasAlpha: bool, webpSupported: bool): (r: string)
    ensures KeepsAlpha(r, hasAlpha) && Writable(r, webpSupported)
    ensures KeepsAlpha(requested, hasAlpha) && Writable(requested, webpSupported) ==> r == requested
    ensures r == requested || r == "PNG" || r == "JPEG"
    ensures r == "JPEG" && requested != "JPEG" ==> !hasAlpha
  {
    if requested == "WEBP" then
      (if !webpSupported then (if hasAlpha then "PNG" else "JPEG") else requested)
    else if requested == "JPEG" && hasAlpha then "PNG"
    else requested
  }

  /** `max_dimension and (width > max_dimension or height > max_dimension)`. */
  predicate ShouldScale(width: nat, height: nat, maxDimension: Option<int>) {
    maxDimension.Some? && maxDimension.value != 0
    && (width > maxDimension.value || height > maxDimension.value)
  }

  /** The image and error that `compress_image_native` returns, the save-and-reload kernel
      given as `kernel`. */
  function CompressResult(img: Option<Image>, requested: string, quality: int, maxDimension: Option<int>,
                          webpSupported: bool, kernel: Kernel): (r: (Option<Image>, Option<string>))
    ensures img.None? ==> r == (None, Some("Image is None"))
    ensures r.0.Some? <==> r.1.None?
    ensures r.0.Some? <==>
              img.Some? && img.value.width > 0 && img.value.height > 0 && kernel.Done?
    ensures r.0.Some? ==>
              var i := img.value;
              StartsWith(r.0.value.name, i.name + "_")
              && (if ShouldScale(i.width, i.height, maxDimension)
                  then 1 <= r.0.value.width && 1 <= r.0.value.height
                       && (maxDimension.value >= 1 ==> r.0.value.width <= maxDimension.value && r.0.value.height <= maxDimension.value)
                  else r.0.value.width == i.width && r.0.value.height == i.height)
  {
    match img
    case None => (None, Some("Image is None"))
    case Some(i) =>
      if i.width == 0 || i.height == 0 then (None, Some("Image " + i.name + " has invalid dimensions"))
      else
        var scale := ShouldScale(i.width, i.height, maxDimension);
        var (w, h) := if scale then ScaledSize(i.width, i.height, maxDimension.value) else (i.width, i.height);
        var format := ChooseFormat(requested, HasTransparency(img), webpSupported);
        match kernel
        case Raises(m) => (None, Some("Error compressing " + i.name + ": " + m))
        case Done(channels, pixels, path) =>
          var name := if scale then i.name + "_" + NatToString(w) + "x" + NatToString(h) + "_" + Capitalize(format)
                      else i.name + "_" + Capitalize(format);
          assert StartsWith(name, i.name + "_");
          var res := (Some(Image(name, w, h, channels, pixels, path)), None);
          if scale && maxDimension.value >= 1 then ScaledSizeFits(i.width, i.height, maxDimension.value); res else res
  }

  /** Whether `compress_image_native` reaches the kernel after configuring the settings. */
  predicate ConfiguresSettings(img: Option<Image>) {
    img.Some? && img.value.width > 0 && img.value.height > 0
  }

  /** `compress_image_native`: the settings are saved, configured for the chosen format and
      restored before a successful return; a raising kernel leaves them configured. */
  method CompressImageNative(settings: ImageSettings, img: Option<Image>, requested: string, quality: int,
                             maxDimension: Option<int>, webpSupported: bool, kernel: Kernel)
    returns (r: Option<Image>, err: Option<string>)
    modifies settings
    ensures (r, err) == CompressResult(img, requested, quality, maxDimension, webpSupported, kernel)
    ensures !(ConfiguresSettings(img) && kernel.Raises?) ==> settings.Snapshot() == old(settings.Snapshot())
    ensures ConfiguresSettings(img) && kernel.Raises? ==>
              settings.Snapshot() == Configured(old(settings.Snapshot()),
                                                ChooseFormat(requested, HasTransparency(img), webpSupported),
                                                quality, HasTransparency(img))
  {
    if img.None? {
      return None, Some("Image is None");
    }
    var i := img.value;
    var previous := settings.Snapshot();
    if i.width == 0 || i.height == 0 {
      return None, Some("Image " + i.name + " has invalid dimensions");
    }
    var hasAlpha := HasTransparency(img);
    var format := ChooseFormat(requested, hasAlpha, webpSupported);
    settings.Configure(format, quality, hasAlpha);
    r, err := CompressResult(img, requested, quality, maxDimension, webpSupported, kernel).0,
              CompressResult(img, requested, quality, maxDimension, webpSupported, kernel).1;
    if kernel.Done? {
      settings.Restore(previous);
    }
  }

  /** `scale_image_native`: a copy named `<name>_Scaled` at the scaled size, or the reason
      there is none. */
  function ScaleResult(img: Option<Image>, target: int, kernel: Kernel): (r: (Option<Image>, Option<string>))
    ensures r.0.Some? <==> r.1.None?
    ensures r.0.Some? <==>
              img.Some? && img.value.width > 0 && img.value.height > 0
              && Max(img.value.width, img.value.height) > target && kernel.Done?
    ensures r.0.Some? ==>
              r.0.value.name == img.value.name + "_Scaled"
              && 1 <= r.0.value.width && 1 <= r.0.value.height
              && (target >= 1 ==> r.0.value.width <= target && r.0.value.height <= target
                                  && target - 1 <= Max(r.0.value.width, r.0.value.height))
  {
    match img
    case None => (None, Some("Image is None"))
    case Some(i) =>
      if i.width == 0 || i.height == 0 then (None, Some("Image " + i.name + " has invalid dimensions"))
      else if Max(i.width, i.height) <= target then (None, Some("Image " + i.name + " is already at or below target size"))
      else
        match kernel
        case Raises(m) => (None, Some("Error scaling " + i.name + ": " + m))
        case Done(_, pixels, _) =>
          var (w, h) := ScaledSize(i.width, i.height, target);
          var res := (Some(i.(name := i.name + "_Scaled", width := w, height := h, pixels := pixels)), None);
          if target >= 1 then ScaledSizeFits(i.width, i.height, target); res else res
  }

  /** `get_all_texture_images`: the images shown by the non-excluded materials of the selection,
      collection instances included; none without a selection. */
  function GetAllTextureImages(selected: seq<Obj>, collections: map<string, seq<Obj>>,
                               store: map<string, Material>, excluded: seq<string>): (r: set<string>)
    ensures selected == [] ==> r == {}
    ensures forall i :: i in r <==>
              exists m :: m in MaterialsToAnalyze(selected, collections) && m !in excluded
                          && m in store && i in TextureImages(store[m])
  {
    ImagesOf(store, set m | m in MaterialsToAnalyze(selected, collections) && m !in excluded)
  }

  /** `replace_image_in_materials`: every material of the selection (collection instances
      included, exclusions ignored) shows `to` where it showed `from`. */
  method ReplaceImageInMaterials(store: MaterialStore, selected: seq<Obj>, collections: map<string, seq<Obj>>,
                                 from: string, to: string)
    modifies store
    ensures store.materials == RepointMap(old(store.materials), MaterialsToAnalyze(selected, collections), from, to)
  {
    if selected == [] {
      RepointMapEmpty(store.materials, from, to);
      return;
    }
    store.RepointAll(MaterialsToAnalyze(selected, collections), from, to);
  }

  /** The options of `process_textures_native`. */
  datatype Options = Options(scaleToTarget: bool, compress: bool, target: int, format: string,
                             quality: int, webpSupported: bool)

  /** What the loop body does with one image. */
  datatype Outcome = Skipped | Made(copy: Image, scaled: bool, compressed: bool) | Failed(error: string)

  predicate NeedsScaling(img: Image, o: Options) {
    o.scaleToTarget && Max(img.width, img.height) > o.target
  }

  /** One iteration of `process_textures_native`: compress (and scale) when compressing, only
      scale otherwise, nothing when neither is needed. */
  function ProcessOne(img: Image, o: Options, kernel: Kernel): Outcome {
    var scale := NeedsScaling(img, o);
    if !scale && !o.compress then Skipped
    else
      var res := if scale && o.compress then CompressResult(Some(img), o.format, o.quality, Some(o.target), o.webpSupported, kernel)
                 else if scale then ScaleResult(Some(img), o.target, kernel)
                 else CompressResult(Some(img), o.format, o.quality, None, o.webpSupported, kernel);
      if res.0.Some? then Made(res.0.value, scale, o.compress)
      else if res.1.Some? then Failed(res.1.value)
      else Skipped
  }

  /** The result dictionary of `process_textures_native`. */
  datatype Processed = Processed(processed: nat, scaled: nat, compressed: nat,
                                 processedImages: map<string, Image>, errors: seq<string>)

  function Step(acc: Processed, img: Image, out: Outcome): Processed {
    match out
    case Skipped => acc
    case Failed(e) => acc.(errors := acc.errors + [e])
    case Made(copy, s, c) =>
      acc.(processed := acc.processed + 1,
           scaled := acc.scaled + (if s then 1 else 0),
           compressed := acc.compressed + (if c then 1 else 0),
           processedImages := acc.processedImages[img.name := copy])
  }

  /** The result after the loop has seen `images` in order. */
  function Summary(images: seq<Image>, o: Options, kernel: string -> Kernel): Processed
    decreases |images|
  {
    if images == [] then Processed(0, 0, 0, map[], [])
    else
      var last := images[|images| - 1];
      Step(Summary(images[..|images| - 1], o, kernel), last, ProcessOne(last, o, kernel(last.name)))
  }

  /** A swap step: the materials after one more image. */
  function SwapStep(ms: map<string, Material>, targets: set<string>, img: Image, out: Outcome): map<string, Material> {
    match out
    case Made(copy, _, _) => RepointMap(ms, targets, img.name, copy.name)
    case _ => ms
  }

  /** The materials after the loop has substituted each created image for its original. */
  function AfterSwaps(ms: map<string, Material>, targets: set<string>, images: seq<Image>, o: Options,
                      kernel: string -> Kernel): map<string, Material>
    decreases |images|
  {
    if images == [] then ms
    else
      var last := images[|images| - 1];
      SwapStep(AfterSwaps(ms, targets, images[..|images| - 1], o, kernel), targets, last, ProcessOne(last, o, kernel(last.name)))
  }

  /** The copy of one image: compressed (and scaled) when compressing, only scaled otherwise,
      none when neither is needed; an error when the kernel failed. */
  method MakeCopy(settings: ImageSettings, img: Image, o: Options, kernel: Kernel) returns (copy: Option<Image>, err: Option<string>)
    modifies settings
    ensures var out := ProcessOne(img, o, kernel);
            && (out.Made? <==> copy.Some?)
            && (out.Made? ==> out == Made(copy.value, NeedsScaling(img, o), o.compress))
            && (out.Failed? <==> copy.None? && err.Some?)
            && (out.Failed? ==> out.error == err.value)
    ensures !(o.compress && ConfiguresSettings(Some(img)) && kernel.Raises?) ==> settings.Snapshot() == old(settings.Snapshot())
  {
    var scale := NeedsScaling(img, o);
    copy, err := None, None;
    if scale && o.compress {
      copy, err := CompressImageNative(settings, Some(img), o.format, o.quality, Some(o.target), o.webpSupported, kernel);
    } else if scale {
      var res := ScaleResult(Some(img), o.target, kernel);
      copy, err := res.0, res.1;
    } else if o.compress {
      copy, err := CompressImageNative(settings, Some(img), o.format, o.quality, None, o.webpSupported, kernel);
    }
  }

  /** One pass of the loop body of `process_textures_native`. */
  method ProcessImage(settings: ImageSettings, store: MaterialStore, selected: seq<Obj>,
                      collections: map<string, seq<Obj>>, img: Image, o: Options, kernel: Kernel, acc: Processed)
    returns (result: Processed)
    modifies settings, store
    ensures result == Step(acc, img, ProcessOne(img, o, kernel))
    ensures store.materials == SwapStep(old(store.materials), MaterialsToAnalyze(selected, collections), img, ProcessOne(img, o, kernel))
    ensures !(o.compress && ConfiguresSettings(Some(img)) && kernel.Raises?) ==> settings.Snapshot() == old(settings.Snapshot())
  {
    var scale := NeedsScaling(img, o);
    var copy, err := MakeCopy(settings, img, o, kernel);
    result := acc;
    if copy.Some? {
      ReplaceImageInMaterials(store, selected, collections, img.name, copy.value.name);
      result := acc.(processed := acc.processed + 1,
                     scaled := acc.scaled + (if scale then 1 else 0),
                     compressed := acc.compressed + (if o.compress then 1 else 0),
                     processedImages := acc.processedImages[img.name := copy.value]);
    } else if err.Some? {
      result := acc.(errors := acc.errors + [err.value]);
    }
  }

  lemma PrefixStep(images: seq<Image>, i: nat, ms: map<string, Material>, targets: set<string>, o: Options, kernel: string -> Kernel)
    requires i < |images|
    ensures Summary(images[..i + 1], o, kernel)
            == Step(Summary(images[..i], o, kernel), images[i], ProcessOne(images[i], o, kernel(images[i].name)))
    ensures AfterSwaps(ms, targets, images[..i + 1], o, kernel)
            == SwapStep(AfterSwaps(ms, targets, images[..i], o, kernel), targets, images[i], ProcessOne(images[i], o, kernel(images[i].name)))
  {
    assert images[..i + 1][..i] == images[..i];
  }

  /** `process_textures_native` over the images of the selection in iteration order; `kernel`
      gives each image's copy-and-save outcome. */
  method ProcessTexturesNative(settings: ImageSettings, store: MaterialStore, selected: seq<Obj>,
                               collections: map<string, seq<Obj>>, excluded: seq<string>, images: seq<Image>,
                               o: Options, kernel: string -> Kernel)
    returns (result: Processed)
    requires DistinctNames(images) && NameSet(images) == GetAllTextureImages(selected, collections, store.materials, excluded)
    modifies settings, store
    ensures result == Summary(images, o, kernel)
    ensures result.processed + |result.errors| <= |GetAllTextureImages(selected, collections, old(store.materials), excluded)|
    ensures forall n :: n in result.processedImages ==> n in GetAllTextureImages(selected, collections, old(store.materials), excluded)
    ensures store.materials == AfterSwaps(old(store.materials), MaterialsToAnalyze(selected, collections), images, o, kernel)
    ensures (forall img :: img in images && o.compress && ConfiguresSettings(Some(img)) ==> kernel(img.name).Done?)
              ==> settings.Snapshot() == old(settings.Snapshot())
  {
    result := ProcessImagesNative(settings, store, selected, collections, images, o, kernel);
    SummaryCounts(images, o, kernel);
    NameSetSize(images);
    NameSetMembers(images);
  }

  /** The loop of `process_textures_native` over `images`. */
  method ProcessImagesNative(settings: ImageSettings, store: MaterialStore, selected: seq<Obj>,
                             collections: map<string, seq<Obj>>, images: seq<Image>, o: Options,
                             kernel: string -> Kernel)
    returns (result: Processed)
    modifies settings, store
    ensures result == Summary(images, o, kernel)
    ensures store.materials == AfterSwaps(old(store.materials), MaterialsToAnalyze(selected, collections), images, o, kernel)
    ensures (forall img :: img in images && o.compress && ConfiguresSettings(Some(img)) ==> kernel(img.name).Done?)
              ==> settings.Snapshot() == old(settings.Snapshot())
  {
    result := Processed(0, 0, 0, map[], []);
    ghost var ms, targets, snap := store.materials, MaterialsToAnalyze(selected, collections), settings.Snapshot();
    var i := 0;
    while i < |images|
      invariant 0 <= i <= |images|
      invariant result == Summary(images[..i], o, kernel)
      invariant store.materials == AfterSwaps(ms, targets, images[..i], o, kernel)
      invariant (forall k :: 0 <= k < i && o.compress && ConfiguresSettings(Some(images[k])) ==> kernel(images[k].name).Done?)
                  ==> settings.Snapshot() == snap
    {
      result := ProcessAt(settings, store, selected, collections, images, i, o, kernel, result, ms);
      i := i + 1;
    }
    assert images[..i] == images;
  }

  /** The loop body of `process_textures_native` at image `i`, against the summary and the
      swaps of the images before it. */
  method ProcessAt(settings: ImageSettings, store: MaterialStore, selected: seq<Obj>,
                   collections: map<string, seq<Obj>>, images: seq<Image>, i: nat, o: Options,
                   kernel: string -> Kernel, acc: Processed, ghost ms: map<string, Material>)
    returns (result: Processed)
    requires i < |images|
    requires acc == Summary(images[..i], o, kernel)
    requires store.materials == AfterSwaps(ms, MaterialsToAnalyze(selected, collections), images[..i], o, kernel)
    modifies settings, store
    ensures result == Summary(images[..i + 1], o, kernel)
    ensures store.materials == AfterSwaps(ms, MaterialsToAnalyze(selected, collections), images[..i + 1], o, kernel)
    ensures !(o.compress && ConfiguresSettings(Some(images[i])) && kernel(images[i].name).Raises?) ==> settings.Snapshot() == old(settings.Snapshot())
  {
    PrefixStep(images, i, ms, MaterialsToAnalyze(selected, collections), o, kernel);
    result := ProcessImage(settings, store, selected, collections, images[i], o, kernel(images[i].name), acc);
  }

  /** With compression off, an image whose longest side is within the target is skipped. */
  lemma SkipsSmallWithoutCompression(img: Image, o: Options, kernel: Kernel)
    requires !o.compress && Max(img.width, img.height) <= o.target
    ensures ProcessOne(img, o, kernel) == Skipped
  {
  }

  /** A created copy records whether compression was on, and with compression off it was
      created by scaling. */
  lemma MadeFlags(img: Image, o: Options, kernel: Kernel)
    ensures var out := ProcessOne(img, o, kernel);
            out.Made? ==> out.compressed == o.compress && (!o.compress ==> out.scaled)
  {
  }

  /** The counters: compressing counts every created image as compressed, scaling only counts
      every one as scaled, and every image is skipped, created or reported once. */
  lemma {:induction false} SummaryTallies(images: seq<Image>, o: Options, kernel: string -> Kernel)
    ensures var r := Summary(images, o, kernel);
            && r.scaled <= r.processed && r.compressed <= r.processed
            && (o.compress ==> r.compressed == r.processed)
            && (!o.compress ==> r.compressed == 0 && r.scaled == r.processed)
            && r.processed + |r.errors| <= |images|
    decreases |images|
  {
    if images != [] {
      var last := images[|images| - 1];
      SummaryTallies(images[..|images| - 1], o, kernel);
      MadeFlags(last, o, kernel(last.name));
    }
  }

  /** With distinct image names, `processed` is the size of the map, and the map is keyed by
      names of the images. */
  lemma {:induction false} SummaryNames(images: seq<Image>, o: Options, kernel: string -> Kernel)
    requires DistinctNames(images)
    ensures var r := Summary(images, o, kernel);
            r.processed == |r.processedImages.Keys|
            && (forall n :: n in r.processedImages ==> exists img :: img in images && img.name == n)
    decreases |images|
  {
    if images != [] {
      var prefix := images[..|images| - 1];
      var last := images[|images| - 1];
      assert DistinctNames(prefix);
      SummaryNames(prefix, o, kernel);
      var before := Summary(prefix, o, kernel);
      assert last.name !in before.processedImages;
      assert forall img :: img in prefix ==> img in images;
      StepKeys(before, last, ProcessOne(last, o, kernel(last.name)));
      assert last in images;
    }
  }

  /** One step adds at most the image's own name to the map, and counts it when it does. */
  lemma StepKeys(before: Processed, img: Image, out: Outcome)
    requires before.processed == |before.processedImages.Keys| && img.name !in before.processedImages
    ensures var r := Step(before, img, out);
            r.processed == |r.processedImages.Keys| && r.processedImages.Keys <= before.processedImages.Keys + {img.name}
  {
    if out.Made? {
      assert before.processedImages[img.name := out.copy].Keys == before.processedImages.Keys + {img.name};
    }
  }

  /** The counters agree with the map: `processed` is its size, compressing counts every created
      image as compressed, scaling only counts every one as scaled, and every image is skipped,
      created or reported once. */
  lemma SummaryCounts(images: seq<Image>, o: Options, kernel: string -> Kernel)
    requires DistinctNames(images)
    ensures var r := Summary(images, o, kernel);
            r.processed == |r.processedImages.Keys|
            && (forall n :: n in r.processedImages ==> exists img :: img in images && img.name == n)
            && r.scaled <= r.processed && r.compressed <= r.processed
            && (o.compress ==> r.compressed == r.processed)
            && (!o.compress ==> r.compressed == 0 && r.scaled == r.processed)
            && r.processed + |r.errors| <= |images|
  {
    SummaryTallies(images, o, kernel);
    SummaryNames(images, o, kernel);
  }

  /** The read-only summary of `analyze_textures_native`. */
  datatype Analysis = Analysis(total: nat, aboveTarget: seq<string>, sizes: map<string, (nat, nat)>,
                               hasAlpha: map<string, bool>, webpSupported: bool)

  /** The names of the images above 1024 pixels on their longest side, in order. */
  function AboveFixed(images: seq<Image>): (r: seq<string>)
    decreases |images|
  {
    if images == [] then []
    else
      var last := images[|images| - 1];
      AboveFixed(images[..|images| - 1]) + (if Max(last.width, last.height) > 1024 then [last.name] else [])
  }

  /** The flagged images are exactly those above 1024 pixels, and so are not more than all. */
  lemma {:induction false} AboveFixedMembers(images: seq<Image>)
    ensures |AboveFixed(images)| <= |images|
    ensures forall n :: n in AboveFixed(images) <==>
              exists img :: img in images && img.name == n && Max(img.width, img.height) > 1024
    decreases |images|
  {
    if images != [] {
      var prefix := images[..|images| - 1];
      AboveFixedMembers(prefix);
      assert images == prefix + [images[|images| - 1]];
    }
  }

  /** One more image recorded in the size and alpha tables keeps the earlier entries, with
      distinct names. */
  lemma AnalysedStep(images: seq<Image>, i: nat, sizes0: map<string, (nat, nat)>, alpha0: map<string, bool>,
                     sizes: map<string, (nat, nat)>, alpha: map<string, bool>)
    requires DistinctNames(images) && i < |images|
    requires sizes0.Keys == alpha0.Keys == NameSet(images[..i])
    requires forall k :: 0 <= k < i ==>
               images[k].name in sizes0 && images[k].name in alpha0
               && sizes0[images[k].name] == (images[k].width, images[k].height)
               && alpha0[images[k].name] == HasTransparency(Some(images[k]))
    requires sizes == sizes0[images[i].name := (images[i].width, images[i].height)]
    requires alpha == alpha0[images[i].name := HasTransparency(Some(images[i]))]
    ensures sizes.Keys == alpha.Keys == NameSet(images[..i + 1])
    ensures forall k :: 0 <= k < i + 1 ==>
              images[k].name in sizes && images[k].name in alpha
              && sizes[images[k].name] == (images[k].width, images[k].height)
              && alpha[images[k].name] == HasTransparency(Some(images[k]))
  {
    assert images[..i + 1][..i] == images[..i];
    assert forall k :: 0 <= k < i ==> images[k].name != images[i].name;
  }

  /** `analyze_textures_native`: sizes and alpha flags for every image, and those above a fixed
      1024 pixels; the function takes no target size at all. `images` lists the images of
      `get_all_texture_images`, in the order their set yields them. */
  method AnalyzeTexturesNative(selected: seq<Obj>, collections: map<string, seq<Obj>>, store: map<string, Material>,
                               excluded: seq<string>, images: seq<Image>, blenderMajor: int) returns (r: Analysis)
    requires DistinctNames(images) && NameSet(images) == GetAllTextureImages(selected, collections, store, excluded)
    ensures r.total == |images| == |GetAllTextureImages(selected, collections, store, excluded)|
    ensures r.sizes.Keys == GetAllTextureImages(selected, collections, store, excluded)
    ensures r.aboveTarget == AboveFixed(images)
    ensures r.webpSupported <==> IsWebpSupported(blenderMajor)
    ensures r.sizes.Keys == r.hasAlpha.Keys == NameSet(images)
    ensures forall k :: 0 <= k < |images| ==>
              images[k].name in r.sizes && images[k].name in r.hasAlpha
              && r.sizes[images[k].name] == (images[k].width, images[k].height)
              && r.hasAlpha[images[k].name] == HasTransparency(Some(images[k]))
  {
    r := AnalyzeImagesNative(images, blenderMajor);
    NameSetSize(images);
  }

  /** The loop of `analyze_textures_native` over `images`. */
  method AnalyzeImagesNative(images: seq<Image>, blenderMajor: int) returns (r: Analysis)
    requires DistinctNames(images)
    ensures r.total == |images|
    ensures r.aboveTarget == AboveFixed(images)
    ensures r.webpSupported <==> IsWebpSupported(blenderMajor)
    ensures r.sizes.Keys == r.hasAlpha.Keys == NameSet(images)
    ensures forall k :: 0 <= k < |images| ==>
              images[k].name in r.sizes && images[k].name in r.hasAlpha
              && r.sizes[images[k].name] == (images[k].width, images[k].height)
              && r.hasAlpha[images[k].name] == HasTransparency(Some(images[k]))
  {
    var sizes: map<string, (nat, nat)> := map[];
    var alpha: map<string, bool> := map[];
    var above: seq<string> := [];
    var i := 0;
    while i < |images|
      invariant 0 <= i <= |images|
      invariant above == AboveFixed(images[..i])
      invariant sizes.Keys == alpha.Keys == NameSet(images[..i])
      invariant forall k :: 0 <= k < i ==>
                  images[k].name in sizes && images[k].name in alpha
                  && sizes[images[k].name] == (images[k].width, images[k].height)
                  && alpha[images[k].name] == HasTransparency(Some(images[k]))
    {
      var img := images[i];
      assert images[..i + 1][..i] == images[..i];
      ghost var sizes0, alpha0 := sizes, alpha;
      sizes := sizes[img.name := (img.width, img.height)];
      alpha := alpha[img.name := HasTransparency(Some(img))];
      AnalysedStep(images, i, sizes0, alpha0, sizes, alpha);
      if Max(img.width, img.height) > 1024 {
        above := above + [img.name];
      }
      i := i + 1;
    }
    assert images[..i] == images;
    r := Analysis(|images|, above, sizes, alpha, IsWebpSupported(blenderMajor));
  }
}
