/** The Pillow-based texture pass of `texture_analyzer.py`: the 1024-pixel threshold, the
    scaled-copy decisions and pixel-buffer layout, the analysis of which images need work, the
    scaling loop, and the image substitution in the selected meshes' materials. Unlike the
    native pass, this one looks at selected meshes only, never into collection instances. */
module TextureAnalyzer {
  import opened Wrappers
  import opened Strings
  import opened Scene
  import opened MaterialAnalyzer
  import opened Images

  /** `is_texture_above_1k`: either side above 1024 pixels. */
  function IsTextureAbove1k(img: Option<Image>): (r: bool)
    ensures r <==> img.Some? && (img.value.width > 1024 || img.value.height > 1024)
  {
    var (w, h) := TextureSize(img);
    w > 1024 || h > 1024
  }

  /** `get_max_dimension`: the longer side, 0 without an image. */
  function GetMaxDimension(img: Option<Image>): (r: nat)
    ensures img.None? ==> r == 0
    ensures img.Some? ==> r >= img.value.width && r >= img.value.height
                          && (r == img.value.width || r == img.value.height)
  {
    var (w, h) := TextureSize(img);
    Max(w, h)
  }

  lemma Above1kIsMaxAbove(img: Option<Image>)
    ensures IsTextureAbove1k(img) <==> GetMaxDimension(img) > 1024
  {
  }

  /** How a pixel buffer of the given length is read: RGBA saved as PNG, RGB saved as JPEG, or
      rejected. */
  function PixelLayout(pixels: nat, width: nat, height: nat): (r: Option<(int, string)>)
    requires width > 0 && height > 0
    ensures r == Some((4, "PNG")) <==> pixels == width * height * 4
    ensures r == Some((3, "JPEG")) <==> pixels == width * height * 3
    ensures r.None? <==> pixels != width * height * 4 && pixels != width * height * 3
  {
    if pixels == width * height * 4 then Some((4, "PNG"))
    else if pixels == width * height * 3 then Some((3, "JPEG"))
    else None
  }

  /** `create_scaled_copy`: a copy named `<name>_Scaled` at the scaled size, or None when there
      is no image, no Pillow, a zero side, nothing to shrink, an empty or unexpected pixel
      buffer, or a raising kernel. */
  function CreateScaledCopy(img: Option<Image>, target: int, pillow: bool, kernel: Kernel): (r: Option<Image>)
    ensures r.Some? ==>
              img.Some? && pillow && img.value.width > 0 && img.value.height > 0
              && Max(img.value.width, img.value.height) > target && kernel.Done?
              && PixelLayout(img.value.pixels, img.value.width, img.value.height).Some?
    ensures r.Some? ==>
              r.value.name == img.value.name + "_Scaled"
              && 1 <= r.value.width && 1 <= r.value.height
              && (target >= 1 ==> r.value.width <= target && r.value.height <= target
                                  && target - 1 <= Max(r.value.width, r.value.height))
    ensures (img.Some? && pillow && img.value.width > 0 && img.value.height > 0
             && Max(img.value.width, img.value.height) > target && kernel.Done?
             && PixelLayout(img.value.pixels, img.value.width, img.value.height).Some?) ==> r.Some?
  {
    match img
    case None => None
    case Some(i) =>
      if !pillow || i.width == 0 || i.height == 0 || Max(i.width, i.height) <= target then None
      else
        var (w, h) := ScaledSize(i.width, i.height, target);
        if i.pixels == 0 then None
        else match PixelLayout(i.pixels, i.width, i.height)
          case None => None
          case Some(_) =>
            match kernel
            case Raises(_) => None
            case Done(channels, pixels, path) =>
              var res := Some(Image(i.name + "_Scaled", w, h, channels, pixels, path));
              if target >= 1 then ScaledSizeFits(i.width, i.height, target); res else res
  }

  /** The materials of the selected meshes that are not excluded. */
  function SelectedMaterials(selected: seq<Obj>, excluded: seq<string>): (r: set<string>)
    ensures forall m :: m in r <==> m in MeshMaterials(selected) && m !in excluded
  {
    set m | m in MeshMaterials(selected) && m !in excluded
  }

  /** `get_all_texture_images`: the images shown by the non-excluded materials of the selected
      meshes; collection instances are not looked into. */
  function GetAllTextureImages(selected: seq<Obj>, store: map<string, Material>, excluded: seq<string>): (r: set<string>)
    ensures selected == [] ==> r == {}
    ensures forall i :: i in r <==>
              exists m :: m in MeshMaterials(selected) && m !in excluded && m in store && i in TextureImages(store[m])
  {
    ImagesOf(store, SelectedMaterials(selected, excluded))
  }

  /** `images` lists each image of `get_all_texture_images` once, in the order their set yields
      them. */
  predicate ListsTextureImages(images: seq<Image>, selected: seq<Obj>, store: map<string, Material>, excluded: seq<string>) {
    DistinctNames(images) && NameSet(images) == GetAllTextureImages(selected, store, excluded)
  }

  /** `replace_image_in_materials`: the selected meshes' materials show `to` where they showed
      `from`; nothing changes without a selection. */
  method ReplaceImageInMaterials(store: MaterialStore, selected: seq<Obj>, from: string, to: string)
    modifies store
    ensures store.materials == RepointMap(old(store.materials), MeshMaterials(selected), from, to)
  {
    if selected == [] {
      RepointMapEmpty(store.materials, from, to);
      return;
    }
    store.RepointAll(MeshMaterials(selected), from, to);
  }

  /** An image at most 1024 pixels on each side still needs work when its file is not a JPEG. */
  predicate NeedsFormatWork(img: Image) {
    img.filepath != "" && Extension(ToLower(img.filepath)) != ".jpg" && Extension(ToLower(img.filepath)) != ".jpeg"
  }

  predicate NeedsProcessing(img: Image) {
    IsTextureAbove1k(Some(img)) || NeedsFormatWork(img)
  }

  /** The result dictionary of `analyze_textures`. */
  datatype Analysis = Analysis(total: nat, above1k: seq<string>, sizes: map<string, (nat, nat)>,
                               needsProcessing: seq<string>)

  function Above1k(images: seq<Image>): seq<string>
    decreases |images|
  {
    if images == [] then []
    else
      var last := images[|images| - 1];
      Above1k(images[..|images| - 1]) + (if IsTextureAbove1k(Some(last)) then [last.name] else [])
  }

  function NeedingWork(images: seq<Image>): seq<string>
    decreases |images|
  {
    if images == [] then []
    else
      var last := images[|images| - 1];
      NeedingWork(images[..|images| - 1]) + (if NeedsProcessing(last) then [last.name] else [])
  }

  /** `analyze_textures` over the images of `get_all_texture_images`, in the order their set
      yields them. */
  method AnalyzeTextures(selected: seq<Obj>, store: map<string, Material>, excluded: seq<string>, images: seq<Image>)
    returns (r: Analysis)
    requires ListsTextureImages(images, selected, store, excluded)
    ensures r.total == |images| == |GetAllTextureImages(selected, store, excluded)|
    ensures r.sizes.Keys == GetAllTextureImages(selected, store, excluded)
    ensures r.above1k == Above1k(images) && r.needsProcessing == NeedingWork(images)
    ensures forall k :: 0 <= k < |images| ==>
              images[k].name in r.sizes && r.sizes[images[k].name] == (images[k].width, images[k].height)
  {
    r := AnalyzeImages(images);
    NameSetSize(images);
  }

  /** The loop of `analyze_textures` over a list of distinctly named images. */
  method AnalyzeImages(images: seq<Image>) returns (r: Analysis)
    requires DistinctNames(images)
    ensures r.total == |images|
    ensures r.above1k == Above1k(images) && r.needsProcessing == NeedingWork(images)
    ensures r.sizes.Keys == NameSet(images)
    ensures forall k :: 0 <= k < |images| ==>
              images[k].name in r.sizes && r.sizes[images[k].name] == (images[k].width, images[k].height)
  {
    var sizes: map<string, (nat, nat)> := map[];
    var above: seq<string> := [];
    var needs: seq<string> := [];
    var i := 0;
    while i < |images|
      invariant 0 <= i <= |images|
      invariant above == Above1k(images[..i]) && needs == NeedingWork(images[..i])
      invariant sizes.Keys == NameSet(images[..i])
      invariant forall k :: 0 <= k < i ==>
                  images[k].name in sizes && sizes[images[k].name] == (images[k].width, images[k].height)
    {
      var img := images[i];
      assert images[..i + 1][..i] == images[..i];
      ghost var sizes0 := sizes;
      sizes := sizes[img.name := (img.width, img.height)];
      SizesStep(images, i, sizes0, sizes);
      if IsTextureAbove1k(Some(img)) {
        above := above + [img.name];
        needs := needs + [img.name];
      } else if img.filepath != "" {
        var ext := Extension(ToLower(img.filepath));
        if ext != ".jpg" && ext != ".jpeg" {
          needs := needs + [img.name];
        }
      }
      i := i + 1;
    }
    assert images[..i] == images;
    r := Analysis(|images|, above, sizes, needs);
  }

  /** Recording image `i`'s size extends the recorded sizes of the images before it. */
  lemma SizesStep(images: seq<Image>, i: nat, sizes0: map<string, (nat, nat)>, sizes: map<string, (nat, nat)>)
    requires DistinctNames(images) && i < |images|
    requires sizes0.Keys == NameSet(images[..i])
    requires forall k :: 0 <= k < i ==>
               images[k].name in sizes0 && sizes0[images[k].name] == (images[k].width, images[k].height)
    requires sizes == sizes0[images[i].name := (images[i].width, images[i].height)]
    ensures sizes.Keys == NameSet(images[..i + 1])
    ensures forall k :: 0 <= k < i + 1 ==>
              images[k].name in sizes && sizes[images[k].name] == (images[k].width, images[k].height)
  {
    assert images[..i + 1][..i] == images[..i];
    assert forall k :: 0 <= k < i ==> images[k].name != images[i].name;
  }

  /** Every image above 1024 pixels also needs processing, and the ones that need processing
      are exactly the large ones and the small ones whose file is not a JPEG. */
  lemma {:induction false} AnalysisLists(images: seq<Image>)
    ensures forall n :: n in Above1k(images) ==> n in NeedingWork(images)
    ensures forall n :: n in NeedingWork(images) <==> exists img :: img in images && img.name == n && NeedsProcessing(img)
    ensures forall n :: n in Above1k(images) <==> exists img :: img in images && img.name == n && IsTextureAbove1k(Some(img))
    decreases |images|
  {
    if images != [] {
      var prefix := images[..|images| - 1];
      AnalysisLists(prefix);
      assert images == prefix + [images[|images| - 1]];
    }
  }

  /** The result dictionary of `process_textures`. */
  datatype Processed = Processed(processed: nat, scaled: nat, scaledCopies: map<string, Image>, errors: seq<string>)

  /** One image in `process_textures`: a copy when scaling is on and the image is above the
      target, an error when that copy cannot be made. */
  function ProcessOne(acc: Processed, img: Image, scaleTo1k: bool, target: int, pillow: bool, kernel: Kernel): Processed {
    if scaleTo1k && Max(img.width, img.height) > target then
      match CreateScaledCopy(Some(img), target, pillow, kernel)
      case Some(copy) =>
        acc.(processed := acc.processed + 1, scaled := acc.scaled + 1,
             scaledCopies := acc.scaledCopies[img.name := copy])
      case None => acc.(errors := acc.errors + ["Failed to create scaled copy of " + img.name])
    else acc
  }

  function Summary(images: seq<Image>, scaleTo1k: bool, target: int, pillow: bool, kernel: string -> Kernel): Processed
    decreases |images|
  {
    if images == [] then Processed(0, 0, map[], [])
    else
      var last := images[|images| - 1];
      ProcessOne(Summary(images[..|images| - 1], scaleTo1k, target, pillow, kernel), last, scaleTo1k, target, pillow, kernel(last.name))
  }

  function SwapStep(ms: map<string, Material>, targets: set<string>, img: Image, scaleTo1k: bool, target: int,
                    pillow: bool, kernel: Kernel): map<string, Material> {
    if scaleTo1k && Max(img.width, img.height) > target then
      match CreateScaledCopy(Some(img), target, pillow, kernel)
      case Some(copy) => RepointMap(ms, targets, img.name, copy.name)
      case None => ms
    else ms
  }

  function AfterSwaps(ms: map<string, Material>, targets: set<string>, images: seq<Image>, scaleTo1k: bool,
                      target: int, pillow: bool, kernel: string -> Kernel): map<string, Material>
    decreases |images|
  {
    if images == [] then ms
    else
      var last := images[|images| - 1];
      SwapStep(AfterSwaps(ms, targets, images[..|images| - 1], scaleTo1k, target, pillow, kernel), targets, last,
               scaleTo1k, target, pillow, kernel(last.name))
  }

  /** `process_textures` over the images of `get_all_texture_images`, in the order their set
      yields them; each image is seen once, so the source's `processed_images` guard never
      skips one. */
  method ProcessTextures(store: MaterialStore, selected: seq<Obj>, excluded: seq<string>, images: seq<Image>,
                         scaleTo1k: bool, target: int, pillow: bool, kernel: string -> Kernel)
    returns (result: Processed)
    requires ListsTextureImages(images, selected, store.materials, excluded)
    modifies store
    ensures result == Summary(images, scaleTo1k, target, pillow, kernel)
    ensures store.materials == AfterSwaps(old(store.materials), MeshMaterials(selected), images, scaleTo1k, target, pillow, kernel)
    ensures result.processed + |result.errors| <= |GetAllTextureImages(selected, old(store.materials), excluded)|
    ensures forall n :: n in result.scaledCopies ==> n in GetAllTextureImages(selected, old(store.materials), excluded)
  {
    result := ProcessImages(store, selected, images, scaleTo1k, target, pillow, kernel);
    SummaryCounts(images, scaleTo1k, target, pillow, kernel);
    SummaryKeys(images, scaleTo1k, target, pillow, kernel);
    NameSetSize(images);
    NameSetMembers(images);
  }

  /** The loop of `process_textures` over a list of images. */
  method ProcessImages(store: MaterialStore, selected: seq<Obj>, images: seq<Image>, scaleTo1k: bool,
                       target: int, pillow: bool, kernel: string -> Kernel)
    returns (result: Processed)
    modifies store
    ensures result == Summary(images, scaleTo1k, target, pillow, kernel)
    ensures store.materials == AfterSwaps(old(store.materials), MeshMaterials(selected), images, scaleTo1k, target, pillow, kernel)
  {
    result := Processed(0, 0, map[], []);
    var i := 0;
    while i < |images|
      invariant 0 <= i <= |images|
      invariant result == Summary(images[..i], scaleTo1k, target, pillow, kernel)
      invariant store.materials == AfterSwaps(old(store.materials), MeshMaterials(selected), images[..i],
                                              scaleTo1k, target, pillow, kernel)
    {
      var img := images[i];
      assert images[..i + 1][..i] == images[..i];
      if scaleTo1k && Max(img.width, img.height) > target {
        var copy := CreateScaledCopy(Some(img), target, pillow, kernel(img.name));
        if copy.Some? {
          result := result.(processed := result.processed + 1, scaled := result.scaled + 1,
                            scaledCopies := result.scaledCopies[img.name := copy.value]);
          ReplaceImageInMaterials(store, selected, img.name, copy.value.name);
        } else {
          result := result.(errors := result.errors + ["Failed to create scaled copy of " + img.name]);
        }
      }
      i := i + 1;
    }
    assert images[..i] == images;
  }

  /** `scaled` and `processed` both count the copies, and every image that needed a copy but
      did not get one left exactly one error. */
  lemma {:induction false} SummaryCounts(images: seq<Image>, scaleTo1k: bool, target: int, pillow: bool, kernel: string -> Kernel)
    requires DistinctNames(images)
    ensures var r := Summary(images, scaleTo1k, target, pillow, kernel);
            r.scaled == r.processed == |r.scaledCopies.Keys|
            && r.processed + |r.errors| <= |images|
            && (!scaleTo1k ==> r.processed == 0 && r.errors == [])
    decreases |images|
  {
    if images != [] {
      var prefix := images[..|images| - 1];
      var last := images[|images| - 1];
      assert DistinctNames(prefix);
      SummaryCounts(prefix, scaleTo1k, target, pillow, kernel);
      var before := Summary(prefix, scaleTo1k, target, pillow, kernel);
      SummaryKeys(prefix, scaleTo1k, target, pillow, kernel);
      assert last.name !in before.scaledCopies;
      match CreateScaledCopy(Some(last), target, pillow, kernel(last.name))
      case Some(copy) =>
        assert before.scaledCopies[last.name := copy].Keys == before.scaledCopies.Keys + {last.name};
      case None =>
    }
  }

  lemma {:induction false} SummaryKeys(images: seq<Image>, scaleTo1k: bool, target: int, pillow: bool, kernel: string -> Kernel)
    ensures forall n :: n in Summary(images, scaleTo1k, target, pillow, kernel).scaledCopies ==>
              exists img :: img in images && img.name == n
    decreases |images|
  {
    if images != [] {
      var prefix := images[..|images| - 1];
      SummaryKeys(prefix, scaleTo1k, target, pillow, kernel);
      assert images == prefix + [images[|images| - 1]];
    }
  }
}
