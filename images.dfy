/** Images and their use in material node trees, shared by both texture modules and the export
    service: an image's size, the aspect-preserving downscale, the image textures a material
    references, and the repointing of image-texture nodes from one image to another. */
module Images {
  import opened Wrappers
  import opened MaterialAnalyzer

  /** An image of `bpy.data.images`: `pixels` is the length of its float pixel buffer and
      `channels` its channel count. */
  datatype Image = Image(name: string, width: nat, height: nat, channels: int, pixels: nat, filepath: string)

  /** What an image kernel (a copy and resize, a save and reload) reports: the resulting
      image's channels, pixel-buffer length and file path, or the message it raised. */
  datatype Kernel = Done(channels: int, pixels: nat, filepath: string) | Raises(message: string)

  /** `get_texture_size`: (width, height), or (0, 0) without an image. */
  function TextureSize(img: Option<Image>): (r: (nat, nat))
    ensures img.None? ==> r == (0, 0)
    ensures img.Some? ==> r == (img.value.width, img.value.height)
  {
    match img
    case None => (0, 0)
    case Some(i) => (i.width, i.height)
  }

  function Max(a: nat, b: nat): nat {
    if a >= b then a else b
  }

  /** One side after scaling the longest side to `target`: `max(1, int(side * target / longest))`
      with the quotient taken exactly; `int` truncates, so a non-positive target gives 1. */
  function ScaledSide(side: nat, target: int, longest: nat): nat
    requires longest > 0
  {
    if target <= 0 then 1
    else var q := side * target / longest; if q >= 1 then q else 1
  }

  /** Both sides scaled by `target / max(width, height)`. */
  function ScaledSize(width: nat, height: nat, target: int): (nat, nat)
    requires width > 0 && height > 0
  {
    var longest := Max(width, height);
    (ScaledSide(width, target, longest), ScaledSide(height, target, longest))
  }

  lemma MulLe(a: int, b: int, c: nat)
    requires a <= b
    ensures a * c <= b * c
  {
  }

  /** A scaled side lies between 1 and the target, the longest side within one of the target,
      and every side at most one below the exact quotient: the tolerance the source's double
      product `side * (target / longest)` needs before `int` truncates it. */
  lemma ScaledSideFits(side: nat, target: int, longest: nat)
    requires 0 < side <= longest && target >= 1
    ensures 1 <= ScaledSide(side, target, longest) <= target
    ensures side == longest ==> target - 1 <= ScaledSide(side, target, longest)
    ensures ScaledSide(side, target, longest) == 1 || ScaledSide(side, target, longest) * longest <= side * target < (ScaledSide(side, target, longest) + 2) * longest
  {
    var p := side * target;
    var q := p / longest;
    assert q * longest <= p < (q + 1) * longest;
    MulLe(side, longest, target);
    assert p <= target * longest;
    if q > target {
      MulLe(target + 1, q, longest);
      assert false;
    }
    if side == longest && q < target - 1 {
      MulLe(q + 1, target, longest);
      assert false;
    }
    assert q < q + 1;
    MulLe(q + 1, q + 2, longest);
  }

  /** The downscale keeps the aspect ratio up to truncation: both sides at least 1, neither
      above the target, and the longest side within one of it. */
  lemma ScaledSizeFits(width: nat, height: nat, target: int)
    requires width > 0 && height > 0 && target >= 1
    ensures var (w, h) := ScaledSize(width, height, target);
            1 <= w <= target && 1 <= h <= target
            && (width >= height ==> target - 1 <= w) && (height >= width ==> target - 1 <= h)
  {
    var longest := Max(width, height);
    ScaledSideFits(width, target, longest);
    ScaledSideFits(height, target, longest);
  }

  /** Whether a node is an image-texture node showing `img`. */
  predicate ShowsImage(n: Node, img: string) {
    n.kind == TexImage && n.image == Some(img)
  }

  /** The images a material's image-texture nodes show (none without a node tree in use). */
  function TextureImages(m: Material): (r: set<string>)
    ensures forall i :: i in r <==> m.useNodes && m.tree.Some? && exists n :: n in m.tree.value.nodes && ShowsImage(n, i)
  {
    if !m.useNodes || m.tree.None? then {}
    else set n | n in m.tree.value.nodes && n.kind == TexImage && n.image.Some? :: n.image.value
  }

  function RepointNode(n: Node, from: string, to: string): Node {
    if ShowsImage(n, from) then n.(image := Some(to)) else n
  }

  /** A material whose image-texture nodes showing `from` show `to` instead. */
  function Repoint(m: Material, from: string, to: string): (r: Material)
    ensures r.name == m.name && r.useNodes == m.useNodes && r.tree.Some? == m.tree.Some?
    ensures !m.useNodes || m.tree.None? ==> r == m
    ensures m.useNodes && m.tree.Some? ==>
              r.tree.value.links == m.tree.value.links
              && |r.tree.value.nodes| == |m.tree.value.nodes|
              && forall k :: 0 <= k < |m.tree.value.nodes| ==> r.tree.value.nodes[k] == RepointNode(m.tree.value.nodes[k], from, to)
  {
    if !m.useNodes || m.tree.None? then m
    else
      var t := m.tree.value;
      m.(tree := Some(t.(nodes := seq(|t.nodes|, k requires 0 <= k < |t.nodes| => RepointNode(t.nodes[k], from, to)))))
  }

  /** An image a repointed material shows is `to` in place of a shown `from`, or one it
      showed before other than `from`. */
  lemma RepointShown(m: Material, from: string, to: string, i: string)
    requires from != to && i in TextureImages(Repoint(m, from, to))
    ensures i != from && (i in TextureImages(m) || (i == to && from in TextureImages(m)))
  {
    var r := Repoint(m, from, to);
    var ns, rs := m.tree.value.nodes, r.tree.value.nodes;
    var n :| n in rs && ShowsImage(n, i);
    var k :| 0 <= k < |rs| && rs[k] == n;
    assert ns[k] in ns;
    if ShowsImage(ns[k], from) {
      assert i == to;
    } else {
      assert ShowsImage(ns[k], i);
    }
  }

  /** An image other than `from` that the material showed is still shown. */
  lemma RepointKeeps(m: Material, from: string, to: string, i: string)
    requires i in TextureImages(m) && i != from
    ensures i in TextureImages(Repoint(m, from, to))
  {
    var ns := m.tree.value.nodes;
    var n :| n in ns && ShowsImage(n, i);
    var k :| 0 <= k < |ns| && ns[k] == n;
    var rs := Repoint(m, from, to).tree.value.nodes;
    assert rs[k] == n && rs[k] in rs;
  }

  /** A shown `from` is replaced by a shown `to`. */
  lemma RepointAdds(m: Material, from: string, to: string)
    requires from in TextureImages(m)
    ensures to in TextureImages(Repoint(m, from, to))
  {
    var ns := m.tree.value.nodes;
    var n :| n in ns && ShowsImage(n, from);
    var k :| 0 <= k < |ns| && ns[k] == n;
    var rs := Repoint(m, from, to).tree.value.nodes;
    assert ShowsImage(rs[k], to) && rs[k] in rs;
  }

  /** After repointing, no image-texture node shows `from` any more, and `to` takes its place
      among the images the material shows. */
  lemma RepointRemoves(m: Material, from: string, to: string)
    requires from != to
    ensures from !in TextureImages(Repoint(m, from, to))
    ensures TextureImages(Repoint(m, from, to)) == if from in TextureImages(m) then TextureImages(m) - {from} + {to} else TextureImages(m)
  {
    var after := TextureImages(Repoint(m, from, to));
    var expected := if from in TextureImages(m) then TextureImages(m) - {from} + {to} else TextureImages(m);
    if from in after {
      RepointShown(m, from, to, from);
    }
    forall i | i in after ensures i in expected {
      RepointShown(m, from, to, i);
    }
    forall i | i in expected ensures i in after {
      if i != from {
        if i in TextureImages(m) {
          RepointKeeps(m, from, to, i);
        } else {
          RepointAdds(m, from, to);
        }
      }
    }
    if from in TextureImages(m) {
      assert from !in expected;
    }
  }

  /** Swapping an image in and back out again restores the material, provided no image-texture
      node showed the substitute beforehand (the substitute is a fresh copy). */
  lemma RepointReversal(m: Material, from: string, to: string)
    requires to !in TextureImages(m)
    ensures Repoint(Repoint(m, from, to), to, from) == m
  {
    if m.useNodes && m.tree.Some? {
      var ns := m.tree.value.nodes;
      var back := Repoint(Repoint(m, from, to), to, from).tree.value.nodes;
      assert |back| == |ns|;
      forall k | 0 <= k < |ns| ensures back[k] == ns[k] {
        assert ns[k] in ns;
      }
      assert back == ns;
    }
  }

  /** Every material named in `targets` repointed, the others as they were. */
  function RepointMap(ms: map<string, Material>, targets: set<string>, from: string, to: string): (r: map<string, Material>)
    ensures r.Keys == ms.Keys
    ensures forall k :: k in r ==> r[k] == if k in targets then Repoint(ms[k], from, to) else ms[k]
  {
    map k | k in ms :: if k in targets then Repoint(ms[k], from, to) else ms[k]
  }

  lemma RepointMapEmpty(ms: map<string, Material>, from: string, to: string)
    ensures RepointMap(ms, {}, from, to) == ms
  {
    assert RepointMap(ms, {}, from, to).Keys == ms.Keys;
  }

  /** After a substitution no target material shows `from`, and the other materials are
      untouched. */
  lemma RepointMapRemoves(ms: map<string, Material>, targets: set<string>, from: string, to: string)
    requires from != to
    ensures forall k :: k in ms && k in targets ==> from !in TextureImages(RepointMap(ms, targets, from, to)[k])
    ensures forall k :: k in ms && k !in targets ==> RepointMap(ms, targets, from, to)[k] == ms[k]
  {
    forall k | k in ms && k in targets
      ensures from !in TextureImages(RepointMap(ms, targets, from, to)[k])
    {
      RepointRemoves(ms[k], from, to);
    }
  }

  /** The image textures of the named materials. */
  function ImagesOf(store: map<string, Material>, mats: set<string>): (r: set<string>)
    ensures forall i :: i in r <==> exists m :: m in mats && m in store && i in TextureImages(store[m])
  {
    set m, i | m in mats && m in store && i in TextureImages(store[m]) :: i
  }

  predicate DistinctNames(images: seq<Image>) {
    forall i, j :: 0 <= i < j < |images| ==> images[i].name != images[j].name
  }

  /** The names of a list of images. */
  function NameSet(images: seq<Image>): set<string>
    decreases |images|
  {
    if images == [] then {} else NameSet(images[..|images| - 1]) + {images[|images| - 1].name}
  }

  lemma {:induction false} NameSetMembers(images: seq<Image>)
    ensures forall n :: n in NameSet(images) <==> exists img :: img in images && img.name == n
    decreases |images|
  {
    if images != [] {
      var prefix := images[..|images| - 1];
      NameSetMembers(prefix);
      assert images == prefix + [images[|images| - 1]];
    }
  }

  /** With distinct names, there are as many names as images. */
  lemma {:induction false} NameSetSize(images: seq<Image>)
    requires DistinctNames(images)
    ensures |NameSet(images)| == |images|
    decreases |images|
  {
    if images != [] {
      var prefix := images[..|images| - 1];
      var last := images[|images| - 1];
      assert DistinctNames(prefix);
      NameSetSize(prefix);
      NameSetMembers(prefix);
      assert last.name !in NameSet(prefix) by {
        forall img | img in prefix ensures img.name != last.name {
          var i :| 0 <= i < |prefix| && prefix[i] == img;
          assert images[i] == img;
        }
      }
    }
  }

  /** The materials of `bpy.data.materials` by name; node trees are updated in place. */
  class MaterialStore {
    var materials: map<string, Material>

    constructor(materials: map<string, Material>)
      ensures this.materials == materials
    {
      this.materials := materials;
    }

    /** The node-tree loop of `replace_image_in_materials`: every target material is repointed
        once, every other material is left as it was. */
    method RepointAll(targets: set<string>, from: string, to: string)
      modifies this
      ensures materials == RepointMap(old(materials), targets, from, to)
    {
      var remaining := targets;
      while remaining != {}
        invariant remaining <= targets
        invariant materials.Keys == old(materials).Keys
        invariant forall k :: k in materials ==>
                    materials[k] == if k in targets - remaining then Repoint(old(materials)[k], from, to) else old(materials)[k]
        decreases remaining
      {
        var name :| name in remaining;
        if name in materials {
          materials := materials[name := Repoint(materials[name], from, to)];
        }
        remaining := remaining - {name};
      }
      assert targets - remaining == targets;
    }
  }
}
