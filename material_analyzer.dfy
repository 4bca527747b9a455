/** GLB readiness of materials: the node-graph traversal from the Material Output node, the
    classification of node types against the supported and unsupported lists, the UDIM and
    complex-mix heuristics, the readiness report, and material replacement on objects. */
module MaterialAnalyzer {
  import opened Wrappers
  import opened Strings
  import opened Scene

  /** Blender shader-node type identifiers; `OtherNode` carries any type not listed here. A node
      tree is read with each listed type as its own constructor, so `OtherNode` never carries a
      listed identifier such as "BSDF_PRINCIPLED" (which `CategoryOf` would call unlisted). */
  datatype NodeType =
    | BsdfPrincipled | Emission
    | TexImage | UvMap | Mapping | NormalMap
    | Math | Mix | ValToRgb | SepRgb | SeparateColor | CombRgb | CombineColor | VectMath | Attribute
    | Rgb | Value | Geometry | TexCoord
    | BsdfDiffuse | BsdfGlossy | BsdfAnisotropic | BsdfGlass | BsdfTranslucent | BsdfVelvet | BsdfToon
    | BsdfHair | VolumeShader | SubsurfaceScattering | BsdfRefraction
    | TexNoise | TexVoronoi | TexWave | TexMagic | TexChecker | TexBrick | TexGradient | TexMusgrave
    | TexWhiteNoise
    | LightPath | ObjectInfo | ParticleInfo | Fresnel | LayerWeight | CurveRgb | CurveVec | Blackbody
    | Wavelength
    | OutputMaterial | Group | MixShader | Bump
    | OtherNode(identifier: string)

  /** Which of the seven node-type lists of the analyzer a type is on, if any. */
  datatype Category =
    | SupportedShader | SupportedTexture | SupportedUtility | SupportedInput
    | UnsupportedShader | UnsupportedTexture | UnsupportedUtility
    | Unlisted

  /** The lists `SUPPORTED_*_NODES` and `UNSUPPORTED_*_NODES`; a type is on at most one. */
  function CategoryOf(t: NodeType): Category {
    match t
    case BsdfPrincipled | Emission => SupportedShader
    case TexImage | UvMap | Mapping | NormalMap => SupportedTexture
    case Math | Mix | ValToRgb | SepRgb | SeparateColor | CombRgb | CombineColor | VectMath | Attribute =>
      SupportedUtility
    case Rgb | Value | Geometry | TexCoord => SupportedInput
    case BsdfDiffuse | BsdfGlossy | BsdfAnisotropic | BsdfGlass | BsdfTranslucent | BsdfVelvet | BsdfToon
       | BsdfHair | VolumeShader | SubsurfaceScattering | BsdfRefraction => UnsupportedShader
    case TexNoise | TexVoronoi | TexWave | TexMagic | TexChecker | TexBrick | TexGradient | TexMusgrave
       | TexWhiteNoise => UnsupportedTexture
    case LightPath | ObjectInfo | ParticleInfo | Fresnel | LayerWeight | CurveRgb | CurveVec | Blackbody
       | Wavelength => UnsupportedUtility
    case _ => Unlisted
  }

  /** `is_node_supported`. */
  predicate IsSupported(t: NodeType) {
    CategoryOf(t) in {SupportedShader, SupportedTexture, SupportedUtility, SupportedInput}
  }

  /** `is_node_unsupported`. */
  predicate IsUnsupported(t: NodeType) {
    CategoryOf(t) in {UnsupportedShader, UnsupportedTexture, UnsupportedUtility}
  }

  /** The output, group and mix-shader types are on neither list. */
  lemma UnlistedTypes()
    ensures CategoryOf(OutputMaterial) == Unlisted && CategoryOf(Group) == Unlisted
    ensures CategoryOf(MixShader) == Unlisted && CategoryOf(Bump) == Unlisted
    ensures forall s :: CategoryOf(OtherNode(s)) == Unlisted
  {
  }

  /** No node type is on both a supported and an unsupported list. */
  lemma SupportListsDisjoint(t: NodeType)
    ensures !(IsSupported(t) && IsUnsupported(t))
  {
  }

  /** The type identifier as Blender spells it. */
  function TypeName(t: NodeType): string {
    match t
    case BsdfPrincipled => "BSDF_PRINCIPLED"  case Emission => "EMISSION"
    case TexImage => "TEX_IMAGE"  case UvMap => "UVMAP"  case Mapping => "MAPPING"  case NormalMap => "NORMAL_MAP"
    case Math => "MATH"  case Mix => "MIX"  case ValToRgb => "VALTORGB"  case SepRgb => "SEPRGB"
    case SeparateColor => "SEPARATE_COLOR"  case CombRgb => "COMBRGB"  case CombineColor => "COMBINE_COLOR"
    case VectMath => "VECT_MATH"  case Attribute => "ATTRIBUTE"
    case Rgb => "RGB"  case Value => "VALUE"  case Geometry => "GEOMETRY"  case TexCoord => "TEX_COORD"
    case BsdfDiffuse => "BSDF_DIFFUSE"  case BsdfGlossy => "BSDF_GLOSSY"  case BsdfAnisotropic => "BSDF_ANISOTROPIC"
    case BsdfGlass => "BSDF_GLASS"  case BsdfTranslucent => "BSDF_TRANSLUCENT"  case BsdfVelvet => "BSDF_VELVET"
    case BsdfToon => "BSDF_TOON"  case BsdfHair => "BSDF_HAIR"  case VolumeShader => "VOLUME_SHADER"
    case SubsurfaceScattering => "SUBSURFACE_SCATTERING"  case BsdfRefraction => "BSDF_REFRACTION"
    case TexNoise => "TEX_NOISE"  case TexVoronoi => "TEX_VORONOI"  case TexWave => "TEX_WAVE"
    case TexMagic => "TEX_MAGIC"  case TexChecker => "TEX_CHECKER"  case TexBrick => "TEX_BRICK"
    case TexGradient => "TEX_GRADIENT"  case TexMusgrave => "TEX_MUSGRAVE"  case TexWhiteNoise => "TEX_WHITE_NOISE"
    case LightPath => "LIGHT_PATH"  case ObjectInfo => "OBJECT_INFO"  case ParticleInfo => "PARTICLE_INFO"
    case Fresnel => "FRESNEL"  case LayerWeight => "LAYER_WEIGHT"  case CurveRgb => "CURVE_RGB"
    case CurveVec => "CURVE_VEC"  case Blackbody => "BLACKBODY"  case Wavelength => "WAVELENGTH"
    case OutputMaterial => "OUTPUT_MATERIAL"  case Group => "GROUP"  case MixShader => "MIX_SHADER"
    case Bump => "BUMP"
    case OtherNode(s) => s
  }

  /** A node: its unique name within the tree, its type, and the image of an image node. */
  datatype Node = Node(name: string, kind: NodeType, image: Option<string>)

  /** A link from one node's output to the named input socket of another. */
  datatype Link = Link(from: nat, to: nat, toSocket: string)

  datatype NodeTree = NodeTree(nodes: seq<Node>, links: seq<Link>)

  datatype Material = Material(name: string, useNodes: bool, tree: Option<NodeTree>)

  /** The nodes linked into node `n`, in link order. */
  function InputsOf(links: seq<Link>, n: nat, count: nat): (r: seq<nat>)
    ensures forall w :: w in r ==> w < count
    ensures forall w :: w in r <==> exists l :: l in links && l.to == n && l.from == w && w < count
    decreases |links|
  {
    if links == [] then []
    else (if links[0].to == n && links[0].from < count then [links[0].from] else [])
         + InputsOf(links[1..], n, count)
  }

  /** The nodes node `n` links into, in link order. */
  function OutputsOf(links: seq<Link>, n: nat, count: nat): (r: seq<nat>)
    ensures forall w :: w in r ==> w < count
    ensures forall w :: w in r <==> exists l :: l in links && l.from == n && l.to == w && w < count
    decreases |links|
  {
    if links == [] then []
    else (if links[0].from == n && links[0].to < count then [links[0].to] else [])
         + OutputsOf(links[1..], n, count)
  }

  /** `traverse_node` follows links into the node first, then links out of it. */
  function Neighbors(t: NodeTree, n: nat): (r: seq<nat>)
    ensures forall w :: w in r ==> w < |t.nodes|
  {
    InputsOf(t.links, n, |t.nodes|) + OutputsOf(t.links, n, |t.nodes|)
  }

  /** A walk along links, in either direction. */
  ghost predicate IsWalk(t: NodeTree, p: seq<nat>) {
    |p| >= 1 && p[0] < |t.nodes| && forall i :: 0 <= i < |p| - 1 ==> p[i + 1] in Neighbors(t, p[i])
  }

  ghost predicate Reachable(t: NodeTree, s: nat, v: nat) {
    exists p :: IsWalk(t, p) && p[0] == s && p[|p| - 1] == v
  }

  lemma ReachableStart(t: NodeTree, s: nat)
    requires s < |t.nodes|
    ensures Reachable(t, s, s)
  {
    assert IsWalk(t, [s]);
  }

  lemma ReachableStep(t: NodeTree, s: nat, v: nat, w: nat)
    requires Reachable(t, s, v) && w in Neighbors(t, v)
    ensures Reachable(t, s, w)
  {
    var p :| IsWalk(t, p) && p[0] == s && p[|p| - 1] == v;
    var q := p + [w];
    assert forall i :: 0 <= i < |q| - 1 ==> q[i + 1] in Neighbors(t, q[i]) by {
      forall i | 0 <= i < |q| - 1
        ensures q[i + 1] in Neighbors(t, q[i])
      {
        if i < |p| - 1 {
          assert q[i] == p[i] && q[i + 1] == p[i + 1];
        } else {
          assert q[i] == v && q[i + 1] == w;
        }
      }
    }
    assert IsWalk(t, q);
  }

  predicate ClosedUnderLinks(t: NodeTree, s: set<nat>) {
    forall v :: v in s ==> forall w :: w in Neighbors(t, v) ==> w in s
  }

  /** A set that holds the start and is closed under links holds every reachable node. */
  lemma {:induction false} ClosedHoldsWalk(t: NodeTree, s: set<nat>, p: seq<nat>, k: nat)
    requires IsWalk(t, p) && p[0] in s && ClosedUnderLinks(t, s) && k < |p|
    ensures p[k] in s
  {
    if k > 0 {
      ClosedHoldsWalk(t, s, p, k - 1);
      assert p[k] in Neighbors(t, p[k - 1]);
    }
  }

  lemma ClosedHoldsReachable(t: NodeTree, s: set<nat>, start: nat, v: nat)
    requires start in s && ClosedUnderLinks(t, s) && Reachable(t, start, v)
    ensures v in s
  {
    var p :| IsWalk(t, p) && p[0] == start && p[|p| - 1] == v;
    ClosedHoldsWalk(t, s, p, |p| - 1);
  }

  predicate NoDuplicates(s: seq<nat>) {
    forall i, j :: 0 <= i < j < |s| ==> s[i] != s[j]
  }

  /** The traversal's state: `visited` and `order` agree, everything visited is reachable,
      and a visited node whose links are not all followed yet is still on the call stack. */
  ghost predicate TraversalInv(t: NodeTree, start: nat, visited: set<nat>, order: seq<nat>, stack: set<nat>) {
    (forall v :: v in visited ==> v < |t.nodes| && Reachable(t, start, v))
    && (forall v :: v in visited <==> v in order)
    && NoDuplicates(order)
    && stack <= visited
    && (forall v :: v in visited && v !in stack ==> forall w :: w in Neighbors(t, v) ==> w in visited)
  }

  function Range(n: nat): (r: set<nat>)
    ensures forall i: nat :: i in r <==> i < n
  {
    if n == 0 then {} else Range(n - 1) + {n - 1}
  }

  function Indices(t: NodeTree): set<nat> {
    Range(|t.nodes|)
  }

  /** `traverse_node(node)`. */
  method Traverse(t: NodeTree, start: nat, n: nat, visited: set<nat>, order: seq<nat>, ghost stack: set<nat>)
    returns (visited': set<nat>, order': seq<nat>)
    requires n < |t.nodes| && Reachable(t, start, n)
    requires TraversalInv(t, start, visited, order, stack)
    ensures TraversalInv(t, start, visited', order', stack)
    ensures visited <= visited' && n in visited' && order <= order'
    decreases Indices(t) - visited
  {
    if n in visited {
      return visited, order;
    }
    visited', order' := visited + {n}, order + [n];
    var nb := Neighbors(t, n);
    var i := 0;
    while i < |nb|
      invariant 0 <= i <= |nb|
      invariant TraversalInv(t, start, visited', order', stack + {n})
      invariant visited + {n} <= visited' && order + [n] <= order'
      invariant forall j :: 0 <= j < i ==> nb[j] in visited'
    {
      ReachableStep(t, start, n, nb[i]);
      assert n in Indices(t);
      visited', order' := Traverse(t, start, nb[i], visited', order', stack + {n});
      i := i + 1;
    }
  }

  /** `nodes.get('Material Output')`: the node with that name. */
  function FindNode(nodes: seq<Node>, name: string): (r: Option<nat>)
    ensures r.Some? ==> r.value < |nodes| && nodes[r.value].name == name
                        && forall j :: 0 <= j < r.value ==> nodes[j].name != name
    ensures r.None? ==> forall j :: 0 <= j < |nodes| ==> nodes[j].name != name
    decreases |nodes|
  {
    if nodes == [] then None
    else if nodes[0].name == name then Some(0)
    else match FindNode(nodes[1..], name)
      case None => None
      case Some(k) => Some(k + 1)
  }

  const OutputName := "Material Output"

  /** `get_all_nodes_in_tree`: every node reachable from the Material Output node along links
      in either direction, each once; empty without nodes, a tree or an output node. */
  method AllNodesInTree(m: Option<Material>) returns (order: seq<nat>)
    ensures NoDuplicates(order)
    ensures m.None? || !m.value.useNodes || m.value.tree.None? ==> order == []
    ensures m.Some? && m.value.useNodes && m.value.tree.Some? ==>
              var t := m.value.tree.value;
              match FindNode(t.nodes, OutputName)
              case None => order == []
              case Some(s) => forall v: nat :: v in order <==> v < |t.nodes| && Reachable(t, s, v)
  {
    if m.None? || !m.value.useNodes || m.value.tree.None? {
      return [];
    }
    var t := m.value.tree.value;
    var out := FindNode(t.nodes, OutputName);
    if out.None? {
      return [];
    }
    var s := out.value;
    ReachableStart(t, s);
    var visited;
    visited, order := Traverse(t, s, s, {}, [], {});
    forall v: nat | v < |t.nodes| && Reachable(t, s, v)
      ensures v in order
    {
      ClosedHoldsReachable(t, visited, s, v);
    }
  }

  /** `_\d{4}\.` at position `i`. */
  predicate UdimAt(s: string, i: nat) {
    i + 6 <= |s| && s[i] == '_' && IsDigit(s[i + 1]) && IsDigit(s[i + 2]) && IsDigit(s[i + 3])
    && IsDigit(s[i + 4]) && s[i + 5] == '.'
  }

  /** `re.search(r'_\d{4}\.', s)` succeeds. */
  function HasUdimPattern(s: string, from: nat): (r: bool)
    ensures r <==> exists i :: from <= i && UdimAt(s, i)
    decreases |s| - from
  {
    if from + 6 > |s| then
      assert forall i :: from <= i ==> !UdimAt(s, i);
      false
    else UdimAt(s, from) || HasUdimPattern(s, from + 1)
  }

  /** `check_udim_texture`. */
  predicate IsUdimTexture(n: Node) {
    n.kind == TexImage && n.image.Some? && HasUdimPattern(n.image.value, 0)
  }

  lemma UdimExamples()
    ensures IsUdimTexture(Node("Base", TexImage, Some("wood_1001.png")))
    ensures !IsUdimTexture(Node("Base", TexImage, Some("wood_101.png")))
    ensures !IsUdimTexture(Node("Base", TexNoise, Some("wood_1001.png")))
  {
    assert UdimAt("wood_1001.png", 4);
    var s := "wood_101.png";
    forall i | 0 <= i
      ensures !UdimAt(s, i)
    {
      if i + 6 <= |s| && s[i] == '_' {
        assert i == 4;
      }
    }
  }

  function KindOf(t: NodeTree, v: nat): NodeType {
    if v < |t.nodes| then t.nodes[v].kind else OtherNode("")
  }

  /** Links into `n` whose source is a Principled BSDF. */
  function PrincipledInputs(t: NodeTree, links: seq<Link>, n: nat): (r: nat)
    ensures r <= |links|
    decreases |links|
  {
    if links == [] then 0
    else (if links[0].to == n && KindOf(t, links[0].from) == BsdfPrincipled then 1 else 0)
         + PrincipledInputs(t, links[1..], n)
  }

  /** `check_complex_mix_shader`. */
  predicate IsComplexMix(t: NodeTree, n: nat) {
    KindOf(t, n) == MixShader && PrincipledInputs(t, t.links, n) > 1
  }

  /** The first link into input `socket` of node `n`. */
  function FirstLinkInto(links: seq<Link>, n: nat, socket: string, count: nat): (r: Option<nat>)
    ensures r.Some? ==> r.value < count
                        && exists l :: l in links && l.to == n && l.toSocket == socket && l.from == r.value
    ensures r.None? ==> forall l :: l in links && l.to == n && l.toSocket == socket ==> l.from >= count
    decreases |links|
  {
    if links == [] then None
    else if links[0].to == n && links[0].toSocket == socket && links[0].from < count then Some(links[0].from)
    else FirstLinkInto(links[1..], n, socket, count)
  }

  function Describe(n: Node): string {
    if n.kind == Group then n.name + " (Group Node)" else n.name + " (" + TypeName(n.kind) + ")"
  }

  /** The unsupported-shader entry for a node of the main loop. */
  function ShaderEntry(n: Node): (r: Option<string>)
    ensures r.None? <==> IsSupported(n.kind)
  {
    if CategoryOf(n.kind) == UnsupportedShader || n.kind == Group || !IsSupported(n.kind) then Some(Describe(n)) else None
  }

  function ProceduralEntry(n: Node): Option<string> {
    if CategoryOf(n.kind) == UnsupportedTexture then Some(n.name + " (" + TypeName(n.kind) + ")") else None
  }

  function UtilityEntry(n: Node): Option<string> {
    if CategoryOf(n.kind) == UnsupportedUtility then Some(n.name + " (" + TypeName(n.kind) + ")") else None
  }

  /** The main loop skips the output node type and the surface shader. */
  predicate Skipped(t: NodeTree, surface: nat, v: nat) {
    v >= |t.nodes| || t.nodes[v].kind == OutputMaterial || v == surface
  }

  /** What one node of the loop adds to a list, for a classifier. */
  function Entry(t: NodeTree, surface: nat, v: nat, f: Node -> Option<string>): seq<string> {
    if !Skipped(t, surface, v) && f(t.nodes[v]).Some? then [f(t.nodes[v]).value] else []
  }

  /** The entries a classifier yields over the loop's nodes, in traversal order. */
  function Collect(t: NodeTree, surface: nat, order: seq<nat>, f: Node -> Option<string>): seq<string>
    decreases |order|
  {
    if order == [] then []
    else
      var v := order[|order| - 1];
      Collect(t, surface, order[..|order| - 1], f) + Entry(t, surface, v, f)
  }

  lemma {:induction false} CollectEmpty(t: NodeTree, surface: nat, order: seq<nat>, f: Node -> Option<string>)
    ensures Collect(t, surface, order, f) == [] <==>
              forall i :: 0 <= i < |order| && !Skipped(t, surface, order[i]) ==> f(t.nodes[order[i]]).None?
    decreases |order|
  {
    if order != [] {
      var init := order[..|order| - 1];
      CollectEmpty(t, surface, init, f);
      assert forall i :: 0 <= i < |init| ==> init[i] == order[i];
    }
  }

  function Udims(t: NodeTree, surface: nat, order: seq<nat>): seq<string>
    decreases |order|
  {
    if order == [] then []
    else
      var v := order[|order| - 1];
      Udims(t, surface, order[..|order| - 1])
      + (if !Skipped(t, surface, v) && IsUdimTexture(t.nodes[v]) then [t.nodes[v].name] else [])
  }

  function Mixes(t: NodeTree, surface: nat, order: seq<nat>): seq<string>
    decreases |order|
  {
    if order == [] then []
    else
      var v := order[|order| - 1];
      Mixes(t, surface, order[..|order| - 1])
      + (if !Skipped(t, surface, v) && IsComplexMix(t, v) then [t.nodes[v].name] else [])
  }

  function Bullets(items: seq<string>): (r: seq<string>)
    ensures |r| == |items|
    decreases |items|
  {
    if items == [] then [] else ["  \U{2022} " + items[0]] + Bullets(items[1..])
  }

  datatype Report = Report(isReady: bool, issues: seq<string>, warnings: seq<string>)

  function Blocked(heading: string, detail: string): Report {
    Report(false, [heading, "  \U{2022} " + detail], [])
  }

  /** The surface shader feeding the output node's Surface input. */
  function SurfaceShader(t: NodeTree, out: nat): Option<nat> {
    FirstLinkInto(t.links, out, "Surface", |t.nodes|)
  }

  /** What readiness means: a node tree with a Material Output node whose Surface input is
      fed by a Principled BSDF or Emission shader, and every other reachable node, bar
      output-type nodes, of a supported type. */
  ghost predicate ReadyMaterial(m: Option<Material>) {
    m.Some? && m.value.useNodes && m.value.tree.Some?
    && var t := m.value.tree.value;
       FindNode(t.nodes, OutputName).Some?
       && var out := FindNode(t.nodes, OutputName).value;
          SurfaceShader(t, out).Some?
          && var surface := SurfaceShader(t, out).value;
             CategoryOf(t.nodes[surface].kind) == SupportedShader
             && forall v: nat :: v < |t.nodes| && Reachable(t, out, v) && !Skipped(t, surface, v) ==> IsSupported(t.nodes[v].kind)
  }

  /** The body of the node loop for node `v`: what it appends to each of the five lists. */
  method ClassifyNode(t: NodeTree, surface: nat, v: nat)
    returns (shader: seq<string>, procedural: seq<string>, utility: seq<string>, udim: seq<string>, mix: seq<string>)
    requires v < |t.nodes|
    ensures shader == Entry(t, surface, v, ShaderEntry)
    ensures procedural == Entry(t, surface, v, ProceduralEntry)
    ensures utility == Entry(t, surface, v, UtilityEntry)
    ensures udim == if !Skipped(t, surface, v) && IsUdimTexture(t.nodes[v]) then [t.nodes[v].name] else []
    ensures mix == if !Skipped(t, surface, v) && IsComplexMix(t, v) then [t.nodes[v].name] else []
  {
    shader, procedural, utility, udim, mix := [], [], [], [], [];
    if t.nodes[v].kind != OutputMaterial && v != surface {
      var n := t.nodes[v];
      if CategoryOf(n.kind) == UnsupportedShader {
        shader := [Describe(n)];
      } else if n.kind == Group {
        shader := [Describe(n)];
      } else if !IsSupported(n.kind) {
        shader := [Describe(n)];
      }
      if CategoryOf(n.kind) == UnsupportedTexture {
        procedural := [n.name + " (" + TypeName(n.kind) + ")"];
      }
      if CategoryOf(n.kind) == UnsupportedUtility {
        utility := [n.name + " (" + TypeName(n.kind) + ")"];
      }
      if n.kind == TexImage && IsUdimTexture(n) {
        udim := [n.name];
      }
      if n.kind == MixShader && IsComplexMix(t, v) {
        mix := [n.name];
      }
    }
  }

  /** The node loop of `analyze_material_readiness`: the five lists it fills. */
  method ClassifyNodes(t: NodeTree, surface: nat, allNodes: seq<nat>)
    returns (shaders: seq<string>, procedural: seq<string>, utilities: seq<string>, udims: seq<string>,
             mixes: seq<string>)
    requires forall v :: v in allNodes ==> v < |t.nodes|
    ensures shaders == Collect(t, surface, allNodes, ShaderEntry)
    ensures procedural == Collect(t, surface, allNodes, ProceduralEntry)
    ensures utilities == Collect(t, surface, allNodes, UtilityEntry)
    ensures udims == Udims(t, surface, allNodes)
    ensures mixes == Mixes(t, surface, allNodes)
  {
    shaders, procedural, utilities, udims, mixes := [], [], [], [], [];
    var i := 0;
    while i < |allNodes|
      invariant 0 <= i <= |allNodes|
      invariant shaders == Collect(t, surface, allNodes[..i], ShaderEntry)
      invariant procedural == Collect(t, surface, allNodes[..i], ProceduralEntry)
      invariant utilities == Collect(t, surface, allNodes[..i], UtilityEntry)
      invariant udims == Udims(t, surface, allNodes[..i])
      invariant mixes == Mixes(t, surface, allNodes[..i])
    {
      var v := allNodes[i];
      assert v in allNodes;
      assert allNodes[..i + 1][..i] == allNodes[..i];
      var s, p, u, d, m := ClassifyNode(t, surface, v);
      shaders, procedural, utilities, udims, mixes := shaders + s, procedural + p, utilities + u, udims + d, mixes + m;
      i := i + 1;
    }
    assert allNodes[..i] == allNodes;
  }

  /** The blocking issue lines, one block per non-empty list. */
  function IssueLines(shaders: seq<string>, procedural: seq<string>, utilities: seq<string>, mixes: seq<string>)
    : (r: seq<string>)
    ensures r == [] <==> shaders == [] && procedural == [] && utilities == [] && mixes == []
  {
    (if shaders != [] then ["Unsupported shader nodes:"] + Bullets(shaders)
                           + ["  Use Principled BSDF or Emission shader instead"] else [])
    + (if procedural != [] then ["Contains procedural textures:"] + Bullets(procedural) else [])
    + (if utilities != [] then ["Contains unsupported utility nodes:"] + Bullets(utilities) else [])
    + (if mixes != [] then ["Complex Mix Shader setup mixing multiple Principled BSDFs:"] + Bullets(mixes) else [])
  }

  /** The entry the surface shader itself puts first on the unsupported-shader list. */
  function MainShaderEntry(t: NodeTree, surface: nat): (r: seq<string>)
    requires surface < |t.nodes|
    ensures r == [] <==> CategoryOf(t.nodes[surface].kind) == SupportedShader
    ensures r != [] ==> r == [Describe(t.nodes[surface])]
  {
    if CategoryOf(t.nodes[surface].kind) != SupportedShader then [Describe(t.nodes[surface])] else []
  }

  /** The issue lines of a tree whose Surface input is fed by `surface`, for the nodes met in
      the order `order`. */
  function SurfaceIssueLines(t: NodeTree, surface: nat, order: seq<nat>): seq<string>
    requires surface < |t.nodes|
  {
    IssueLines(MainShaderEntry(t, surface) + Collect(t, surface, order, ShaderEntry),
               Collect(t, surface, order, ProceduralEntry), Collect(t, surface, order, UtilityEntry),
               Mixes(t, surface, order))
  }

  const VolumeWarning := "Volume shader connected (limited glTF support)"

  function UdimWarning(names: seq<string>): string {
    "UDIM textures detected: " + Join(", ", names) + " (will split into multiple images)"
  }

  function ComplexTreeWarning(count: nat): string {
    "Complex node tree (" + NatToString(count) + " nodes) - may export with reduced fidelity"
  }

  /** The warning for a linked Volume input. */
  function VolumeWarnings(t: NodeTree, out: nat): seq<string> {
    if FirstLinkInto(t.links, out, "Volume", |t.nodes|).Some? then [VolumeWarning] else []
  }

  /** The warning naming the UDIM textures, when there are any. */
  function UdimWarnings(names: seq<string>): seq<string> {
    if names != [] then [UdimWarning(names)] else []
  }

  /** The warning for a tree of more than 20 nodes. */
  function SizeWarnings(count: nat): seq<string> {
    if count > 20 then [ComplexTreeWarning(count)] else []
  }

  /** The non-blocking warnings, in the order they are appended: a linked Volume input, the
      UDIM textures met in `order`, and a tree of more than 20 nodes. */
  function SurfaceWarnings(t: NodeTree, out: nat, surface: nat, order: seq<nat>): (r: seq<string>)
    ensures |r| <= 3
    ensures r == [] <==> FirstLinkInto(t.links, out, "Volume", |t.nodes|).None?
                         && Udims(t, surface, order) == [] && |order| <= 20
    ensures FirstLinkInto(t.links, out, "Volume", |t.nodes|).Some? ==> r[0] == VolumeWarning
  {
    VolumeWarnings(t, out) + UdimWarnings(Udims(t, surface, order)) + SizeWarnings(|order|)
  }

  /** The report of a tree whose Surface input is fed by `surface`, when the traversal from
      the output node `out` met the reachable nodes in the order `order`. */
  ghost predicate TreeReport(r: Report, t: NodeTree, out: nat, surface: nat, order: seq<nat>) {
    surface < |t.nodes|
    && NoDuplicates(order)
    && (forall v: nat :: v in order <==> v < |t.nodes| && Reachable(t, out, v))
    && r.issues == SurfaceIssueLines(t, surface, order)
    && r.warnings == SurfaceWarnings(t, out, surface, order)
  }

  /** A material with nodes, a tree, an output node, and a linked Surface input. */
  predicate SurfaceLinked(m: Option<Material>) {
    m.Some? && m.value.useNodes && m.value.tree.Some?
    && FindNode(m.value.tree.value.nodes, OutputName).Some?
    && SurfaceShader(m.value.tree.value, FindNode(m.value.tree.value.nodes, OutputName).value).Some?
  }

  lemma WalkEndsInTree(t: NodeTree, out: nat, v: nat)
    requires Reachable(t, out, v)
    ensures v < |t.nodes|
  {
    var p :| IsWalk(t, p) && p[0] == out && p[|p| - 1] == v;
    if |p| > 1 {
      assert p[|p| - 1] in Neighbors(t, p[|p| - 2]);
    }
  }

  /** `analyze_material_readiness`. */
  method AnalyzeMaterialReadiness(m: Option<Material>) returns (r: Report)
    ensures r.isReady <==> r.issues == []
    ensures r.isReady <==> ReadyMaterial(m)
    ensures m.None? ==> r == Blocked("Material issues:", "Material is None")
    ensures m.Some? && !m.value.useNodes ==> r == Blocked("Material issues:", "Material does not use nodes")
    ensures m.Some? && m.value.useNodes && m.value.tree.None? ==> r == Blocked("Material issues:", "Material has no node tree")
    ensures m.Some? && m.value.useNodes && m.value.tree.Some? && FindNode(m.value.tree.value.nodes, OutputName).None? ==>
              r == Blocked("Material Output issues:", "Missing Material Output node")
    ensures m.Some? && m.value.useNodes && m.value.tree.Some? && FindNode(m.value.tree.value.nodes, OutputName).Some?
            && SurfaceShader(m.value.tree.value, FindNode(m.value.tree.value.nodes, OutputName).value).None? ==>
              r == Blocked("Material Output issues:", "Material Output Surface input not connected")
    ensures SurfaceLinked(m) ==>
              var t := m.value.tree.value;
              var out := FindNode(t.nodes, OutputName).value;
              exists order :: TreeReport(r, t, out, SurfaceShader(t, out).value, order)
  {
    if m.None? {
      return Blocked("Material issues:", "Material is None");
    }
    if !m.value.useNodes {
      return Blocked("Material issues:", "Material does not use nodes");
    }
    if m.value.tree.None? {
      return Blocked("Material issues:", "Material has no node tree");
    }
    var t := m.value.tree.value;
    var outNode := FindNode(t.nodes, OutputName);
    if outNode.None? {
      return Blocked("Material Output issues:", "Missing Material Output node");
    }
    var out := outNode.value;
    var surfaceLink := SurfaceShader(t, out);
    if surfaceLink.None? {
      return Blocked("Material Output issues:", "Material Output Surface input not connected");
    }
    r := AnalyzeSurfaceTree(m, t, out, surfaceLink.value);
  }

  /** The part of `analyze_material_readiness` after the Surface input is found linked. */
  method AnalyzeSurfaceTree(m: Option<Material>, t: NodeTree, out: nat, surface: nat) returns (r: Report)
    requires m.Some? && m.value.useNodes && m.value.tree == Some(t)
    requires FindNode(t.nodes, OutputName) == Some(out) && SurfaceShader(t, out) == Some(surface)
    ensures r.isReady <==> r.issues == []
    ensures r.isReady <==> ReadyMaterial(m)
    ensures exists order :: TreeReport(r, t, out, surface, order)
  {
    var isReady, issues, allNodes, udims := SurfaceIssues(m, t, out, surface);
    var warnings := TreeWarnings(t, out, surface, allNodes, udims);
    r := Report(isReady, issues, warnings);
    assert TreeReport(r, t, out, surface, allNodes);
  }

  /** The warnings of `analyze_material_readiness`, appended in the order the source appends
      them. The Volume check comes first in the source, before the traversal; nothing between
      the two changes the tree, so checking it here appends the same list. */
  method TreeWarnings(t: NodeTree, out: nat, surface: nat, allNodes: seq<nat>, udims: seq<string>)
    returns (warnings: seq<string>)
    requires udims == Udims(t, surface, allNodes)
    ensures warnings == SurfaceWarnings(t, out, surface, allNodes)
  {
    warnings := [];
    if FirstLinkInto(t.links, out, "Volume", |t.nodes|).Some? {
      warnings := warnings + [VolumeWarning];
    }
    assert warnings == VolumeWarnings(t, out);
    if udims != [] {
      warnings := warnings + [UdimWarning(udims)];
    }
    assert warnings == VolumeWarnings(t, out) + UdimWarnings(udims);
    if |allNodes| > 20 {
      warnings := warnings + [ComplexTreeWarning(|allNodes|)];
    }
  }

  /** The readiness verdict and issue lines of a tree whose Surface input is linked, with the
      reachable nodes and the UDIM texture names the warnings mention. */
  method SurfaceIssues(m: Option<Material>, t: NodeTree, out: nat, surface: nat)
    returns (isReady: bool, issues: seq<string>, allNodes: seq<nat>, udims: seq<string>)
    requires m.Some? && m.value.useNodes && m.value.tree == Some(t)
    requires FindNode(t.nodes, OutputName) == Some(out) && SurfaceShader(t, out) == Some(surface)
    ensures isReady <==> issues == []
    ensures isReady <==> ReadyMaterial(m)
    ensures forall v: nat :: v in allNodes <==> v < |t.nodes| && Reachable(t, out, v)
    ensures NoDuplicates(allNodes)
    ensures udims == Udims(t, surface, allNodes)
    ensures issues == SurfaceIssueLines(t, surface, allNodes)
  {
    isReady := true;
    var mainShader: seq<string> := [];
    if CategoryOf(t.nodes[surface].kind) != SupportedShader {
      isReady := false;
      mainShader := [Describe(t.nodes[surface])];
    }
    allNodes := AllNodesInTree(m);
    forall v | v in allNodes
      ensures v < |t.nodes|
    {
      WalkEndsInTree(t, out, v);
    }
    var shaders, procedural, utilities, mixes;
    shaders, procedural, utilities, udims, mixes := ClassifyNodes(t, surface, allNodes);
    assert mainShader == MainShaderEntry(t, surface);
    issues := IssueLines(mainShader + shaders, procedural, utilities, mixes);
    if issues != [] {
      isReady := false;
    }
    IssuesIffNotReady(m, t, out, surface, allNodes, mainShader, shaders, procedural, utilities, mixes);
  }

  lemma IssuesIffNotReady(m: Option<Material>, t: NodeTree, out: nat, surface: nat, allNodes: seq<nat>,
                          mainShader: seq<string>, shaders: seq<string>, procedural: seq<string>,
                          utilities: seq<string>, mixes: seq<string>)
    requires m.Some? && m.value.useNodes && m.value.tree == Some(t)
    requires FindNode(t.nodes, OutputName) == Some(out) && SurfaceShader(t, out) == Some(surface)
    requires forall v: nat :: v in allNodes <==> v < |t.nodes| && Reachable(t, out, v)
    requires mainShader == [] <==> CategoryOf(t.nodes[surface].kind) == SupportedShader
    requires shaders == Collect(t, surface, allNodes, ShaderEntry)
    requires procedural == Collect(t, surface, allNodes, ProceduralEntry)
    requires utilities == Collect(t, surface, allNodes, UtilityEntry)
    requires mixes == Mixes(t, surface, allNodes)
    ensures IssueLines(mainShader + shaders, procedural, utilities, mixes) == [] <==> ReadyMaterial(m)
  {
    ShaderEntriesIffSupported(t, out, surface, allNodes);
    ProceduralNeedsUnsupported(t, surface, allNodes);
    UtilityNeedsUnsupported(t, surface, allNodes);
    MixesNeedUnsupported(t, surface, allNodes);
    ReadyUnfold(m, t, out, surface);
  }

  lemma ReadyUnfold(m: Option<Material>, t: NodeTree, out: nat, surface: nat)
    requires m.Some? && m.value.useNodes && m.value.tree == Some(t)
    requires FindNode(t.nodes, OutputName) == Some(out) && SurfaceShader(t, out) == Some(surface)
    ensures ReadyMaterial(m) <==> (CategoryOf(t.nodes[surface].kind) == SupportedShader
              && forall v: nat :: v < |t.nodes| && Reachable(t, out, v) && !Skipped(t, surface, v) ==> IsSupported(t.nodes[v].kind))
  {
  }

  lemma ShaderEntriesIffSupported(t: NodeTree, out: nat, surface: nat, allNodes: seq<nat>)
    requires forall v: nat :: v in allNodes <==> v < |t.nodes| && Reachable(t, out, v)
    ensures Collect(t, surface, allNodes, ShaderEntry) == [] <==>
              forall v: nat :: v < |t.nodes| && Reachable(t, out, v) && !Skipped(t, surface, v) ==> IsSupported(t.nodes[v].kind)
  {
    CollectEmpty(t, surface, allNodes, ShaderEntry);
    if Collect(t, surface, allNodes, ShaderEntry) == [] {
      forall v: nat | v < |t.nodes| && Reachable(t, out, v) && !Skipped(t, surface, v)
        ensures IsSupported(t.nodes[v].kind)
      {
        var i :| 0 <= i < |allNodes| && allNodes[i] == v;
        assert ShaderEntry(t.nodes[allNodes[i]]).None?;
      }
    }
  }

  lemma {:induction false} ProceduralNeedsUnsupported(t: NodeTree, surface: nat, order: seq<nat>)
    ensures Collect(t, surface, order, ProceduralEntry) != [] ==> Collect(t, surface, order, ShaderEntry) != []
  {
    CollectEmpty(t, surface, order, ProceduralEntry);
    CollectEmpty(t, surface, order, ShaderEntry);
    if Collect(t, surface, order, ProceduralEntry) != [] {
      var i :| 0 <= i < |order| && !Skipped(t, surface, order[i]) && ProceduralEntry(t.nodes[order[i]]).Some?;
      assert !IsSupported(t.nodes[order[i]].kind);
    }
  }

  lemma {:induction false} UtilityNeedsUnsupported(t: NodeTree, surface: nat, order: seq<nat>)
    ensures Collect(t, surface, order, UtilityEntry) != [] ==> Collect(t, surface, order, ShaderEntry) != []
  {
    CollectEmpty(t, surface, order, UtilityEntry);
    CollectEmpty(t, surface, order, ShaderEntry);
    if Collect(t, surface, order, UtilityEntry) != [] {
      var i :| 0 <= i < |order| && !Skipped(t, surface, order[i]) && UtilityEntry(t.nodes[order[i]]).Some?;
      assert !IsSupported(t.nodes[order[i]].kind);
    }
  }

  lemma {:induction false} MixesNeedUnsupported(t: NodeTree, surface: nat, order: seq<nat>)
    ensures Mixes(t, surface, order) != [] ==> Collect(t, surface, order, ShaderEntry) != []
    decreases |order|
  {
    if order != [] {
      var init := order[..|order| - 1];
      MixesNeedUnsupported(t, surface, init);
      if Mixes(t, surface, order) != [] && Mixes(t, surface, init) == [] {
        assert !IsSupported(MixShader);
        CollectEmpty(t, surface, order, ShaderEntry);
      }
    }
  }

  /** The materials in an object's slots. */
  function SlotMaterials(slots: seq<Option<string>>): (r: set<string>)
    ensures forall m :: m in r <==> Some(m) in slots
    decreases |slots|
  {
    if slots == [] then {}
    else (if slots[0].Some? then {slots[0].value} else {}) + SlotMaterials(slots[1..])
  }

  /** Slot materials of the mesh objects (with data) in a list. */
  function MeshMaterials(objs: seq<Obj>): (r: set<string>)
    ensures forall m :: m in r <==> exists o :: o in objs && o.kind == Mesh && o.data.Some? && Some(m) in o.slots
    decreases |objs|
  {
    if objs == [] then {}
    else (if objs[0].kind == Mesh && objs[0].data.Some? then SlotMaterials(objs[0].slots) else {})
         + MeshMaterials(objs[1..])
  }

  /** The materials an object contributes: its own slots for a mesh, the meshes of the
      instanced collection for a collection-instance empty. */
  function ObjectMaterials(o: Obj, collections: map<string, seq<Obj>>): set<string> {
    if o.kind == Mesh && o.data.Some? then SlotMaterials(o.slots)
    else if InstancesCollection(o, collections) then
      MeshMaterials(collections[o.instance.value])
    else {}
  }

  /** `get_materials_to_analyze`: the set of materials of the selection, collection instances
      included; `collections` maps a collection name to all of its objects. */
  function MaterialsToAnalyze(selected: seq<Obj>, collections: map<string, seq<Obj>>): (r: set<string>)
    ensures selected == [] ==> r == {}
    ensures forall m :: m in r <==> exists o :: o in selected && m in ObjectMaterials(o, collections)
    decreases |selected|
  {
    if selected == [] then {}
    else ObjectMaterials(selected[0], collections) + MaterialsToAnalyze(selected[1..], collections)
  }

  function Lookup(store: map<string, Material>, name: string): Option<Material> {
    if name in store then Some(store[name]) else None
  }

  /** The names `keep` accepts, in order. */
  function Filter(names: seq<string>, keep: string -> bool): seq<string>
    decreases |names|
  {
    if names == [] then []
    else Filter(names[..|names| - 1], keep) + (if keep(names[|names| - 1]) then [names[|names| - 1]] else [])
  }

  /** Filtering keeps exactly the accepted names and never lengthens the list. */
  lemma {:induction false} FilterFacts(names: seq<string>, keep: string -> bool)
    ensures forall n :: n in Filter(names, keep) <==> n in names && keep(n)
    ensures |Filter(names, keep)| <= |names|
    decreases |names|
  {
    if names != [] {
      var init, last := names[..|names| - 1], names[|names| - 1];
      assert names == init + [last];
      FilterFacts(init, keep);
    }
  }

  /** `get_valid_materials`: the analysed materials that are ready, in order. */
  method ValidMaterials(names: seq<string>, store: map<string, Material>) returns (valid: seq<string>)
    ensures valid == Filter(names, n => ReadyMaterial(Lookup(store, n)))
    ensures forall n :: n in valid <==> n in names && ReadyMaterial(Lookup(store, n))
    ensures |valid| <= |names|
  {
    ghost var ready: string -> bool := n => ReadyMaterial(Lookup(store, n));
    valid := [];
    var i := 0;
    while i < |names|
      invariant 0 <= i <= |names|
      invariant valid == Filter(names[..i], ready)
    {
      var report := AnalyzeMaterialReadiness(Lookup(store, names[i]));
      assert names[..i + 1][..i] == names[..i];
      assert report.isReady == ready(names[i]);
      if report.isReady {
        valid := valid + [names[i]];
      }
      i := i + 1;
    }
    assert names[..i] == names;
    FilterFacts(names, ready);
  }

  /** A slot list with every `old` slot pointed at `new`. */
  function ReplaceSlots(slots: seq<Option<string>>, oldMat: string, newMat: string): (r: seq<Option<string>>)
    ensures |r| == |slots|
    ensures forall k :: 0 <= k < |slots| ==> r[k] == if slots[k] == Some(oldMat) then Some(newMat) else slots[k]
  {
    seq(|slots|, k requires 0 <= k < |slots| => if slots[k] == Some(oldMat) then Some(newMat) else slots[k])
  }

  /** Number of slots holding `m`. */
  function CountSlots(slots: seq<Option<string>>, m: string): (r: nat)
    ensures r <= |slots|
    ensures r == 0 <==> Some(m) !in slots
    decreases |slots|
  {
    if slots == [] then 0 else (if slots[0] == Some(m) then 1 else 0) + CountSlots(slots[1..], m)
  }

  predicate Scanned(o: Obj) { o.kind == Mesh && o.data.Some? }

  function ReplacedObject(o: Obj, oldMat: string, newMat: string): Obj {
    if Scanned(o) then o.(slots := ReplaceSlots(o.slots, oldMat, newMat)) else o
  }

  /** Slots holding `m` over the scanned objects. */
  function TotalHits(objs: seq<Obj>, m: string): nat
    decreases |objs|
  {
    if objs == [] then 0
    else TotalHits(objs[..|objs| - 1], m) + (if Scanned(objs[|objs| - 1]) then CountSlots(objs[|objs| - 1].slots, m) else 0)
  }

  /** The slot loop for one object: repoint and count. */
  method ReplaceInSlots(slots: seq<Option<string>>, oldMat: string, newMat: string)
    returns (slots': seq<Option<string>>, hits: nat)
    ensures slots' == ReplaceSlots(slots, oldMat, newMat) && hits == CountSlots(slots, oldMat)
  {
    slots', hits := slots, 0;
    var k := 0;
    while k < |slots|
      invariant 0 <= k <= |slots| && |slots'| == |slots|
      invariant forall j :: 0 <= j < k ==> slots'[j] == if slots[j] == Some(oldMat) then Some(newMat) else slots[j]
      invariant forall j :: k <= j < |slots| ==> slots'[j] == slots[j]
      invariant hits + CountSlots(slots[k..], oldMat) == CountSlots(slots, oldMat)
    {
      assert slots[k..][1..] == slots[k + 1..];
      if slots[k] == Some(oldMat) {
        slots' := slots'[k := Some(newMat)];
        hits := hits + 1;
      }
      k := k + 1;
    }
    assert slots[k..] == [];
  }

  /** `replace_material_on_objects`: the selection, or every scene object without one, with
      each mesh's `old` slots pointed at `new`; `count` is the number of slots changed. */
  method ReplaceMaterialOnObjects(oldMat: Option<string>, newMat: Option<string>, selected: seq<Obj>, sceneObjects: seq<Obj>)
    returns (updated: seq<Obj>, count: nat)
    ensures var scanned := if selected != [] then selected else sceneObjects;
            |updated| == |scanned|
            && (oldMat.None? || newMat.None? ==> updated == scanned && count == 0)
            && (oldMat.Some? && newMat.Some? ==>
                  count == TotalHits(scanned, oldMat.value)
                  && forall i :: 0 <= i < |scanned| ==> updated[i] == ReplacedObject(scanned[i], oldMat.value, newMat.value))
    ensures oldMat.Some? && newMat.Some? && oldMat != newMat ==>
              forall o :: o in updated && Scanned(o) ==> Some(oldMat.value) !in o.slots
  {
    var scanned := if selected != [] then selected else sceneObjects;
    if oldMat.None? || newMat.None? {
      return scanned, 0;
    }
    updated, count := scanned, 0;
    var i := 0;
    while i < |scanned|
      invariant 0 <= i <= |scanned| && |updated| == |scanned|
      invariant forall j :: 0 <= j < |scanned| ==>
                  updated[j] == if j < i then ReplacedObject(scanned[j], oldMat.value, newMat.value) else scanned[j]
      invariant count == TotalHits(scanned[..i], oldMat.value)
    {
      assert scanned[..i + 1][..i] == scanned[..i];
      var o := scanned[i];
      if o.kind == Mesh && o.data.Some? {
        var slots', hits := ReplaceInSlots(o.slots, oldMat.value, newMat.value);
        updated := updated[i := o.(slots := slots')];
        count := count + hits;
      }
      i := i + 1;
    }
    assert scanned[..i] == scanned;
    if oldMat != newMat {
      forall o | o in updated && Scanned(o)
        ensures Some(oldMat.value) !in o.slots
      {
        var j :| 0 <= j < |updated| && updated[j] == o;
        assert Scanned(scanned[j]);
      }
    }
  }
}
