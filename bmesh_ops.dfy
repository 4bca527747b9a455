/** The bmesh side of decimation preprocessing: a bmesh's vertices, edges and faces with the
    flags the passes test, the `bmesh.ops` kernels as oracles (an `Err` is a raise), the
    messages recording each fix, and the clean-up sequence that both preprocessors end with
    (triangulate n-gons, dissolve degenerate edges, delete loose geometry, merge duplicates,
    recalculate normals). */
module BMeshOps {
  import opened Wrappers
  import opened Strings
  import opened Scene
  import opened Geometry

  /** A vertex: identity, `is_manifold`, and the faces in `link_faces`. */
  datatype BVert = BVert(id: nat, manifold: bool, linkFaces: set<nat>)

  /** An edge: identity, `is_manifold`, and the faces in `link_faces`. */
  datatype BEdge = BEdge(id: nat, manifold: bool, linkFaces: set<nat>)

  /** A face: identity and `len(face.verts)`. */
  datatype BFace = BFace(id: nat, size: nat)

  datatype BMesh = BMesh(verts: seq<BVert>, edges: seq<BEdge>, faces: seq<BFace>)

  /** The kernels: `bm.from_mesh`, `bm.to_mesh`, the `bmesh.ops` calls (each reporting the
      count the code reads from its result) and the Decimate modifier applied in COLLAPSE mode
      at a ratio. */
  datatype Kernels = Kernels(
    fromMesh: PolyMesh -> BMesh,
    toMesh: BMesh -> PolyMesh,
    removeDoubles: (BMesh, string) -> Result<(BMesh, nat)>,
    dissolveEdges: (BMesh, seq<BEdge>) -> Result<BMesh>,
    deleteFaces: (BMesh, set<nat>) -> Result<BMesh>,
    deleteVerts: (BMesh, seq<BVert>) -> Result<BMesh>,
    deleteEdges: (BMesh, seq<BEdge>) -> Result<BMesh>,
    triangulate: (BMesh, seq<BFace>) -> Result<(BMesh, nat)>,
    dissolveDegenerate: BMesh -> Result<(BMesh, nat)>,
    recalcNormals: BMesh -> Result<BMesh>,
    collapse: (PolyMesh, real) -> Result<PolyMesh>)

  /** The bmesh being edited in place. */
  class BMeshBuffer {
    var bm: BMesh

    constructor(bm: BMesh)
      ensures this.bm == bm
    {
      this.bm := bm;
    }
  }

  /** One entry of `issues_fixed`. */
  datatype Fix =
    | Detected(verts: nat, edges: nat)
    | MergedAll(count: nat, dist: string)
    | MergedSome(count: nat, dist: string, remaining: nat)
    | DissolvedInterior(count: nat)
    | RemovedBoundaryFaces(count: nat)
    | RemovedNonManifoldVerts(count: nat)
    | Triangulated(count: nat)
    | RemovedDegenerateEdges(count: nat)
    | RemovedLooseVerts(count: nat)
    | RemovedLooseEdges(count: nat)
    | MergedDuplicates(count: nat)

  /** The text a fix is recorded with; none begins with the letter of "no issues". */
  function FixText(f: Fix): (r: string)
    ensures |r| > 0 && r[0] != 'n'
  {
    match f
    case Detected(v, e) => "detected " + NatToString(v) + " non-manifold verts, " + NatToString(e) + " non-manifold edges"
    case MergedAll(n, d) => "merged " + NatToString(n) + " vertices (distance: " + d + ") - fixed all non-manifold issues"
    case MergedSome(n, d, k) => "merged " + NatToString(n) + " vertices (distance: " + d + ") - reduced non-manifold edges to " + NatToString(k)
    case DissolvedInterior(n) => "dissolved " + NatToString(n) + " interior non-manifold edges"
    case RemovedBoundaryFaces(n) => "removed " + NatToString(n) + " faces with boundary edges (non-manifold)"
    case RemovedNonManifoldVerts(n) => "removed " + NatToString(n) + " non-manifold vertices"
    case Triangulated(n) => "triangulated " + NatToString(n) + " faces"
    case RemovedDegenerateEdges(n) => "removed " + NatToString(n) + " degenerate edges"
    case RemovedLooseVerts(n) => "removed " + NatToString(n) + " loose vertices"
    case RemovedLooseEdges(n) => "removed " + NatToString(n) + " loose edges"
    case MergedDuplicates(n) => "merged " + NatToString(n) + " duplicate vertices"
  }

  function FixTexts(fixes: seq<Fix>): (r: seq<string>)
    ensures |r| == |fixes|
    ensures fixes != [] ==> r[0] == FixText(fixes[0])
    decreases |fixes|
  {
    if fixes == [] then [] else [FixText(fixes[0])] + FixTexts(fixes[1..])
  }

  /** The info string: the fixes joined by ", ", and "no issues" exactly when nothing was fixed. */
  function Info(fixes: seq<Fix>): (r: string)
    ensures r == "no issues" <==> fixes == []
  {
    if fixes == [] then "no issues"
    else
      var r := Join(", ", FixTexts(fixes));
      assert StartsWith(r, FixText(fixes[0]));
      assert r[0] == FixText(fixes[0])[0];
      assert "no issues"[0] == 'n';
      r
  }

  /** The faces with more than three vertices, in order. */
  function LargeFaces(fs: seq<BFace>): (r: seq<BFace>)
    ensures forall f :: f in r <==> f in fs && f.size > 3
    decreases |fs|
  {
    if fs == [] then []
    else LargeFaces(fs[..|fs| - 1]) + (if fs[|fs| - 1].size > 3 then [fs[|fs| - 1]] else [])
  }

  /** The vertices with no linked face, in order. */
  function LooseVerts(vs: seq<BVert>): (r: seq<BVert>)
    ensures forall v :: v in r <==> v in vs && v.linkFaces == {}
    decreases |vs|
  {
    if vs == [] then []
    else LooseVerts(vs[..|vs| - 1]) + (if vs[|vs| - 1].linkFaces == {} then [vs[|vs| - 1]] else [])
  }

  /** The edges with no linked face, in order. */
  function LooseEdges(es: seq<BEdge>): (r: seq<BEdge>)
    ensures forall e :: e in r <==> e in es && e.linkFaces == {}
    decreases |es|
  {
    if es == [] then []
    else LooseEdges(es[..|es| - 1]) + (if es[|es| - 1].linkFaces == {} then [es[|es| - 1]] else [])
  }

  /** The triangulation step; a raise aborts the preprocessing. */
  function TriangulateStep(bm: BMesh, k: Kernels): Result<(BMesh, seq<Fix>)> {
    var nonTris := LargeFaces(bm.faces);
    if nonTris == [] then Ok((bm, []))
    else match k.triangulate(bm, nonTris)
      case Err(e) => Err(e)
      case Ok((b, n)) => Ok((b, if n > 0 then [Triangulated(|nonTris|)] else []))
  }

  /** Dissolving degenerate edges; a raise is ignored and changes nothing. */
  function DegenerateStep(bm: BMesh, k: Kernels): (BMesh, seq<Fix>) {
    match k.dissolveDegenerate(bm)
    case Err(_) => (bm, [])
    case Ok((b, n)) => (b, if n > 0 then [RemovedDegenerateEdges(n)] else [])
  }

  /** Deleting loose vertices, then loose edges, both found before either deletion; a raise
      aborts the preprocessing. */
  function LooseStep(bm: BMesh, k: Kernels): Result<(BMesh, seq<Fix>)> {
    var lv, le := LooseVerts(bm.verts), LooseEdges(bm.edges);
    var r1 := if lv == [] then Ok((bm, [])) else
                match k.deleteVerts(bm, lv)
                case Err(e) => Err(e)
                case Ok(b) => Ok((b, [RemovedLooseVerts(|lv|)]));
    if r1.Err? then r1
    else if le == [] then r1
    else match k.deleteEdges(r1.value.0, le)
      case Err(e) => Err(e)
      case Ok(b) => Ok((b, r1.value.1 + [RemovedLooseEdges(|le|)]))
  }

  /** Merging vertices closer than 0.0001; a raise is ignored and changes nothing. */
  function DuplicatesStep(bm: BMesh, k: Kernels): (BMesh, seq<Fix>) {
    match k.removeDoubles(bm, "0.0001")
    case Err(_) => (bm, [])
    case Ok((b, n)) => (b, if n > 0 then [MergedDuplicates(n)] else [])
  }

  /** The clean-up sequence: the bmesh it leaves and the fixes it records, or the message of
      the raise that aborted it. */
  function Cleanup(bm: BMesh, k: Kernels): Result<(BMesh, seq<Fix>)> {
    match TriangulateStep(bm, k)
    case Err(e) => Err(e)
    case Ok((b1, f1)) =>
      var (b2, f2) := DegenerateStep(b1, k);
      match LooseStep(b2, k)
      case Err(e) => Err(e)
      case Ok((b3, f3)) =>
        var (b4, f4) := DuplicatesStep(b3, k);
        match k.recalcNormals(b4)
        case Err(e) => Err(e)
        case Ok(b5) => Ok((b5, f1 + f2 + f3 + f4))
  }

  /** A pass that edited `bm` in place and reported `r` did what step result `s` says: the
      same fixes and the bmesh it leaves, or the same raise. */
  predicate Performed(r: Result<seq<Fix>>, bm: BMesh, s: Result<(BMesh, seq<Fix>)>) {
    r.Ok? == s.Ok? && (s.Ok? ==> r.value == s.value.1 && bm == s.value.0) && (s.Err? ==> r.error == s.error)
  }

  method TriangulatePass(buf: BMeshBuffer, k: Kernels) returns (r: Result<seq<Fix>>)
    modifies buf
    ensures Performed(r, buf.bm, TriangulateStep(old(buf.bm), k))
  {
    var nonTris := LargeFaces(buf.bm.faces);
    if nonTris == [] {
      return Ok([]);
    }
    var t := k.triangulate(buf.bm, nonTris);
    if t.Err? {
      return Err(t.error);
    }
    buf.bm := t.value.0;
    if t.value.1 > 0 {
      return Ok([Triangulated(|nonTris|)]);
    }
    return Ok([]);
  }

  method DegeneratePass(buf: BMeshBuffer, k: Kernels) returns (fixes: seq<Fix>)
    modifies buf
    ensures (buf.bm, fixes) == DegenerateStep(old(buf.bm), k)
  {
    fixes := [];
    var dg := k.dissolveDegenerate(buf.bm);
    if dg.Ok? {
      buf.bm := dg.value.0;
      if dg.value.1 > 0 {
        fixes := [RemovedDegenerateEdges(dg.value.1)];
      }
    }
  }

  method LoosePass(buf: BMeshBuffer, k: Kernels) returns (r: Result<seq<Fix>>)
    modifies buf
    ensures Performed(r, buf.bm, LooseStep(old(buf.bm), k))
  {
    var fixes: seq<Fix> := [];
    var lv, le := LooseVerts(buf.bm.verts), LooseEdges(buf.bm.edges);
    if lv != [] {
      var d := k.deleteVerts(buf.bm, lv);
      if d.Err? {
        return Err(d.error);
      }
      buf.bm := d.value;
      fixes := [RemovedLooseVerts(|lv|)];
    }
    if le != [] {
      var d := k.deleteEdges(buf.bm, le);
      if d.Err? {
        return Err(d.error);
      }
      buf.bm := d.value;
      fixes := fixes + [RemovedLooseEdges(|le|)];
    }
    return Ok(fixes);
  }

  method DuplicatesPass(buf: BMeshBuffer, k: Kernels) returns (fixes: seq<Fix>)
    modifies buf
    ensures (buf.bm, fixes) == DuplicatesStep(old(buf.bm), k)
  {
    fixes := [];
    var rd := k.removeDoubles(buf.bm, "0.0001");
    if rd.Ok? {
      buf.bm := rd.value.0;
      if rd.value.1 > 0 {
        fixes := [MergedDuplicates(rd.value.1)];
      }
    }
  }

  /** The clean-up passes, editing the bmesh in place. On success the bmesh is the one the
      clean-up sequence leaves and the fixes are its fixes; a raise is reported with its
      message and leaves the bmesh part-edited. */
  method CleanupPasses(buf: BMeshBuffer, k: Kernels) returns (r: Result<seq<Fix>>)
    modifies buf
    ensures Performed(r, buf.bm, Cleanup(old(buf.bm), k))
  {
    var t := TriangulatePass(buf, k);
    if t.Err? {
      return Err(t.error);
    }
    var f2 := DegeneratePass(buf, k);
    var l := LoosePass(buf, k);
    if l.Err? {
      return Err(l.error);
    }
    var f4 := DuplicatesPass(buf, k);
    var n := k.recalcNormals(buf.bm);
    if n.Err? {
      return Err(n.error);
    }
    buf.bm := n.value;
    return Ok(t.value + f2 + l.value + f4);
  }

  /** `(success, info)` of a preprocessing run: the joined fixes, or the raise's message
      after "preprocessing failed: ". */
  function Report(c: Result<(BMesh, seq<Fix>)>): (r: (bool, string))
    ensures r.0 <==> c.Ok?
    ensures c.Ok? ==> (r.1 == "no issues" <==> c.value.1 == [])
    ensures c.Err? ==> StartsWith(r.1, "preprocessing failed: ")
  {
    if c.Ok? then (true, Info(c.value.1)) else (false, "preprocessing failed: " + c.error)
  }

  /** The part of the scene the decimation passes touch: selection, active object, viewport
      hidden flags and mesh geometry. */
  datatype ViewMeshes = ViewMeshes(selected: seq<string>, active: Option<string>, hidden: set<string>,
                                   meshes: map<string, PolyMesh>)

  function StateOf(view: ViewState, vis: Visibility, store: GeometryStore): ViewMeshes
    reads view, vis, store
  {
    ViewMeshes(view.selected, view.active, vis.hidden, store.meshes)
  }

  /** The modifier `decimate_with_modifier` adds, then applies or removes. */
  const TempDecimate := Modifier("TempDecimate", DecimateModifier, 0, 0)
}
