/** Mesh geometry as the reduction engine sees it. A Blender mesh is held as its arrays (vertex
    positions, each polygon's first loop and loop count, each loop's vertex). The trimesh
    bridges fan-triangulate its polygons when they read it and write an all-triangle layout
    back. The Decimate modifier's ratio is clamped into [0, 1] everywhere. */
module Geometry {
  import opened Wrappers
  import opened Scene

  datatype Vec3 = Vec3(x: real, y: real, z: real)

  /** A row of a trimesh face array: three vertex indices. */
  datatype Tri = Tri(a: nat, b: nat, c: nat)

  /** A trimesh mesh: vertex positions and triangles. */
  datatype TriMesh = TriMesh(vertices: seq<Vec3>, faces: seq<Tri>)

  /** `mesh.vertices[].co`, `mesh.polygons[].loop_start`, `mesh.polygons[].loop_total` and
      `mesh.loops[].vertex_index`. */
  datatype MeshArrays = MeshArrays(co: seq<Vec3>, loopStart: seq<nat>, loopTotal: seq<nat>, loopVerts: seq<nat>)

  /** Every polygon has a loop count, and its loops lie inside the loop array. */
  predicate WellFormed(m: MeshArrays) {
    |m.loopStart| == |m.loopTotal|
    && forall i :: 0 <= i < |m.loopStart| ==> m.loopStart[i] + m.loopTotal[i] <= |m.loopVerts|
  }

  /** The geometry of a Blender mesh datablock. */
  type PolyMesh = m: MeshArrays | WellFormed(m) witness MeshArrays([], [], [], [])

  /** `len(mesh.polygons)`. */
  function FaceCount(m: PolyMesh): nat {
    |m.loopStart|
  }

  /** `polygon.vertices` of polygon `i`: the vertices of its loops. */
  function PolygonVerts(m: PolyMesh, i: nat): seq<nat>
    requires i < |m.loopStart|
  {
    m.loopVerts[m.loopStart[i]..m.loopStart[i] + m.loopTotal[i]]
  }

  /** The polygons' vertex lists, in order. */
  function Polygons(m: PolyMesh): (r: seq<seq<nat>>)
    ensures |r| == FaceCount(m)
  {
    seq(|m.loopStart|, i requires 0 <= i < |m.loopStart| => PolygonVerts(m, i))
  }

  /** The fan triangulation of one polygon from its first vertex. A triangle passes unchanged;
      fewer than three vertices give nothing. */
  function Fan(p: seq<nat>): (r: seq<Tri>)
    ensures |r| == if |p| >= 3 then |p| - 2 else 0
    ensures |p| == 3 ==> r == [Tri(p[0], p[1], p[2])]
    ensures forall t :: t in r ==> t.a in p && t.b in p && t.c in p
    decreases |p|
  {
    if |p| < 3 then [] else Fan(p[..|p| - 1]) + [Tri(p[0], p[|p| - 2], p[|p| - 1])]
  }

  /** The triangles of an n-gon are (v0, vi, vi+1) for i = 1 .. n-2, in that order. */
  lemma {:induction false} FanShape(p: seq<nat>)
    ensures forall i :: 0 <= i < |Fan(p)| ==> Fan(p)[i] == Tri(p[0], p[i + 1], p[i + 2])
    decreases |p|
  {
    if |p| >= 3 {
      var q := p[..|p| - 1];
      FanShape(q);
      assert Fan(p) == Fan(q) + [Tri(p[0], p[|p| - 2], p[|p| - 1])];
      forall i | 0 <= i < |Fan(p)|
        ensures Fan(p)[i] == Tri(p[0], p[i + 1], p[i + 2])
      {
        if i < |Fan(q)| {
          assert Fan(p)[i] == Fan(q)[i];
        }
      }
    }
  }

  /** The loop form of the fan: `[v0, vi, vi+1]` for i = 1 .. n-2, appended in order. */
  method FanPolygon(verts: seq<nat>) returns (tris: seq<Tri>)
    ensures tris == Fan(verts)
  {
    tris := [];
    if |verts| < 3 {
      return;
    }
    var i := 1;
    while i < |verts| - 1
      invariant 1 <= i <= |verts| - 1
      invariant tris == Fan(verts[..i + 1])
    {
      assert verts[..i + 2][..i + 1] == verts[..i + 1];
      tris := tris + [Tri(verts[0], verts[i], verts[i + 1])];
      i := i + 1;
    }
    assert verts[..i + 1] == verts;
  }

  /** The triangle count of a fan triangulation: n - 2 per polygon of n >= 3 vertices. */
  function TriSum(ps: seq<seq<nat>>): nat
    decreases |ps|
  {
    if ps == [] then 0
    else TriSum(ps[..|ps| - 1]) + (if |ps[|ps| - 1]| >= 3 then |ps[|ps| - 1]| - 2 else 0)
  }

  /** All polygons fan-triangulated, in polygon order. */
  function FanAll(ps: seq<seq<nat>>): (r: seq<Tri>)
    ensures |r| == TriSum(ps)
    decreases |ps|
  {
    if ps == [] then [] else FanAll(ps[..|ps| - 1]) + Fan(ps[|ps| - 1])
  }

  /** Every polygon is a triangle. */
  predicate AllTris(ps: seq<seq<nat>>) {
    forall i :: 0 <= i < |ps| ==> |ps[i]| == 3
  }

  /** The triangles of an all-triangle polygon list, read as an (n, 3) array. */
  function TriArray(ps: seq<seq<nat>>): (r: seq<Tri>)
    requires AllTris(ps)
  {
    seq(|ps|, i requires 0 <= i < |ps| => Tri(ps[i][0], ps[i][1], ps[i][2]))
  }

  /** Reading an all-triangle mesh as an (n, 3) array gives the same rows as the fan. */
  lemma {:induction false} TriArrayIsFan(ps: seq<seq<nat>>)
    requires AllTris(ps)
    ensures TriArray(ps) == FanAll(ps)
    decreases |ps|
  {
    if ps != [] {
      var q := ps[..|ps| - 1];
      assert AllTris(q) by {
        forall i | 0 <= i < |q| ensures |q[i]| == 3 {
          assert q[i] == ps[i];
        }
      }
      TriArrayIsFan(q);
      assert TriArray(ps) == TriArray(q) + [Tri(ps[|ps| - 1][0], ps[|ps| - 1][1], ps[|ps| - 1][2])];
    }
  }

  /** `faces.flatten()`: the rows of a face array, one after another. */
  function Ravel(f: seq<Tri>): (r: seq<nat>)
    ensures |r| == 3 * |f|
    decreases |f|
  {
    if f == [] then [] else Ravel(f[..|f| - 1]) + [f[|f| - 1].a, f[|f| - 1].b, f[|f| - 1].c]
  }

  /** Row `i` of a face array sits at positions 3i .. 3i+2 of the flattened array. */
  lemma {:induction false} RavelRow(f: seq<Tri>, i: nat)
    requires i < |f|
    ensures Ravel(f)[3 * i..3 * i + 3] == [f[i].a, f[i].b, f[i].c]
    decreases |f|
  {
    var q := f[..|f| - 1];
    assert Ravel(f) == Ravel(q) + [f[|f| - 1].a, f[|f| - 1].b, f[|f| - 1].c];
    if i < |q| {
      RavelRow(q, i);
      assert Ravel(f)[3 * i..3 * i + 3] == Ravel(q)[3 * i..3 * i + 3];
    }
  }

  /** `np.arange(0, 3 * n, 3)`. */
  function Steps3(n: nat): (r: seq<nat>)
    ensures |r| == n
  {
    seq(n, i requires 0 <= i < n => 3 * i)
  }

  /** `np.full(n, 3)`. */
  function Threes(n: nat): (r: seq<nat>)
    ensures |r| == n
  {
    seq(n, i requires 0 <= i < n => 3)
  }

  /** The mesh the write-back produces from vertex positions and a face array. */
  function Written(vs: seq<Vec3>, f: seq<Tri>): (r: PolyMesh)
  {
    assert forall i :: 0 <= i < |f| ==> Steps3(|f|)[i] + Threes(|f|)[i] <= |Ravel(f)|;
    MeshArrays(vs, Steps3(|f|), Threes(|f|), Ravel(f))
  }

  /** The written mesh has the given vertices, one polygon per row with `loop_start = 3i` and
      `loop_total = 3`, 3 loops per row in all, and each polygon's vertices are its row. */
  lemma WrittenLayout(vs: seq<Vec3>, f: seq<Tri>)
    ensures var m := Written(vs, f);
            m.co == vs && FaceCount(m) == |f| && |m.loopVerts| == 3 * |f|
            && (forall i :: 0 <= i < |f| ==> m.loopStart[i] == 3 * i && m.loopTotal[i] == 3)
            && (forall i :: 0 <= i < |f| ==> PolygonVerts(m, i) == [f[i].a, f[i].b, f[i].c])
  {
    forall i | 0 <= i < |f|
      ensures PolygonVerts(Written(vs, f), i) == [f[i].a, f[i].b, f[i].c]
    {
      RavelRow(f, i);
    }
  }

  /** Reading back a written mesh gives an all-triangle mesh whose fan triangulation is the
      face array that was written. */
  lemma {:induction false} WrittenReadsBack(vs: seq<Vec3>, f: seq<Tri>)
    ensures AllTris(Polygons(Written(vs, f)))
    ensures FanAll(Polygons(Written(vs, f))) == f
  {
    var ps := Polygons(Written(vs, f));
    WrittenLayout(vs, f);
    assert forall i :: 0 <= i < |ps| ==> ps[i] == [f[i].a, f[i].b, f[i].c];
    TriArrayIsFan(ps);
    assert TriArray(ps) == f;
  }

  /** The mesh `clear_geometry` leaves: no vertices and no polygons. A write-back that raises
      after clearing leaves the mesh like this. */
  function Cleared(): (r: PolyMesh)
    ensures r.co == [] && FaceCount(r) == 0 && r.loopVerts == []
  {
    WrittenLayout([], []);
    Written([], [])
  }

  /** A trimesh pass whose raise is caught: the mesh is kept as it was. */
  function KeepOnError(r: Result<TriMesh>, t: TriMesh): (m: TriMesh)
    ensures r.Err? ==> m == t
    ensures r.Ok? ==> m == r.value
  {
    if r.Ok? then r.value else t
  }

  /** `max(0.0, min(1.0, ratio))`. */
  function ClampRatio(ratio: real): (r: real)
    ensures 0.0 <= r <= 1.0
    ensures 0.0 <= ratio <= 1.0 ==> r == ratio
    ensures ratio < 0.0 ==> r == 0.0
    ensures ratio > 1.0 ==> r == 1.0
  {
    if ratio < 0.0 then 0.0 else if ratio > 1.0 then 1.0 else ratio
  }

  /** The geometry of a mesh object: none for another type, a mesh without data, or a data
      name the store does not hold. */
  function GeometryOf(o: Obj, meshes: map<string, PolyMesh>): (r: Option<PolyMesh>)
    ensures r.Some? <==> o.kind == Mesh && o.data.Some? && o.data.value in meshes
    ensures r.Some? ==> r.value == meshes[o.data.value]
  {
    if o.kind == Mesh && o.data.Some? && o.data.value in meshes then Some(meshes[o.data.value]) else None
  }

  /** The geometry of `bpy.data.meshes` by name; the reduction passes rewrite a mesh in place. */
  class GeometryStore {
    var meshes: map<string, PolyMesh>

    constructor(meshes: map<string, PolyMesh>)
      ensures this.meshes == meshes
    {
      this.meshes := meshes;
    }
  }

  /** The modifier stack of the object being decimated (`obj.modifiers`). */
  class ModifierStack {
    var mods: seq<Modifier>

    constructor(mods: seq<Modifier>)
      ensures this.mods == mods
    {
      this.mods := mods;
    }
  }
}
