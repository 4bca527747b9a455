/** Unused material-slot removal of `processing/material_cleaner.py`. A slot is used when
    some face of the mesh carries its index; the unused ones are popped from the mesh's
    material list from the highest index down, so the used slots stay in their order. */
module MaterialCleaner {
  import opened Wrappers
  import opened Strings
  import opened Scene

  predicate IsMeshWithData(o: Obj) {
    o.kind == Mesh && o.data.Some?
  }

  /** `get_used_material_indices`: the material indices the faces carry; none for an object
      that is not a mesh with data. `faces` holds each face's material index. */
  function UsedIndices(o: Obj, faces: seq<int>): (r: set<int>)
    ensures !IsMeshWithData(o) ==> r == {}
    ensures IsMeshWithData(o) ==> forall k :: k in r <==> k in faces
  {
    if !IsMeshWithData(o) then {} else set k | k in faces
  }

  /** One entry of the usage lists: a slot index and its material's name. */
  datatype MaterialInfo = MaterialInfo(index: nat, name: string)

  function SlotName(slot: Option<string>): string {
    match slot
    case Some(m) => m
    case None => "<empty>"
  }

  /** The slots from `from` on, split into used and unused entries in ascending index order. */
  function Partition(slots: seq<Option<string>>, used: set<int>, from: nat): (r: (seq<MaterialInfo>, seq<MaterialInfo>))
    decreases |slots| - from
  {
    if from >= |slots| then ([], [])
    else
      var (u, n) := Partition(slots, used, from + 1);
      var info := MaterialInfo(from, SlotName(slots[from]));
      if from in used then ([info] + u, n) else (u, [info] + n)
  }

  predicate Ascending(infos: seq<MaterialInfo>) {
    forall i, j :: 0 <= i < j < |infos| ==> infos[i].index < infos[j].index
  }

  /** Each slot index from `from` on is listed once: the used list holds the indices the
      faces carry, the unused list the others, each entry named after its slot. */
  lemma {:induction false} PartitionEntries(slots: seq<Option<string>>, used: set<int>, from: nat)
    ensures var (u, n) := Partition(slots, used, from);
            |u| + |n| == (if from <= |slots| then |slots| - from else 0)
            && (forall j :: 0 <= j < |u| ==>
                  from <= u[j].index < |slots| && u[j].index in used && u[j].name == SlotName(slots[u[j].index]))
            && (forall j :: 0 <= j < |n| ==>
                  from <= n[j].index < |slots| && n[j].index !in used && n[j].name == SlotName(slots[n[j].index]))
    decreases |slots| - from
  {
    if from < |slots| {
      PartitionEntries(slots, used, from + 1);
    }
  }

  /** Both lists are in ascending index order. */
  lemma {:induction false} PartitionAscending(slots: seq<Option<string>>, used: set<int>, from: nat)
    ensures Ascending(Partition(slots, used, from).0) && Ascending(Partition(slots, used, from).1)
    decreases |slots| - from
  {
    if from < |slots| {
      PartitionAscending(slots, used, from + 1);
      PartitionEntries(slots, used, from + 1);
    }
  }

  /** The slot indices a list of entries names. */
  function Indices(infos: seq<MaterialInfo>): set<int> {
    set info | info in infos :: info.index
  }

  /** No slot index is left out of both lists. */
  lemma {:induction false} PartitionCovers(slots: seq<Option<string>>, used: set<int>, from: nat)
    ensures forall k :: from <= k < |slots| && k in used ==> k in Indices(Partition(slots, used, from).0)
    ensures forall k :: from <= k < |slots| && k !in used ==> k in Indices(Partition(slots, used, from).1)
    decreases |slots| - from
  {
    if from < |slots| {
      PartitionCovers(slots, used, from + 1);
      var info := MaterialInfo(from, SlotName(slots[from]));
      var (u, n) := Partition(slots, used, from + 1);
      assert info in [info] + u && info in [info] + n;
      assert Indices([info] + u) == {from} + Indices(u);
      assert Indices([info] + n) == {from} + Indices(n);
    }
  }

  /** The result dictionary of `analyze_material_usage`. */
  datatype Usage = Usage(totalMaterials: nat, used: seq<MaterialInfo>, unused: seq<MaterialInfo>, totalFaces: nat)

  /** `analyze_material_usage` of an object whose material slots are `slots`. */
  function AnalyzeMaterialUsage(o: Obj, slots: seq<Option<string>>, faces: seq<int>): (r: Usage)
    ensures !IsMeshWithData(o) ==> r == Usage(0, [], [], 0)
    ensures IsMeshWithData(o) ==>
              r.totalMaterials == |slots| && r.totalFaces == |faces|
              && (r.used, r.unused) == Partition(slots, UsedIndices(o, faces), 0)
  {
    if !IsMeshWithData(o) then Usage(0, [], [], 0)
    else
      var (u, n) := Partition(slots, UsedIndices(o, faces), 0);
      Usage(|slots|, u, n, |faces|)
  }

  /** The slots from `from` on whose index is used, in order. */
  function KeepFrom(slots: seq<Option<string>>, used: set<int>, from: nat): seq<Option<string>>
    decreases |slots| - from
  {
    if from >= |slots| then []
    else (if from in used then [slots[from]] else []) + KeepFrom(slots, used, from + 1)
  }

  /** A run of used slots is kept whole. */
  lemma {:induction false} KeepRun(slots: seq<Option<string>>, used: set<int>, a: nat, b: nat)
    requires a <= b <= |slots|
    requires forall k :: a <= k < b ==> k in used
    ensures KeepFrom(slots, used, a) == slots[a..b] + KeepFrom(slots, used, b)
    decreases b - a
  {
    if a < b {
      KeepRun(slots, used, a + 1, b);
      assert a in used;
      calc {
        KeepFrom(slots, used, a);
        [slots[a]] + KeepFrom(slots, used, a + 1);
        [slots[a]] + (slots[a + 1..b] + KeepFrom(slots, used, b));
        ([slots[a]] + slots[a + 1..b]) + KeepFrom(slots, used, b);
        { assert [slots[a]] + slots[a + 1..b] == slots[a..b]; }
        slots[a..b] + KeepFrom(slots, used, b);
      }
    }
  }

  /** The kept slots are those of the used list, in its order. */
  lemma {:induction false} KeepMatchesUsed(slots: seq<Option<string>>, used: set<int>, from: nat)
    ensures var u := Partition(slots, used, from).0;
            |KeepFrom(slots, used, from)| == |u|
            && forall j :: 0 <= j < |u| ==> u[j].index < |slots| && KeepFrom(slots, used, from)[j] == slots[u[j].index]
    decreases |slots| - from
  {
    if from < |slots| {
      KeepMatchesUsed(slots, used, from + 1);
      var u := Partition(slots, used, from).0;
      var u1 := Partition(slots, used, from + 1).0;
      var keep := KeepFrom(slots, used, from);
      var keep1 := KeepFrom(slots, used, from + 1);
      if from in used {
        assert u == [MaterialInfo(from, SlotName(slots[from]))] + u1;
        assert keep == [slots[from]] + keep1;
        forall j | 0 <= j < |u| ensures u[j].index < |slots| && keep[j] == slots[u[j].index] {
          if j > 0 {
            assert u[j] == u1[j - 1] && keep[j] == keep1[j - 1];
          }
        }
      } else {
        assert u == u1 && keep == keep1;
      }
    }
  }

  /** `obj.data.materials`, the mesh's material list that removal pops from in place. */
  class SlotList {
    var slots: seq<Option<string>>

    constructor(slots: seq<Option<string>>)
      ensures this.slots == slots
    {
      this.slots := slots;
    }

    /** `materials.pop(index=...)`. */
    method Pop(index: nat)
      requires index < |slots|
      modifies this
      ensures slots == old(slots[..index] + slots[index + 1..])
    {
      slots := slots[..index] + slots[index + 1..];
    }
  }

  /** The result dictionary of `remove_unused_materials`. */
  datatype Removal = Removal(success: bool, removedCount: nat, removedMaterials: seq<string>, keptCount: nat,
                             message: string)

  function Names(infos: seq<MaterialInfo>): (r: seq<string>)
    ensures |r| == |infos| && forall j :: 0 <= j < |infos| ==> r[j] == infos[j].name
  {
    seq(|infos|, j requires 0 <= j < |infos| => infos[j].name)
  }

  /** The result `remove_unused_materials` returns for an object with these slots and faces. */
  function RemovalOf(o: Obj, slots: seq<Option<string>>, faces: seq<int>, dryRun: bool): Removal {
    if !IsMeshWithData(o) then Removal(false, 0, [], 0, "Object '" + o.name + "' is not a mesh")
    else
      var usage := AnalyzeMaterialUsage(o, slots, faces);
      var removed := Names(usage.unused);
      if usage.unused == [] then
        Removal(true, 0, [], usage.totalMaterials, "All " + NatToString(usage.totalMaterials) + " materials are in use")
      else if dryRun then
        Removal(true, |removed|, removed, |usage.used|, "DRY RUN: Would remove " + NatToString(|removed|) + " unused materials")
      else
        Removal(true, |removed|, removed, |usage.used|,
                "Removed " + NatToString(|removed|) + " unused materials, kept " + NatToString(|usage.used|))
  }

  /** The slots `remove_unused_materials` leaves: the used ones in their order on a real run of a
      mesh, the slots as they were otherwise. */
  function SlotsAfter(o: Obj, slots: seq<Option<string>>, faces: seq<int>, dryRun: bool): seq<Option<string>> {
    if IsMeshWithData(o) && !dryRun then KeepFrom(slots, UsedIndices(o, faces), 0) else slots
  }

  /** `remove_unused_materials`: a non-mesh fails untouched, a fully used or dry-run object keeps
      its slots, and otherwise exactly the used slots remain in their order. */
  method RemoveUnusedMaterials(o: Obj, mats: SlotList, faces: seq<int>, dryRun: bool) returns (r: Removal)
    modifies mats
    ensures r == RemovalOf(o, old(mats.slots), faces, dryRun) && mats.slots == SlotsAfter(o, old(mats.slots), faces, dryRun)
    ensures !IsMeshWithData(o) ==> !r.success && r.removedCount == 0 && mats.slots == old(mats.slots)
    ensures IsMeshWithData(o) ==>
              var usage := AnalyzeMaterialUsage(o, old(mats.slots), faces);
              r.success
              && r.removedMaterials == Names(usage.unused) && r.removedCount == |usage.unused|
              && r.keptCount == |usage.used| && r.removedCount + r.keptCount == usage.totalMaterials
              && (dryRun || usage.unused == [] ==> mats.slots == old(mats.slots))
              && (!dryRun ==> mats.slots == KeepFrom(old(mats.slots), UsedIndices(o, faces), 0))
  {
    if !IsMeshWithData(o) {
      return Removal(false, 0, [], 0, "Object '" + o.name + "' is not a mesh");
    }
    var s := mats.slots;
    var used := UsedIndices(o, faces);
    var usage := AnalyzeMaterialUsage(o, s, faces);
    PartitionEntries(s, used, 0);
    if usage.unused == [] {
      PartitionCovers(s, used, 0);
      KeepRun(s, used, 0, |s|);
      return Removal(true, 0, [], usage.totalMaterials, "All " + NatToString(usage.totalMaterials) + " materials are in use");
    }
    var removed := Names(usage.unused);
    var kept := |usage.used|;
    if dryRun {
      return Removal(true, |removed|, removed, kept, "DRY RUN: Would remove " + NatToString(|removed|) + " unused materials");
    }
    PartitionAscending(s, used, 0);
    PartitionCovers(s, used, 0);
    PopUnused(mats, used, usage.unused);
    r := Removal(true, |removed|, removed, kept,
                 "Removed " + NatToString(|removed|) + " unused materials, kept " + NatToString(kept));
  }

  /** The descending pop loop of `remove_unused_materials`: `unused` lists, in ascending order,
      exactly the slot indices outside `used`; popping them from the highest down leaves the
      used slots in their order. */
  method PopUnused(mats: SlotList, used: set<int>, unused: seq<MaterialInfo>)
    requires unused != [] && Ascending(unused)
    requires forall j :: 0 <= j < |unused| ==> unused[j].index < |mats.slots| && unused[j].index !in used
    requires forall k :: 0 <= k < |mats.slots| && k !in used ==> k in Indices(unused)
    modifies mats
    ensures mats.slots == KeepFrom(old(mats.slots), used, 0)
  {
    var s := mats.slots;
    var j := |unused|;
    var p := |s|;
    while j > 0
      invariant 0 <= j <= |unused|
      invariant p == if j == |unused| then |s| else unused[j].index
      invariant p <= |s| && mats.slots == s[..p] + KeepFrom(s, used, p)
    {
      var q := unused[j - 1].index;
      GapUsed(unused, used, |s|, j);
      PopStep(s, used, q, p, mats.slots);
      mats.Pop(q);
      j, p := j - 1, q;
    }
    GapUsed(unused, used, |s|, 0);
    KeepRun(s, used, 0, p);
  }

  /** Popping the unused slot `q` below a run of used slots up to `p` extends the kept suffix. */
  lemma PopStep(s: seq<Option<string>>, used: set<int>, q: nat, p: nat, cur: seq<Option<string>>)
    requires q < p <= |s| && q !in used
    requires forall k :: q < k < p ==> k in used
    requires cur == s[..p] + KeepFrom(s, used, p)
    ensures cur[..q] + cur[q + 1..] == s[..q] + KeepFrom(s, used, q)
  {
    KeepRun(s, used, q + 1, p);
    assert cur[..q] == s[..q];
    assert cur[q + 1..] == s[q + 1..p] + KeepFrom(s, used, p);
  }

  /** Between two consecutive entries of the unused list (or before the first, or after the
      last) every slot index is used. */
  lemma GapUsed(unused: seq<MaterialInfo>, used: set<int>, size: nat, j: nat)
    requires unused != [] && j <= |unused| && Ascending(unused)
    requires forall t :: 0 <= t < |unused| ==> unused[t].index < size
    requires forall k :: 0 <= k < size && k !in used ==> k in Indices(unused)
    ensures var lo: int := if j == 0 then -1 else unused[j - 1].index;
            var hi := if j == |unused| then size else unused[j].index;
            forall k :: lo < k < hi ==> k in used
  {
    var lo: int := if j == 0 then -1 else unused[j - 1].index;
    var hi := if j == |unused| then size else unused[j].index;
    forall k | lo < k < hi ensures k in used {
      forall t | 0 <= t < |unused| ensures unused[t].index != k {
        if t < j {
          assert t == j - 1 || unused[t].index < unused[j - 1].index;
        } else {
          assert t == j || unused[j].index < unused[t].index;
        }
      }
      assert k !in Indices(unused);
    }
  }

  /** A per-object result of the batch: the object's name and its removal result. */
  datatype ObjectResult = ObjectResult(objectName: string, result: Removal)

  /** The result dictionary of `clean_materials_batch`. */
  datatype Batch = Batch(totalObjects: nat, cleanedObjects: nat, totalRemoved: nat, results: seq<ObjectResult>)

  function TotalRemoved(results: seq<ObjectResult>): nat
    decreases |results|
  {
    if results == [] then 0 else TotalRemoved(results[..|results| - 1]) + results[|results| - 1].result.removedCount
  }

  function Cleaned(results: seq<ObjectResult>): nat
    decreases |results|
  {
    if results == [] then 0
    else Cleaned(results[..|results| - 1]) + (if results[|results| - 1].result.removedCount > 0 then 1 else 0)
  }

  /** The names of the mesh objects of a list, in order. */
  function MeshNames(objects: seq<Obj>): seq<string>
    decreases |objects|
  {
    if objects == [] then []
    else MeshNames(objects[..|objects| - 1]) + (if objects[|objects| - 1].kind == Mesh then [objects[|objects| - 1].name] else [])
  }

  /** The positions of the mesh objects of a list, in order. */
  function MeshIndices(objects: seq<Obj>): (r: seq<nat>)
    ensures forall j :: 0 <= j < |r| ==> r[j] < |objects| && objects[r[j]].kind == Mesh
    decreases |objects|
  {
    if objects == [] then []
    else
      var init := objects[..|objects| - 1];
      assert forall k :: 0 <= k < |init| ==> init[k] == objects[k];
      MeshIndices(init) + (if objects[|objects| - 1].kind == Mesh then [|objects| - 1] else [])
  }

  function ResultNames(results: seq<ObjectResult>): (r: seq<string>)
    ensures |r| == |results| && forall j :: 0 <= j < |results| ==> r[j] == results[j].objectName
  {
    seq(|results|, j requires 0 <= j < |results| => results[j].objectName)
  }

  /** No other object of the batch has object `k`'s material list. */
  predicate Unshared(mats: seq<SlotList>, k: nat)
    requires k < |mats|
  {
    forall j :: 0 <= j < |mats| && j != k ==> mats[j] != mats[k]
  }

  /** The current slots of each material list. */
  ghost function SlotsOf(mats: seq<SlotList>): (r: seq<seq<Option<string>>>)
    reads set k | 0 <= k < |mats| :: mats[k]
    ensures |r| == |mats| && forall k :: 0 <= k < |mats| ==> r[k] == mats[k].slots
    decreases |mats|
  {
    if mats == [] then [] else SlotsOf(mats[..|mats| - 1]) + [mats[|mats| - 1].slots]
  }

  /** The batch result after the first `i` objects, `olds` holding the lists' slots before the
      batch. */
  predicate ResultsSoFar(objects: seq<Obj>, mats: seq<SlotList>, faces: seq<seq<int>>, dryRun: bool, i: nat, b: Batch,
                         olds: seq<seq<Option<string>>>)
    requires i <= |objects| && |mats| == |objects| && |faces| == |objects| && |olds| == |objects|
  {
    && b.totalObjects == |objects|
    && ResultNames(b.results) == MeshNames(objects[..i]) && |b.results| == |MeshIndices(objects[..i])|
    && b.totalRemoved == TotalRemoved(b.results) && b.cleanedObjects == Cleaned(b.results)
    && b.cleanedObjects <= |b.results|
    && forall j :: 0 <= j < |b.results| && Unshared(mats, MeshIndices(objects[..i])[j]) ==>
         var k := MeshIndices(objects[..i])[j];
         b.results[j].result == RemovalOf(objects[k], olds[k], faces[k], dryRun)
  }

  /** The lists after the first `i` objects: an unshared list of a mesh among them holds what
      `remove_unused_materials` left, every other unshared list its old slots. */
  ghost predicate SlotsSoFar(objects: seq<Obj>, mats: seq<SlotList>, faces: seq<seq<int>>, dryRun: bool, i: nat,
                             olds: seq<seq<Option<string>>>)
    requires |mats| == |objects| && |faces| == |objects| && |olds| == |objects|
    reads set k | 0 <= k < |mats| :: mats[k]
  {
    forall k :: 0 <= k < |objects| && Unshared(mats, k) ==>
      mats[k].slots == if k < i && objects[k].kind == Mesh then SlotsAfter(objects[k], olds[k], faces[k], dryRun) else olds[k]
  }

  /** `clean_materials_batch`: every object is counted, only meshes get a result, in order, and
      the totals add up the results. `mats[k]` and `faces[k]` are object k's material list and
      face material indices; objects sharing a mesh share its list. For an object whose list is
      its own, its result is `remove_unused_materials`'s on its slots, and its new slots are the
      ones that call leaves, or its old ones when it is not a mesh. */
  method CleanMaterialsBatch(objects: seq<Obj>, mats: seq<SlotList>, faces: seq<seq<int>>, dryRun: bool)
    returns (b: Batch)
    requires |mats| == |objects| && |faces| == |objects|
    modifies set k | 0 <= k < |mats| :: mats[k]
    ensures b.totalObjects == |objects|
    ensures ResultNames(b.results) == MeshNames(objects) && |b.results| == |MeshIndices(objects)|
    ensures b.totalRemoved == TotalRemoved(b.results) && b.cleanedObjects == Cleaned(b.results)
    ensures b.cleanedObjects <= |b.results|
    ensures forall j :: 0 <= j < |b.results| && Unshared(mats, MeshIndices(objects)[j]) ==>
              var k := MeshIndices(objects)[j];
              b.results[j].result == RemovalOf(objects[k], old(mats[k].slots), faces[k], dryRun)
    ensures forall k :: 0 <= k < |objects| && Unshared(mats, k) ==>
              mats[k].slots == if objects[k].kind == Mesh then SlotsAfter(objects[k], old(mats[k].slots), faces[k], dryRun)
                               else old(mats[k].slots)
  {
    ghost var olds := SlotsOf(mats);
    b := Batch(|objects|, 0, 0, []);
    var i := 0;
    while i < |objects|
      invariant 0 <= i <= |objects|
      invariant ResultsSoFar(objects, mats, faces, dryRun, i, b, olds)
      invariant SlotsSoFar(objects, mats, faces, dryRun, i, olds)
    {
      b := CleanAt(objects, mats, faces, dryRun, i, b, olds);
      i := i + 1;
    }
    assert objects[..i] == objects;
  }

  /** One iteration of `clean_materials_batch`, at object `i`. */
  method CleanAt(objects: seq<Obj>, mats: seq<SlotList>, faces: seq<seq<int>>, dryRun: bool, i: nat, b: Batch,
                 ghost olds: seq<seq<Option<string>>>)
    returns (b': Batch)
    requires |mats| == |objects| && |faces| == |objects| && |olds| == |objects| && i < |objects|
    requires ResultsSoFar(objects, mats, faces, dryRun, i, b, olds)
    requires SlotsSoFar(objects, mats, faces, dryRun, i, olds)
    modifies mats[i]
    ensures ResultsSoFar(objects, mats, faces, dryRun, i + 1, b', olds)
    ensures SlotsSoFar(objects, mats, faces, dryRun, i + 1, olds)
  {
    if objects[i].kind == Mesh {
      assert Unshared(mats, i) ==> mats[i].slots == olds[i];
      var r := RemoveUnusedMaterials(objects[i], mats[i], faces[i], dryRun);
      ResultsStep(objects, mats, faces, dryRun, i, b, olds, r);
      b' := Record(b, objects[i].name, r);
    } else {
      ResultsSkip(objects, mats, faces, dryRun, i, b, olds);
      b' := b;
    }
    forall k | 0 <= k < |objects| && Unshared(mats, k)
      ensures mats[k].slots == if k < i + 1 && objects[k].kind == Mesh then SlotsAfter(objects[k], olds[k], faces[k], dryRun) else olds[k]
    {
      if k != i {
        assert mats[k] != mats[i];
      }
    }
  }

  /** The batch after one more result. */
  function Record(b: Batch, name: string, r: Removal): Batch {
    b.(results := b.results + [ObjectResult(name, r)],
       cleanedObjects := b.cleanedObjects + (if r.removedCount > 0 then 1 else 0),
       totalRemoved := b.totalRemoved + r.removedCount)
  }

  /** A mesh object adds its result at the end. */
  lemma ResultsStep(objects: seq<Obj>, mats: seq<SlotList>, faces: seq<seq<int>>, dryRun: bool, i: nat, b: Batch,
                    olds: seq<seq<Option<string>>>, r: Removal)
    requires |mats| == |objects| && |faces| == |objects| && |olds| == |objects| && i < |objects|
    requires ResultsSoFar(objects, mats, faces, dryRun, i, b, olds)
    requires objects[i].kind == Mesh && (Unshared(mats, i) ==> r == RemovalOf(objects[i], olds[i], faces[i], dryRun))
    ensures ResultsSoFar(objects, mats, faces, dryRun, i + 1, Record(b, objects[i].name, r), olds)
  {
    assert objects[..i + 1][..i] == objects[..i];
    var results := Record(b, objects[i].name, r).results;
    assert results[..|results| - 1] == b.results;
    assert ResultNames(results) == ResultNames(b.results) + [objects[i].name];
    assert MeshIndices(objects[..i + 1]) == MeshIndices(objects[..i]) + [i];
  }

  /** Any other object adds nothing. */
  lemma ResultsSkip(objects: seq<Obj>, mats: seq<SlotList>, faces: seq<seq<int>>, dryRun: bool, i: nat, b: Batch,
                    olds: seq<seq<Option<string>>>)
    requires |mats| == |objects| && |faces| == |objects| && |olds| == |objects| && i < |objects|
    requires ResultsSoFar(objects, mats, faces, dryRun, i, b, olds)
    requires objects[i].kind != Mesh
    ensures ResultsSoFar(objects, mats, faces, dryRun, i + 1, b, olds)
  {
    assert objects[..i + 1][..i] == objects[..i];
    assert MeshIndices(objects[..i + 1]) == MeshIndices(objects[..i]);
  }
}
