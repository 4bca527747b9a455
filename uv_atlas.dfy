/** Material-based UV atlasing of `processing/uv_atlas.py`: the primary material of an object
    (the one most of its faces use), the grouping of meshes without UVs by primary material
    with a minimum group size, and the statistics of the atlas pass. Joining, lightmap packing
    and Smart UV Project are kernels whose success is a parameter. */
module UvAtlas {
  import opened Wrappers
  import opened Scene

  // ---------------------------------------------------------------------------------------
  // Primary material

  /** The material of the slot a face's material index names; none for an index past the
      slots or an empty slot. */
  function FaceMaterial(slots: seq<Option<string>>, index: nat): Option<string> {
    if index < |slots| then slots[index] else None
  }

  /** The number of faces whose material is `m`. */
  function UseCount(slots: seq<Option<string>>, faces: seq<nat>, m: string): nat
    decreases |faces|
  {
    if faces == [] then 0
    else UseCount(slots, faces[..|faces| - 1], m) + (if FaceMaterial(slots, faces[|faces| - 1]) == Some(m) then 1 else 0)
  }

  /** The materials the faces use, each once, in the order their first face is met (the key
      order of `material_usage`). */
  function UseOrder(slots: seq<Option<string>>, faces: seq<nat>): seq<string>
    decreases |faces|
  {
    if faces == [] then []
    else
      var prefix := UseOrder(slots, faces[..|faces| - 1]);
      var m := FaceMaterial(slots, faces[|faces| - 1]);
      if m.Some? && m.value !in prefix then prefix + [m.value] else prefix
  }

  predicate Distinct(s: seq<string>) {
    forall i, j :: 0 <= i < j < |s| ==> s[i] != s[j]
  }

  /** The use order lists each used material exactly once. */
  lemma {:induction false} UseOrderMembers(slots: seq<Option<string>>, faces: seq<nat>)
    ensures Distinct(UseOrder(slots, faces))
    ensures forall m :: m in UseOrder(slots, faces) <==> UseCount(slots, faces, m) > 0
    decreases |faces|
  {
    if faces != [] {
      UseOrderMembers(slots, faces[..|faces| - 1]);
    }
  }

  /** The first most-used material of the use order, as `max(material_usage, key=...)`. */
  function ArgMax(order: seq<string>, slots: seq<Option<string>>, faces: seq<nat>): string
    requires order != []
    decreases |order|
  {
    if |order| == 1 then order[0]
    else
      var best := ArgMax(order[..|order| - 1], slots, faces);
      var last := order[|order| - 1];
      if UseCount(slots, faces, last) > UseCount(slots, faces, best) then last else best
  }

  /** No listed material is used more often than the chosen one. */
  lemma {:induction false} ArgMaxBound(order: seq<string>, slots: seq<Option<string>>, faces: seq<nat>)
    requires order != []
    ensures forall x :: x in order ==> UseCount(slots, faces, x) <= UseCount(slots, faces, ArgMax(order, slots, faces))
    decreases |order|
  {
    if |order| == 1 {
      assert forall x :: x in order ==> x == order[0];
    } else {
      var prefix := order[..|order| - 1];
      ArgMaxBound(prefix, slots, faces);
      assert forall x :: x in order ==> x in prefix || x == order[|order| - 1];
    }
  }

  /** The chosen material sits at a position of the list before which every material is used
      strictly less often. */
  lemma {:induction false} ArgMaxEarliest(order: seq<string>, slots: seq<Option<string>>, faces: seq<nat>)
    requires order != []
    ensures var r := ArgMax(order, slots, faces);
            exists k :: 0 <= k < |order| && order[k] == r
              && forall j :: 0 <= j < k ==> UseCount(slots, faces, order[j]) < UseCount(slots, faces, r)
    decreases |order|
  {
    if |order| == 1 {
      assert order[0] == ArgMax(order, slots, faces);
    } else {
      var prefix := order[..|order| - 1];
      ArgMaxEarliest(prefix, slots, faces);
      var best := ArgMax(prefix, slots, faces);
      var last := order[|order| - 1];
      var k :| 0 <= k < |prefix| && prefix[k] == best
               && forall j :: 0 <= j < k ==> UseCount(slots, faces, prefix[j]) < UseCount(slots, faces, best);
      if UseCount(slots, faces, last) > UseCount(slots, faces, best) {
        ArgMaxBound(prefix, slots, faces);
        forall j | 0 <= j < |order| - 1 ensures UseCount(slots, faces, order[j]) < UseCount(slots, faces, last) {
          assert order[j] in prefix;
        }
        assert order[|order| - 1] == last;
      } else {
        assert order[k] == best;
        assert forall j :: 0 <= j < k ==> order[j] == prefix[j];
      }
    }
  }

  /** The result is in the list, no listed material is used more, and every material listed
      before it is used strictly less (ties go to the earliest). */
  lemma ArgMaxFacts(order: seq<string>, slots: seq<Option<string>>, faces: seq<nat>)
    requires order != []
    ensures var r := ArgMax(order, slots, faces);
            (forall x :: x in order ==> UseCount(slots, faces, x) <= UseCount(slots, faces, r))
            && exists k :: 0 <= k < |order| && order[k] == r
                 && forall j :: 0 <= j < k ==> UseCount(slots, faces, order[j]) < UseCount(slots, faces, r)
  {
    ArgMaxBound(order, slots, faces);
    ArgMaxEarliest(order, slots, faces);
  }

  /** `get_primary_material`: none for a non-mesh or an object without slots; the most-used
      material when some face has one; otherwise slot 0's material. */
  function Primary(o: Obj, meshes: map<string, MeshData>): Option<string> {
    match MeshOf(o, meshes)
    case None => None
    case Some(md) =>
      if |o.slots| == 0 then None
      else
        var order := UseOrder(o.slots, md.faceMaterials);
        if order == [] then o.slots[0] else Some(ArgMax(order, o.slots, md.faceMaterials))
  }

  /** The primary material is used by at least as many faces as any other material, and ties go
      to the material whose first face comes first; without a face with a material it is slot
      0's. */
  lemma PrimaryMostUsed(o: Obj, meshes: map<string, MeshData>)
    ensures MeshOf(o, meshes).None? || |o.slots| == 0 ==> Primary(o, meshes).None?
    ensures MeshOf(o, meshes).Some? && |o.slots| > 0 ==>
              var faces := MeshOf(o, meshes).value.faceMaterials;
              var r := Primary(o, meshes);
              ((forall m :: UseCount(o.slots, faces, m) == 0) ==> r == o.slots[0])
              && ((exists m :: UseCount(o.slots, faces, m) > 0) ==>
                    r.Some? && UseCount(o.slots, faces, r.value) > 0
                    && (forall m :: UseCount(o.slots, faces, m) <= UseCount(o.slots, faces, r.value))
                    && exists k :: 0 <= k < |UseOrder(o.slots, faces)| && UseOrder(o.slots, faces)[k] == r.value
                         && forall j :: 0 <= j < k ==>
                              UseCount(o.slots, faces, UseOrder(o.slots, faces)[j]) < UseCount(o.slots, faces, r.value))
  {
    if MeshOf(o, meshes).Some? && |o.slots| > 0 {
      var faces := MeshOf(o, meshes).value.faceMaterials;
      var order := UseOrder(o.slots, faces);
      UseOrderMembers(o.slots, faces);
      if order != [] {
        ArgMaxFacts(order, o.slots, faces);
        var r := ArgMax(order, o.slots, faces);
        forall m ensures UseCount(o.slots, faces, m) <= UseCount(o.slots, faces, r) {
          if m !in order {
            assert UseCount(o.slots, faces, m) == 0;
          }
        }
      } else {
        forall m ensures UseCount(o.slots, faces, m) == 0 {
          assert m !in order;
        }
      }
    }
  }

  lemma UseSnoc(slots: seq<Option<string>>, faces: seq<nat>, i: nat)
    requires i < |faces|
    ensures var m := FaceMaterial(slots, faces[i]);
            var p := UseOrder(slots, faces[..i]);
            UseOrder(slots, faces[..i + 1]) == if m.Some? && m.value !in p then p + [m.value] else p
    ensures forall m :: UseCount(slots, faces[..i + 1], m)
                        == UseCount(slots, faces[..i], m) + (if FaceMaterial(slots, faces[i]) == Some(m) then 1 else 0)
  {
    assert faces[..i + 1][..i] == faces[..i];
    assert faces[..i + 1][i] == faces[i];
  }

  /** The usage table of `get_primary_material`: each material a face uses, counted, with its
      keys in the order their first face is met. */
  method CountUsage(slots: seq<Option<string>>, faces: seq<nat>) returns (usage: map<string, nat>, order: seq<string>)
    ensures order == UseOrder(slots, faces)
    ensures forall m :: m in usage <==> m in order
    ensures forall m :: m in usage ==> usage[m] == UseCount(slots, faces, m)
  {
    usage, order := map[], [];
    var i := 0;
    while i < |faces|
      invariant 0 <= i <= |faces|
      invariant order == UseOrder(slots, faces[..i])
      invariant forall m :: m in usage <==> m in order
      invariant forall m :: m in usage ==> usage[m] == UseCount(slots, faces[..i], m)
    {
      UseSnoc(slots, faces, i);
      UseOrderMembers(slots, faces[..i]);
      var mat := FaceMaterial(slots, faces[i]);
      if mat.Some? {
        usage, order := CountMaterial(usage, order, mat.value);
      }
      i := i + 1;
    }
    assert faces[..i] == faces;
  }

  /** One face using material `m` counted in the table. */
  method CountMaterial(usage: map<string, nat>, order: seq<string>, m: string) returns (usage2: map<string, nat>, order2: seq<string>)
    requires forall x :: x in usage <==> x in order
    ensures order2 == if m !in order then order + [m] else order
    ensures forall x :: x in usage2 <==> x in order2
    ensures usage2[m] == (if m in usage then usage[m] else 0) + 1
    ensures forall x :: x in usage && x != m ==> usage2[x] == usage[x]
  {
    if m in usage {
      usage2, order2 := usage[m := usage[m] + 1], order;
    } else {
      usage2, order2 := usage[m := 1], order + [m];
    }
  }

  /** The first most-used key, as `max(material_usage, key=material_usage.get)`. */
  method PickMostUsed(order: seq<string>, usage: map<string, nat>, ghost slots: seq<Option<string>>, ghost faces: seq<nat>)
    returns (best: string)
    requires order != []
    requires forall m :: m in order ==> m in usage && usage[m] == UseCount(slots, faces, m)
    ensures best == ArgMax(order, slots, faces)
  {
    best := order[0];
    var k := 1;
    while k < |order|
      invariant 1 <= k <= |order|
      invariant best == ArgMax(order[..k], slots, faces)
      invariant best in order
    {
      assert order[..k + 1][..k] == order[..k];
      if usage[order[k]] > usage[best] {
        best := order[k];
      }
      k := k + 1;
    }
    assert order[..k] == order;
  }

  /** The loop of `get_primary_material`: usage counts per material, then the first maximum. */
  method GetPrimaryMaterial(o: Obj, meshes: map<string, MeshData>) returns (r: Option<string>)
    ensures r == Primary(o, meshes)
  {
    var md := MeshOf(o, meshes);
    if md.None? || |o.slots| == 0 {
      return None;
    }
    var slots, faces := o.slots, md.value.faceMaterials;
    var usage, order := CountUsage(slots, faces);
    if order == [] {
      return slots[0];
    }
    var best := PickMostUsed(order, usage, slots, faces);
    return Some(best);
  }

  // ---------------------------------------------------------------------------------------
  // Grouping by primary material

  /** A mesh without UVs: the objects grouping looks at. */
  predicate Candidate(o: Obj, meshes: map<string, MeshData>) {
    o.kind == Mesh && !HasUvMap(o, meshes)
  }

  function Candidates(objects: seq<Obj>, meshes: map<string, MeshData>): seq<Obj>
    decreases |objects|
  {
    if objects == [] then []
    else
      var o := objects[|objects| - 1];
      Candidates(objects[..|objects| - 1], meshes) + (if Candidate(o, meshes) then [o] else [])
  }

  /** The objects whose primary material is `m`, in input order. */
  function WithPrimary(objects: seq<Obj>, meshes: map<string, MeshData>, m: string): seq<Obj>
    decreases |objects|
  {
    if objects == [] then []
    else
      var o := objects[|objects| - 1];
      WithPrimary(objects[..|objects| - 1], meshes, m) + (if Primary(o, meshes) == Some(m) then [o] else [])
  }

  /** The objects without a primary material, in input order. */
  function Materialless(objects: seq<Obj>, meshes: map<string, MeshData>): seq<Obj>
    decreases |objects|
  {
    if objects == [] then []
    else
      var o := objects[|objects| - 1];
      Materialless(objects[..|objects| - 1], meshes) + (if Primary(o, meshes).None? then [o] else [])
  }

  /** The primary materials, each once, in the order their first object is met. */
  function PrimaryOrder(objects: seq<Obj>, meshes: map<string, MeshData>): seq<string>
    decreases |objects|
  {
    if objects == [] then []
    else
      var prefix := PrimaryOrder(objects[..|objects| - 1], meshes);
      var m := Primary(objects[|objects| - 1], meshes);
      if m.Some? && m.value !in prefix then prefix + [m.value] else prefix
  }

  lemma {:induction false} PrimaryOrderMembers(objects: seq<Obj>, meshes: map<string, MeshData>)
    ensures Distinct(PrimaryOrder(objects, meshes))
    ensures forall m :: m in PrimaryOrder(objects, meshes) <==> exists o :: o in objects && Primary(o, meshes) == Some(m)
    decreases |objects|
  {
    if objects != [] {
      var prefix := objects[..|objects| - 1];
      PrimaryOrderMembers(prefix, meshes);
      assert forall o :: o in objects <==> o in prefix || o == objects[|objects| - 1];
    }
  }

  /** A material and the objects whose primary material it is. */
  datatype MaterialGroup = MaterialGroup(material: string, members: seq<Obj>)

  /** `material_groups` before filtering, in key order. */
  function GroupsOf(objects: seq<Obj>, meshes: map<string, MeshData>): seq<MaterialGroup> {
    var order := PrimaryOrder(objects, meshes);
    seq(|order|, k requires 0 <= k < |order| => MaterialGroup(order[k], WithPrimary(objects, meshes, order[k])))
  }

  function Flatten(groups: seq<MaterialGroup>): seq<Obj>
    decreases |groups|
  {
    if groups == [] then [] else Flatten(groups[..|groups| - 1]) + groups[|groups| - 1].members
  }

  /** The groups with at least `minSize` members, in order. */
  function LargeGroups(groups: seq<MaterialGroup>, minSize: int): seq<MaterialGroup>
    decreases |groups|
  {
    if groups == [] then []
    else
      var g := groups[|groups| - 1];
      LargeGroups(groups[..|groups| - 1], minSize) + (if |g.members| >= minSize then [g] else [])
  }

  /** The members of the groups below `minSize`, group after group. */
  function SmallMembers(groups: seq<MaterialGroup>, minSize: int): seq<Obj>
    decreases |groups|
  {
    if groups == [] then []
    else
      var g := groups[|groups| - 1];
      SmallMembers(groups[..|groups| - 1], minSize) + (if |g.members| < minSize then g.members else [])
  }

  /** Splitting by size loses and duplicates no member. */
  lemma {:induction false} SizeSplit(groups: seq<MaterialGroup>, minSize: int)
    ensures multiset(Flatten(LargeGroups(groups, minSize))) + multiset(SmallMembers(groups, minSize))
            == multiset(Flatten(groups))
    decreases |groups|
  {
    if groups != [] {
      var prefix, g := groups[..|groups| - 1], groups[|groups| - 1];
      SizeSplit(prefix, minSize);
      var large, small := LargeGroups(prefix, minSize), SmallMembers(prefix, minSize);
      assert Flatten(groups) == Flatten(prefix) + g.members;
      assert multiset(Flatten(groups)) == multiset(Flatten(prefix)) + multiset(g.members);
      if |g.members| >= minSize {
        assert LargeGroups(groups, minSize) == large + [g];
        assert SmallMembers(groups, minSize) == small;
        FlattenSnoc(large, g);
        assert multiset(Flatten(large + [g])) == multiset(Flatten(large)) + multiset(g.members);
      } else {
        assert LargeGroups(groups, minSize) == large;
        assert SmallMembers(groups, minSize) == small + g.members;
        assert multiset(small + g.members) == multiset(small) + multiset(g.members);
      }
    }
  }

  lemma FlattenSnoc(groups: seq<MaterialGroup>, g: MaterialGroup)
    ensures Flatten(groups + [g]) == Flatten(groups) + g.members
  {
    assert (groups + [g])[..|groups|] == groups;
  }

  lemma WithPrimarySnoc(objects: seq<Obj>, o: Obj, meshes: map<string, MeshData>, m: string)
    ensures WithPrimary(objects + [o], meshes, m)
            == WithPrimary(objects, meshes, m) + (if Primary(o, meshes) == Some(m) then [o] else [])
  {
    assert (objects + [o])[..|objects|] == objects;
  }

  /** The members of the groups of `keys`, in key order. */
  function MembersOf(objects: seq<Obj>, meshes: map<string, MeshData>, keys: seq<string>): seq<Obj>
    decreases |keys|
  {
    if keys == [] then []
    else MembersOf(objects, meshes, keys[..|keys| - 1]) + WithPrimary(objects, meshes, keys[|keys| - 1])
  }

  lemma {:induction false} FlattenGroups(objects: seq<Obj>, meshes: map<string, MeshData>, keys: seq<string>)
    ensures Flatten(seq(|keys|, k requires 0 <= k < |keys| => MaterialGroup(keys[k], WithPrimary(objects, meshes, keys[k]))))
            == MembersOf(objects, meshes, keys)
    decreases |keys|
  {
    if keys != [] {
      var prefix := keys[..|keys| - 1];
      FlattenGroups(objects, meshes, prefix);
      var gs := seq(|keys|, k requires 0 <= k < |keys| => MaterialGroup(keys[k], WithPrimary(objects, meshes, keys[k])));
      assert gs[..|gs| - 1] == seq(|prefix|, k requires 0 <= k < |prefix| => MaterialGroup(prefix[k], WithPrimary(objects, meshes, prefix[k])));
    }
  }

  /** The object counted once: among the members of its primary material's group when that
      material is a key. */
  function Extra(o: Obj, meshes: map<string, MeshData>, keys: seq<string>): multiset<Obj> {
    if Primary(o, meshes).Some? && Primary(o, meshes).value in keys then multiset{o} else multiset{}
  }

  /** With distinct keys, the object lands under the last key or under one of the others. */
  lemma ExtraSplit(o: Obj, meshes: map<string, MeshData>, prefix: seq<string>, last: string)
    requires last !in prefix
    ensures Extra(o, meshes, prefix + [last])
            == Extra(o, meshes, prefix) + multiset(if Primary(o, meshes) == Some(last) then [o] else [])
  {
    var p := Primary(o, meshes);
    assert p.Some? && p.value in prefix + [last] <==> (p.Some? && p.value in prefix) || p == Some(last);
  }

  lemma MultisetRegroup(a: multiset<Obj>, b: multiset<Obj>, x: multiset<Obj>, y: multiset<Obj>)
    ensures a + x + (b + y) == (a + b) + (x + y)
  {
  }

  /** Adding one object adds it to the members of its primary material's group, if that
      material is a key, and to no other. */
  lemma {:induction false} MembersStep(objects: seq<Obj>, o: Obj, meshes: map<string, MeshData>, keys: seq<string>)
    requires Distinct(keys)
    ensures multiset(MembersOf(objects + [o], meshes, keys))
            == multiset(MembersOf(objects, meshes, keys)) + Extra(o, meshes, keys)
    decreases |keys|
  {
    if keys != [] {
      var prefix, last := keys[..|keys| - 1], keys[|keys| - 1];
      assert keys == prefix + [last];
      assert Distinct(prefix);
      assert last !in prefix by {
        forall j | 0 <= j < |prefix| ensures prefix[j] != last {
          assert keys[j] == prefix[j];
        }
      }
      MembersStep(objects, o, meshes, prefix);
      WithPrimarySnoc(objects, o, meshes, last);
      ExtraSplit(o, meshes, prefix, last);
      MultisetRegroup(multiset(MembersOf(objects, meshes, prefix)), multiset(WithPrimary(objects, meshes, last)),
                      Extra(o, meshes, prefix), multiset(if Primary(o, meshes) == Some(last) then [o] else []));
    }
  }

  /** Every object with a primary material among `keys` is in exactly one of their groups, and
      every other one is material-less. */
  lemma {:induction false} MembersPartition(objects: seq<Obj>, meshes: map<string, MeshData>, keys: seq<string>)
    requires Distinct(keys)
    requires forall o :: o in objects && Primary(o, meshes).Some? ==> Primary(o, meshes).value in keys
    ensures multiset(MembersOf(objects, meshes, keys)) + multiset(Materialless(objects, meshes)) == multiset(objects)
    decreases |objects|
  {
    if objects == [] {
      EmptyMembers(meshes, keys);
    } else {
      var prefix, o := objects[..|objects| - 1], objects[|objects| - 1];
      assert objects == prefix + [o];
      assert forall x :: x in prefix ==> x in objects;
      MembersPartition(prefix, meshes, keys);
      MembersStep(prefix, o, meshes, keys);
      var rest := multiset(if Primary(o, meshes).None? then [o] else []);
      assert multiset(Materialless(objects, meshes)) == multiset(Materialless(prefix, meshes)) + rest;
      assert Extra(o, meshes, keys) + rest == multiset{o};
      MultisetRegroup(multiset(MembersOf(prefix, meshes, keys)), multiset(Materialless(prefix, meshes)),
                      Extra(o, meshes, keys), rest);
      assert multiset(objects) == multiset(prefix) + multiset{o};
    }
  }

  lemma {:induction false} EmptyMembers(meshes: map<string, MeshData>, keys: seq<string>)
    ensures MembersOf([], meshes, keys) == []
    decreases |keys|
  {
    if keys != [] {
      EmptyMembers(meshes, keys[..|keys| - 1]);
    }
  }

  /** The groups `group_objects_by_material` returns. */
  function ValidGroups(objects: seq<Obj>, meshes: map<string, MeshData>, minSize: int): seq<MaterialGroup> {
    LargeGroups(GroupsOf(Candidates(objects, meshes), meshes), minSize)
  }

  /** The single objects it returns: material-less candidates, then the small groups' members. */
  function SingleObjects(objects: seq<Obj>, meshes: map<string, MeshData>, minSize: int): seq<Obj> {
    var c := Candidates(objects, meshes);
    Materialless(c, meshes) + SmallMembers(GroupsOf(c, meshes), minSize)
  }

  lemma {:induction false} CandidatesMembers(objects: seq<Obj>, meshes: map<string, MeshData>)
    ensures forall o :: o in Candidates(objects, meshes) <==> o in objects && Candidate(o, meshes)
    ensures forall o :: Candidate(o, meshes) ==> multiset(Candidates(objects, meshes))[o] == multiset(objects)[o]
    ensures forall o :: !Candidate(o, meshes) ==> multiset(Candidates(objects, meshes))[o] == 0
    decreases |objects|
  {
    if objects != [] {
      var prefix, last := objects[..|objects| - 1], objects[|objects| - 1];
      CandidatesMembers(prefix, meshes);
      assert objects == prefix + [last];
      assert multiset(objects) == multiset(prefix) + multiset{last};
      var cp := Candidates(prefix, meshes);
      if Candidate(last, meshes) {
        assert Candidates(objects, meshes) == cp + [last];
        assert multiset(Candidates(objects, meshes)) == multiset(cp) + multiset{last};
      } else {
        assert Candidates(objects, meshes) == cp;
      }
    }
  }

  /** Every mesh without UVs lands in exactly one returned group or among the single objects,
      as often as it occurs in the input; nothing else lands anywhere. */
  lemma GroupingPartition(objects: seq<Obj>, meshes: map<string, MeshData>, minSize: int)
    ensures multiset(Flatten(ValidGroups(objects, meshes, minSize))) + multiset(SingleObjects(objects, meshes, minSize))
            == multiset(Candidates(objects, meshes))
    ensures forall o :: Candidate(o, meshes) ==>
              (multiset(Flatten(ValidGroups(objects, meshes, minSize))) + multiset(SingleObjects(objects, meshes, minSize)))[o]
              == multiset(objects)[o]
    ensures forall o :: !Candidate(o, meshes) ==>
              (multiset(Flatten(ValidGroups(objects, meshes, minSize))) + multiset(SingleObjects(objects, meshes, minSize)))[o] == 0
  {
    var c := Candidates(objects, meshes);
    var order := PrimaryOrder(c, meshes);
    PrimaryOrderMembers(c, meshes);
    SizeSplit(GroupsOf(c, meshes), minSize);
    FlattenGroups(c, meshes, order);
    MembersPartition(c, meshes, order);
    CandidatesMembers(objects, meshes);
  }

  /** Each returned group has at least `minSize` members, all of them meshes without UVs whose
      primary material is the group's, listed in input order; no material has two groups. */
  lemma ValidGroupsShape(objects: seq<Obj>, meshes: map<string, MeshData>, minSize: int)
    ensures forall g :: g in ValidGroups(objects, meshes, minSize) ==>
              |g.members| >= minSize && |g.members| > 0
              && g.members == WithPrimary(Candidates(objects, meshes), meshes, g.material)
              && forall o :: o in g.members ==> Candidate(o, meshes) && o in objects && Primary(o, meshes) == Some(g.material)
    ensures forall i, j :: 0 <= i < j < |ValidGroups(objects, meshes, minSize)| ==>
              ValidGroups(objects, meshes, minSize)[i].material != ValidGroups(objects, meshes, minSize)[j].material
  {
    var c := Candidates(objects, meshes);
    var gs := GroupsOf(c, meshes);
    PrimaryOrderMembers(c, meshes);
    CandidatesMembers(objects, meshes);
    LargeGroupsSub(gs, minSize);
    forall g | g in gs
      ensures |g.members| > 0 && g.members == WithPrimary(c, meshes, g.material)
      ensures forall o :: o in g.members ==> o in c && Primary(o, meshes) == Some(g.material)
    {
      var k :| 0 <= k < |gs| && gs[k] == g;
      var o :| o in c && Primary(o, meshes) == Some(g.material);
      WithPrimaryMembers(c, meshes, g.material);
    }
    LargeGroupsDistinct(gs, minSize);
  }

  lemma {:induction false} WithPrimaryMembers(objects: seq<Obj>, meshes: map<string, MeshData>, m: string)
    ensures forall o :: o in WithPrimary(objects, meshes, m) <==> o in objects && Primary(o, meshes) == Some(m)
    decreases |objects|
  {
    if objects != [] {
      var prefix := objects[..|objects| - 1];
      WithPrimaryMembers(prefix, meshes, m);
      assert objects == prefix + [objects[|objects| - 1]];
    }
  }

  lemma {:induction false} WithPrimaryNone(objects: seq<Obj>, meshes: map<string, MeshData>, m: string)
    requires forall o :: o in objects ==> Primary(o, meshes) != Some(m)
    ensures WithPrimary(objects, meshes, m) == []
    decreases |objects|
  {
    if objects != [] {
      var prefix := objects[..|objects| - 1];
      assert forall o :: o in prefix ==> o in objects;
      WithPrimaryNone(prefix, meshes, m);
    }
  }

  lemma {:induction false} LargeGroupsSub(groups: seq<MaterialGroup>, minSize: int)
    ensures forall g :: g in LargeGroups(groups, minSize) ==> g in groups && |g.members| >= minSize
    decreases |groups|
  {
    if groups != [] {
      LargeGroupsSub(groups[..|groups| - 1], minSize);
    }
  }

  predicate DistinctMaterials(groups: seq<MaterialGroup>) {
    forall i, j :: 0 <= i < j < |groups| ==> groups[i].material != groups[j].material
  }

  lemma {:induction false} LargeGroupsDistinct(groups: seq<MaterialGroup>, minSize: int)
    requires DistinctMaterials(groups)
    ensures DistinctMaterials(LargeGroups(groups, minSize))
    decreases |groups|
  {
    if groups != [] {
      var prefix := groups[..|groups| - 1];
      LargeGroupsDistinct(prefix, minSize);
      LargeGroupsSub(prefix, minSize);
      var r := LargeGroups(groups, minSize);
      var g := groups[|groups| - 1];
      forall i, j | 0 <= i < j < |r| ensures r[i].material != r[j].material {
        if j == |r| - 1 && |g.members| >= minSize {
          assert r[i] in LargeGroups(prefix, minSize);
          var k :| 0 <= k < |prefix| && prefix[k] == r[i];
          assert groups[k] == r[i];
        }
      }
    }
  }

  /** How one more candidate extends the groups, the material-less objects and the order. */
  lemma CandidateSnoc(c: seq<Obj>, o: Obj, meshes: map<string, MeshData>)
    ensures forall m :: WithPrimary(c + [o], meshes, m)
                        == WithPrimary(c, meshes, m) + (if Primary(o, meshes) == Some(m) then [o] else [])
    ensures Materialless(c + [o], meshes) == Materialless(c, meshes) + (if Primary(o, meshes).None? then [o] else [])
    ensures PrimaryOrder(c + [o], meshes)
            == var p := PrimaryOrder(c, meshes);
               if Primary(o, meshes).Some? && Primary(o, meshes).value !in p then p + [Primary(o, meshes).value] else p
  {
    assert (c + [o])[..|c|] == c;
  }

  /** The state of the first loop of `group_objects_by_material` after the candidates `c`:
      the key order, and each key's members. */
  ghost predicate GroupsSoFar(c: seq<Obj>, meshes: map<string, MeshData>, order: seq<string>, members: map<string, seq<Obj>>) {
    order == PrimaryOrder(c, meshes)
    && (forall m :: m in members <==> m in order)
    && (forall m :: m in members ==> members[m] == WithPrimary(c, meshes, m))
  }

  /** Appending a candidate with primary material `m` to its group keeps the loop state. */
  lemma AddToGroup(c: seq<Obj>, o: Obj, meshes: map<string, MeshData>, order: seq<string>, members: map<string, seq<Obj>>)
    requires GroupsSoFar(c, meshes, order, members)
    requires Primary(o, meshes).Some?
    ensures var m := Primary(o, meshes).value;
            if m in members then GroupsSoFar(c + [o], meshes, order, members[m := members[m] + [o]])
            else GroupsSoFar(c + [o], meshes, order + [m], members[m := [o]])
  {
    var m := Primary(o, meshes).value;
    if m in members {
      AddToExisting(c, o, meshes, order, members, m);
    } else {
      AddAsNew(c, o, meshes, order, members, m);
    }
  }

  lemma AddToExisting(c: seq<Obj>, o: Obj, meshes: map<string, MeshData>, order: seq<string>, members: map<string, seq<Obj>>,
                      m: string)
    requires GroupsSoFar(c, meshes, order, members)
    requires Primary(o, meshes) == Some(m) && m in members
    ensures GroupsSoFar(c + [o], meshes, order, members[m := members[m] + [o]])
  {
    CandidateSnoc(c, o, meshes);
    var after := members[m := members[m] + [o]];
    forall x | x in after ensures after[x] == WithPrimary(c + [o], meshes, x) {
      if x != m {
        assert after[x] == members[x];
      }
    }
  }

  lemma AddAsNew(c: seq<Obj>, o: Obj, meshes: map<string, MeshData>, order: seq<string>, members: map<string, seq<Obj>>,
                 m: string)
    requires GroupsSoFar(c, meshes, order, members)
    requires Primary(o, meshes) == Some(m) && m !in members
    ensures GroupsSoFar(c + [o], meshes, order + [m], members[m := [o]])
  {
    CandidateSnoc(c, o, meshes);
    PrimaryOrderMembers(c, meshes);
    WithPrimaryNone(c, meshes, m);
    var after := members[m := [o]];
    forall x | x in after ensures after[x] == WithPrimary(c + [o], meshes, x) {
      if x != m {
        assert after[x] == members[x];
      }
    }
    assert forall x :: x in order + [m] <==> x in order || x == m;
  }

  lemma MateriallessSnoc(c: seq<Obj>, o: Obj, meshes: map<string, MeshData>)
    ensures Materialless(c + [o], meshes) == Materialless(c, meshes) + (if Primary(o, meshes).None? then [o] else [])
  {
    assert (c + [o])[..|c|] == c;
  }

  lemma CandidatesSnoc(objects: seq<Obj>, i: nat, meshes: map<string, MeshData>)
    requires i < |objects|
    ensures Candidates(objects[..i + 1], meshes)
            == Candidates(objects[..i], meshes) + (if Candidate(objects[i], meshes) then [objects[i]] else [])
  {
    assert objects[..i + 1][..i] == objects[..i];
  }

  /** One candidate of the first loop: appended to its primary material's group, or to the
      material-less objects. */
  method GroupCandidate(o: Obj, meshes: map<string, MeshData>, ghost c: seq<Obj>,
                        order: seq<string>, members: map<string, seq<Obj>>, singles: seq<Obj>)
    returns (order2: seq<string>, members2: map<string, seq<Obj>>, singles2: seq<Obj>)
    requires GroupsSoFar(c, meshes, order, members) && singles == Materialless(c, meshes)
    ensures GroupsSoFar(c + [o], meshes, order2, members2) && singles2 == Materialless(c + [o], meshes)
  {
    MateriallessSnoc(c, o, meshes);
    order2, members2, singles2 := order, members, singles;
    var primary := GetPrimaryMaterial(o, meshes);
    if primary.Some? {
      AddToGroup(c, o, meshes, order, members);
      var m := primary.value;
      if m in members {
        members2 := members[m := members[m] + [o]];
      } else {
        members2 := members[m := [o]];
        order2 := order + [m];
      }
    } else {
      singles2 := singles + [o];
    }
  }

  /** The first loop of `group_objects_by_material`: the groups by primary material in key
      order, and the material-less meshes without UVs. */
  method CollectByMaterial(objects: seq<Obj>, meshes: map<string, MeshData>)
    returns (order: seq<string>, members: map<string, seq<Obj>>, singles: seq<Obj>)
    ensures GroupsSoFar(Candidates(objects, meshes), meshes, order, members)
    ensures singles == Materialless(Candidates(objects, meshes), meshes)
  {
    members, order, singles := map[], [], [];
    ghost var c: seq<Obj> := [];
    var i := 0;
    while i < |objects|
      invariant 0 <= i <= |objects|
      invariant c == Candidates(objects[..i], meshes)
      invariant GroupsSoFar(c, meshes, order, members)
      invariant singles == Materialless(c, meshes)
    {
      var o := objects[i];
      CandidatesSnoc(objects, i, meshes);
      if o.kind == Mesh && !HasUvMap(o, meshes) {
        order, members, singles := GroupCandidate(o, meshes, c, order, members, singles);
        c := c + [o];
      }
      i := i + 1;
    }
    assert objects[..i] == objects;
  }

  /** The groups of at least `minSize` members, in order. */
  method KeepLarge(all: seq<MaterialGroup>, minSize: int) returns (groups: seq<MaterialGroup>)
    ensures groups == LargeGroups(all, minSize)
  {
    groups := [];
    var k := 0;
    while k < |all|
      invariant 0 <= k <= |all|
      invariant groups == LargeGroups(all[..k], minSize)
    {
      assert all[..k + 1][..k] == all[..k];
      if |all[k].members| >= minSize {
        groups := groups + [all[k]];
      }
      k := k + 1;
    }
    assert all[..k] == all;
  }

  /** The members of the groups below `minSize`, group after group. */
  method CollectSmall(all: seq<MaterialGroup>, minSize: int) returns (small: seq<Obj>)
    ensures small == SmallMembers(all, minSize)
  {
    small := [];
    var k := 0;
    while k < |all|
      invariant 0 <= k <= |all|
      invariant small == SmallMembers(all[..k], minSize)
    {
      assert all[..k + 1][..k] == all[..k];
      if |all[k].members| < minSize {
        small := small + all[k].members;
      }
      k := k + 1;
    }
    assert all[..k] == all;
  }

  /** `group_objects_by_material`. */
  method GroupObjectsByMaterial(objects: seq<Obj>, minSize: int, meshes: map<string, MeshData>)
    returns (groups: seq<MaterialGroup>, singles: seq<Obj>)
    ensures groups == ValidGroups(objects, meshes, minSize)
    ensures singles == SingleObjects(objects, meshes, minSize)
  {
    var order, members, materialless := CollectByMaterial(objects, meshes);
    var all := seq(|order|, k requires 0 <= k < |order| => MaterialGroup(order[k], members[order[k]]));
    ghost var c := Candidates(objects, meshes);
    forall k | 0 <= k < |all| ensures all[k] == GroupsOf(c, meshes)[k] {
      assert order[k] in members;
    }
    assert all == GroupsOf(c, meshes);
    groups := KeepLarge(all, minSize);
    var small := CollectSmall(all, minSize);
    singles := materialless + small;
  }

  // ---------------------------------------------------------------------------------------
  // The atlas pass

  /** The statistics dictionary of `auto_unwrap_with_atlasing`; `atlasObjects` holds the
      joined objects' names. */
  datatype AtlasStats = AtlasStats(atlasesCreated: nat, objectsInAtlases: nat, atlasObjects: seq<string>,
                                   atlasedSources: seq<Obj>, individualUnwraps: nat, skipped: nat, failed: nat)

  /** What the kernels report: whether joining a group's copies succeeds, whether lightmap
      packing the joined mesh succeeds, and whether Smart UV Project succeeds on an object. */
  datatype Kernels = Kernels(joins: string -> bool, packs: string -> bool, unwraps: Obj -> bool)

  function AtlasName(material: string): string {
    "UV_Atlas_" + material
  }

  /** The stats after the atlas loop over `groups`. */
  function AtlasPhase(groups: seq<MaterialGroup>, k: Kernels, s: AtlasStats): AtlasStats
    decreases |groups|
  {
    if groups == [] then s
    else
      var t := AtlasPhase(groups[..|groups| - 1], k, s);
      var g := groups[|groups| - 1];
      if k.joins(g.material) && k.packs(g.material) then
        t.(atlasesCreated := t.atlasesCreated + 1, objectsInAtlases := t.objectsInAtlases + |g.members|,
           atlasObjects := t.atlasObjects + [AtlasName(g.material)], atlasedSources := t.atlasedSources + g.members)
      else t.(failed := t.failed + 1)
  }

  /** The stats and mesh store after the individual loop over `singles`. */
  function SinglePhase(singles: seq<Obj>, k: Kernels, s: AtlasStats, meshes: map<string, MeshData>): (AtlasStats, map<string, MeshData>)
    decreases |singles|
  {
    if singles == [] then (s, meshes)
    else
      var (t, ms) := SinglePhase(singles[..|singles| - 1], k, s, meshes);
      var o := singles[|singles| - 1];
      if HasUvMap(o, ms) then (t.(skipped := t.skipped + 1), ms)
      else if MeshOf(o, ms).Some? && k.unwraps(o) then (t.(individualUnwraps := t.individualUnwraps + 1), AddUvLayer(ms, o))
      else (t.(failed := t.failed + 1), ms)
  }

  const NoStats := AtlasStats(0, 0, [], [], 0, 0, 0)

  /** `auto_unwrap_with_atlasing`: the stats and the mesh store afterwards. */
  function AutoUnwrap(objects: seq<Obj>, enableAtlasing: bool, minSize: int, k: Kernels, meshes: map<string, MeshData>)
    : (AtlasStats, map<string, MeshData>)
  {
    var ms := MeshObjects(objects);
    if ms == [] then (NoStats, meshes)
    else if enableAtlasing then
      SinglePhase(SingleObjects(ms, meshes, minSize), k, AtlasPhase(ValidGroups(ms, meshes, minSize), k, NoStats), meshes)
    else SinglePhase(ms, k, NoStats, meshes)
  }

  /** The atlas loop counts each group once: as created when its join and pack succeed,
      otherwise as failed; it counts no unwrap and no skip. */
  lemma {:induction false} AtlasPhaseCounts(groups: seq<MaterialGroup>, k: Kernels, s: AtlasStats)
    ensures AtlasPhase(groups, k, s).atlasesCreated == s.atlasesCreated + |Packed(groups, k)|
    ensures AtlasPhase(groups, k, s).failed + |Packed(groups, k)| == s.failed + |groups|
    ensures AtlasPhase(groups, k, s).individualUnwraps == s.individualUnwraps
    ensures AtlasPhase(groups, k, s).skipped == s.skipped
    decreases |groups|
  {
    if groups != [] {
      AtlasPhaseCounts(groups[..|groups| - 1], k, s);
    }
  }

  /** The created atlases are named after the packed groups' materials and hold exactly their
      members. */
  lemma {:induction false} AtlasPhaseContents(groups: seq<MaterialGroup>, k: Kernels, s: AtlasStats)
    ensures AtlasPhase(groups, k, s).atlasedSources == s.atlasedSources + Flatten(Packed(groups, k))
    ensures AtlasPhase(groups, k, s).atlasObjects == s.atlasObjects + AtlasNames(Packed(groups, k))
    ensures AtlasPhase(groups, k, s).objectsInAtlases == s.objectsInAtlases + |Flatten(Packed(groups, k))|
    decreases |groups|
  {
    if groups != [] {
      var prefix, g := groups[..|groups| - 1], groups[|groups| - 1];
      AtlasPhaseContents(prefix, k, s);
      if k.joins(g.material) && k.packs(g.material) {
        var p := Packed(prefix, k);
        assert Packed(groups, k) == p + [g];
        FlattenSnoc(p, g);
        assert (p + [g])[..|p|] == p;
        assert AtlasNames(p + [g]) == AtlasNames(p) + [AtlasName(g.material)];
      } else {
        assert Packed(groups, k) == Packed(prefix, k);
      }
    }
  }

  lemma {:induction false} AtlasNamesLength(groups: seq<MaterialGroup>)
    ensures |AtlasNames(groups)| == |groups|
    decreases |groups|
  {
    if groups != [] {
      AtlasNamesLength(groups[..|groups| - 1]);
    }
  }

  /** The groups whose join and pack both succeed. */
  function Packed(groups: seq<MaterialGroup>, k: Kernels): (r: seq<MaterialGroup>)
    decreases |groups|
  {
    if groups == [] then []
    else
      var g := groups[|groups| - 1];
      Packed(groups[..|groups| - 1], k) + (if k.joins(g.material) && k.packs(g.material) then [g] else [])
  }

  /** A group is packed exactly when its join and its pack succeed; a group whose pack fails
      is counted as failed and its joined mesh is not among the atlas objects. */
  lemma {:induction false} PackedExactly(groups: seq<MaterialGroup>, k: Kernels)
    ensures forall g :: g in Packed(groups, k) <==> g in groups && k.joins(g.material) && k.packs(g.material)
    decreases |groups|
  {
    if groups != [] {
      var prefix := groups[..|groups| - 1];
      PackedExactly(prefix, k);
      assert forall g :: g in groups <==> g in prefix || g == groups[|groups| - 1];
    }
  }

  function AtlasNames(groups: seq<MaterialGroup>): seq<string>
    decreases |groups|
  {
    if groups == [] then [] else AtlasNames(groups[..|groups| - 1]) + [AtlasName(groups[|groups| - 1].material)]
  }

  /** The individual loop counts each object once, as skipped, unwrapped or failed. */
  lemma {:induction false} SinglePhaseCounts(singles: seq<Obj>, k: Kernels, s: AtlasStats, meshes: map<string, MeshData>)
    ensures var t := SinglePhase(singles, k, s, meshes).0;
            t.skipped + t.individualUnwraps + t.failed == s.skipped + s.individualUnwraps + s.failed + |singles|
            && t.atlasesCreated == s.atlasesCreated && t.objectsInAtlases == s.objectsInAtlases
            && t.atlasObjects == s.atlasObjects && t.atlasedSources == s.atlasedSources
    decreases |singles|
  {
    if singles != [] {
      SinglePhaseCounts(singles[..|singles| - 1], k, s, meshes);
    }
  }

  /** Objects whose mesh is not touched by unwrapping the earlier ones keep their UV state. */
  lemma {:induction false} SinglePhaseMeshes(singles: seq<Obj>, k: Kernels, s: AtlasStats, meshes: map<string, MeshData>, d: string)
    requires forall o :: o in singles ==> o.data != Some(d)
    ensures d in SinglePhase(singles, k, s, meshes).1 <==> d in meshes
    ensures d in meshes ==> SinglePhase(singles, k, s, meshes).1[d] == meshes[d]
    decreases |singles|
  {
    if singles != [] {
      var prefix := singles[..|singles| - 1];
      assert forall o :: o in prefix ==> o in singles;
      SinglePhaseMeshes(prefix, k, s, meshes, d);
    }
  }

  /** No two of the objects share mesh data. */
  predicate NoSharedMeshes(objects: seq<Obj>) {
    forall i, j :: 0 <= i < j < |objects| && objects[i].data.Some? ==> objects[j].data != objects[i].data
  }

  /** Meshes without UVs whose mesh data no other object of the loop shares are never skipped. */
  lemma {:induction false} NoSharedNoSkips(singles: seq<Obj>, k: Kernels, s: AtlasStats, meshes: map<string, MeshData>)
    requires forall o :: o in singles ==> !HasUvMap(o, meshes)
    requires NoSharedMeshes(singles)
    ensures SinglePhase(singles, k, s, meshes).0.skipped == s.skipped
    decreases |singles|
  {
    if singles != [] {
      var prefix, o := singles[..|singles| - 1], singles[|singles| - 1];
      assert forall x :: x in prefix ==> x in singles;
      assert forall i :: 0 <= i < |prefix| ==> prefix[i] == singles[i];
      NoSharedNoSkips(prefix, k, s, meshes);
      var ms := SinglePhase(prefix, k, s, meshes).1;
      if o.data.Some? {
        forall x | x in prefix ensures x.data != Some(o.data.value) {
          var i :| 0 <= i < |prefix| && prefix[i] == x;
          assert singles[i] == x;
        }
        SinglePhaseMeshes(prefix, k, s, meshes, o.data.value);
        assert o.data.value in ms <==> o.data.value in meshes;
      }
      assert o in singles;
      assert MeshOf(o, ms) == MeshOf(o, meshes);
    }
  }

  /** Without atlasing every mesh is counted once as skipped, unwrapped or failed, and no
      atlas is made. With atlasing every valid group is counted once as created or failed, and
      every single object once as skipped, unwrapped or failed; the created atlases hold
      exactly the members of the packed groups. */
  lemma AutoUnwrapCounts(objects: seq<Obj>, enableAtlasing: bool, minSize: int, k: Kernels, meshes: map<string, MeshData>)
    ensures var t := AutoUnwrap(objects, enableAtlasing, minSize, k, meshes).0;
            t.atlasesCreated == |t.atlasObjects| && t.objectsInAtlases == |t.atlasedSources|
    ensures MeshObjects(objects) == [] ==> AutoUnwrap(objects, enableAtlasing, minSize, k, meshes).0 == NoStats
    ensures !enableAtlasing ==>
              var t := AutoUnwrap(objects, enableAtlasing, minSize, k, meshes).0;
              t.skipped + t.individualUnwraps + t.failed == |MeshObjects(objects)| && t.atlasesCreated == 0
    ensures enableAtlasing && MeshObjects(objects) != [] ==>
              var ms := MeshObjects(objects);
              var t := AutoUnwrap(objects, enableAtlasing, minSize, k, meshes).0;
              t.atlasesCreated + t.skipped + t.individualUnwraps + t.failed
                == |ValidGroups(ms, meshes, minSize)| + |SingleObjects(ms, meshes, minSize)|
              && t.atlasedSources == Flatten(Packed(ValidGroups(ms, meshes, minSize), k))
              && t.atlasObjects == AtlasNames(Packed(ValidGroups(ms, meshes, minSize), k))
  {
    var ms := MeshObjects(objects);
    if ms != [] {
      if enableAtlasing {
        var groups := ValidGroups(ms, meshes, minSize);
        AtlasPhaseCounts(groups, k, NoStats);
        AtlasPhaseContents(groups, k, NoStats);
        AtlasNamesLength(Packed(groups, k));
        SinglePhaseCounts(SingleObjects(ms, meshes, minSize), k, AtlasPhase(groups, k, NoStats), meshes);
      } else {
        SinglePhaseCounts(ms, k, NoStats, meshes);
      }
    }
  }

  /** The single objects are meshes without UVs taken from the input. */
  lemma SinglesAreCandidates(objects: seq<Obj>, meshes: map<string, MeshData>, minSize: int)
    ensures forall o :: o in SingleObjects(objects, meshes, minSize) ==> Candidate(o, meshes) && o in objects
  {
    var singles := SingleObjects(objects, meshes, minSize);
    var grouped := multiset(Flatten(ValidGroups(objects, meshes, minSize)));
    GroupingPartition(objects, meshes, minSize);
    forall o | o in singles ensures Candidate(o, meshes) && o in objects {
      assert multiset(singles)[o] > 0;
      assert (grouped + multiset(singles))[o] > 0;
    }
  }

  /** With atlasing, an object that had UVs before the pass is never counted (the single objects
      all lacked UVs), and when no two single objects share a mesh none is skipped. */
  lemma AtlasingSkipsNothing(objects: seq<Obj>, minSize: int, k: Kernels, meshes: map<string, MeshData>)
    requires NoSharedMeshes(SingleObjects(MeshObjects(objects), meshes, minSize))
    ensures forall o :: o in SingleObjects(MeshObjects(objects), meshes, minSize) ==> !HasUvMap(o, meshes)
    ensures AutoUnwrap(objects, true, minSize, k, meshes).0.skipped == 0
  {
    var ms := MeshObjects(objects);
    var singles := SingleObjects(ms, meshes, minSize);
    SinglesAreCandidates(ms, meshes, minSize);
    if ms != [] {
      var groups := ValidGroups(ms, meshes, minSize);
      AtlasPhaseCounts(groups, k, NoStats);
      NoSharedNoSkips(singles, k, AtlasPhase(groups, k, NoStats), meshes);
    }
  }

  /** The atlas loop: join each group's copies, then lightmap pack the joined mesh. */
  method BuildAtlases(groups: seq<MaterialGroup>, k: Kernels) returns (stats: AtlasStats)
    ensures stats == AtlasPhase(groups, k, NoStats)
  {
    stats := NoStats;
    var g := 0;
    while g < |groups|
      invariant 0 <= g <= |groups|
      invariant stats == AtlasPhase(groups[..g], k, NoStats)
    {
      assert groups[..g + 1][..g] == groups[..g];
      var group := groups[g];
      if k.joins(group.material) {
        if k.packs(group.material) {
          stats := stats.(atlasesCreated := stats.atlasesCreated + 1,
                          objectsInAtlases := stats.objectsInAtlases + |group.members|,
                          atlasObjects := stats.atlasObjects + [AtlasName(group.material)],
                          atlasedSources := stats.atlasedSources + group.members);
        } else {
          stats := stats.(failed := stats.failed + 1);
        }
      } else {
        stats := stats.(failed := stats.failed + 1);
      }
      g := g + 1;
    }
    assert groups[..g] == groups;
  }

  /** The individual loop: skip an object whose mesh has UVs by now, otherwise Smart UV
      Project it. */
  method UnwrapSingles(singles: seq<Obj>, k: Kernels, start: AtlasStats, store: MeshStore) returns (stats: AtlasStats)
    modifies store
    ensures (stats, store.meshes) == SinglePhase(singles, k, start, old(store.meshes))
  {
    stats := start;
    var j := 0;
    while j < |singles|
      invariant 0 <= j <= |singles|
      invariant (stats, store.meshes) == SinglePhase(singles[..j], k, start, old(store.meshes))
    {
      assert singles[..j + 1][..j] == singles[..j];
      var o := singles[j];
      if HasUvMap(o, store.meshes) {
        stats := stats.(skipped := stats.skipped + 1);
      } else if MeshOf(o, store.meshes).Some? && k.unwraps(o) {
        store.meshes := AddUvLayer(store.meshes, o);
        stats := stats.(individualUnwraps := stats.individualUnwraps + 1);
      } else {
        stats := stats.(failed := stats.failed + 1);
      }
      j := j + 1;
    }
    assert singles[..j] == singles;
  }

  /** `auto_unwrap_with_atlasing`, looping over the groups and then the single objects. */
  method AutoUnwrapWithAtlasing(objects: seq<Obj>, enableAtlasing: bool, minSize: int, k: Kernels, store: MeshStore)
    returns (stats: AtlasStats)
    modifies store
    ensures (stats, store.meshes) == AutoUnwrap(objects, enableAtlasing, minSize, k, old(store.meshes))
  {
    var ms := CollectMeshObjects(objects);
    if ms == [] {
      return NoStats;
    }
    if enableAtlasing {
      var groups, singles := GroupObjectsByMaterial(ms, minSize, store.meshes);
      stats := BuildAtlases(groups, k);
      stats := UnwrapSingles(singles, k, stats, store);
    } else {
      stats := UnwrapSingles(ms, k, NoStats, store);
    }
  }
}
