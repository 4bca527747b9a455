/** Channel baking of `advanced_baking.py`: the requirements heuristic and the settings derived
    from it, the copy of a node network into a temporary material, the backup of a material's
    node tree, and the record table of temporary isolation materials that baking keeps per
    object. Materials are seen at socket level here: each node lists its input sockets, and
    links name their endpoint nodes and sockets, as the backup records them. */
module AdvancedBaking {
  import opened Wrappers
  import opened Strings
  import opened MaterialAnalyzer

  /** An input socket; `defaultValue` is its `default_value` rendered as text, `None` for a
      socket without one (a shader socket). */
  datatype Socket = Socket(name: string, defaultValue: Option<string>)

  datatype ShaderNode = ShaderNode(name: string, kind: NodeType, image: Option<string>, inputs: seq<Socket>)

  /** A link from an output socket of one node to an input socket of another: the sockets by
      name, and `toIndex` the position of the input socket among its node's inputs (a node may
      have two inputs of one name, as a Math node's two "Value" inputs). */
  datatype NamedLink = NamedLink(fromNode: string, fromSocket: string, toNode: string, toSocket: string, toIndex: nat)

  datatype ShaderTree = ShaderTree(nodes: seq<ShaderNode>, links: seq<NamedLink>)

  datatype ShaderMaterial = ShaderMaterial(name: string, useNodes: bool, tree: Option<ShaderTree>)

  /** Whether some input socket named `socket` of node `node` is linked. */
  predicate IsLinked(t: ShaderTree, node: string, socket: string) {
    exists l :: l in t.links && l.toNode == node && l.toSocket == socket
  }

  /** `is_linked` of the input socket at position `j` of node `node`. */
  predicate LinkedAt(t: ShaderTree, node: string, j: nat) {
    exists l :: l in t.links && l.toNode == node && l.toIndex == j
  }

  // ---------------------------------------------------------------------------------------
  // Requirements heuristic

  predicate IsProcedural(k: NodeType) {
    k == TexNoise || k == TexVoronoi || k == TexMusgrave
  }

  predicate IsNormalNode(k: NodeType) {
    k == Bump || k == NormalMap
  }

  /** The number of Noise, Voronoi and Musgrave texture nodes. */
  function ProceduralCount(nodes: seq<ShaderNode>): nat
    decreases |nodes|
  {
    if nodes == [] then 0
    else ProceduralCount(nodes[..|nodes| - 1]) + (if IsProcedural(nodes[|nodes| - 1].kind) then 1 else 0)
  }

  /** The count never exceeds the number of nodes, and is zero exactly when no node is
      procedural. */
  lemma {:induction false} ProceduralCountBounds(nodes: seq<ShaderNode>)
    ensures ProceduralCount(nodes) <= |nodes|
    ensures ProceduralCount(nodes) == 0 <==> forall i :: 0 <= i < |nodes| ==> !IsProcedural(nodes[i].kind)
    decreases |nodes|
  {
    if nodes != [] {
      var prefix := nodes[..|nodes| - 1];
      ProceduralCountBounds(prefix);
      assert forall i :: 0 <= i < |prefix| ==> prefix[i] == nodes[i];
    }
  }

  predicate HasComplexNormals(nodes: seq<ShaderNode>) {
    exists i :: 0 <= i < |nodes| && IsNormalNode(nodes[i].kind)
  }

  /** The requirements dictionary of `analyze_baking_requirements`. */
  datatype Requirements = Requirements(needsHighRes: bool, complexNormals: bool, proceduralComplexity: nat,
                                       recommendedResolution: nat)

  /** The requirements of a material: 2048 and high resolution with many procedural nodes or a
      bump/normal-map node, else 1024; a material without a node tree in use keeps the
      defaults. */
  function RequirementsOf(m: ShaderMaterial): Requirements {
    if m.useNodes && m.tree.Some? then
      var count := ProceduralCount(m.tree.value.nodes);
      var normals := HasComplexNormals(m.tree.value.nodes);
      var high := count > 3 || normals;
      Requirements(high, normals, count, if high then 2048 else 1024)
    else Requirements(false, false, 0, 1024)
  }

  /** The resolution is 2048 exactly when high resolution is needed, which is exactly when more
      than three procedural nodes or a bump/normal-map node occur; otherwise it is 1024. */
  lemma RequirementsResolution(m: ShaderMaterial)
    ensures var r := RequirementsOf(m);
            (r.recommendedResolution == 2048 <==> r.needsHighRes)
            && (r.recommendedResolution == 1024 <==> !r.needsHighRes)
            && (r.needsHighRes <==> r.proceduralComplexity > 3 || r.complexNormals)
            && (r.complexNormals <==> m.useNodes && m.tree.Some? && HasComplexNormals(m.tree.value.nodes))
            && (m.useNodes && m.tree.Some? ==> r.proceduralComplexity <= |m.tree.value.nodes|)
  {
    if m.useNodes && m.tree.Some? {
      ProceduralCountBounds(m.tree.value.nodes);
    }
  }

  /** The material in slot 0, if the object has slots and slot 0 holds a material of the
      store. */
  function FirstSlotMaterial(slots: seq<Option<string>>, materials: map<string, ShaderMaterial>): Option<ShaderMaterial> {
    if |slots| == 0 || slots[0].None? || slots[0].value !in materials then None
    else Some(materials[slots[0].value])
  }

  /** Whether the nodes up to `i + 1` hold a bump/normal-map node. */
  lemma NormalsSnoc(nodes: seq<ShaderNode>, i: nat)
    requires i < |nodes|
    ensures HasComplexNormals(nodes[..i + 1]) <==> HasComplexNormals(nodes[..i]) || IsNormalNode(nodes[i].kind)
  {
    var next := nodes[..i + 1];
    assert next[i] == nodes[i];
    assert forall j :: 0 <= j < i ==> next[j] == nodes[..i][j];
  }

  /** The node loop of `analyze_baking_requirements`: procedural nodes are counted and a
      bump/normal-map node is remembered. */
  method ScanNodes(nodes: seq<ShaderNode>) returns (count: nat, normals: bool)
    ensures count == ProceduralCount(nodes) && normals == HasComplexNormals(nodes)
  {
    count, normals := 0, false;
    var i := 0;
    while i < |nodes|
      invariant 0 <= i <= |nodes|
      invariant count == ProceduralCount(nodes[..i])
      invariant normals <==> HasComplexNormals(nodes[..i])
    {
      assert nodes[..i + 1][..i] == nodes[..i];
      NormalsSnoc(nodes, i);
      if IsProcedural(nodes[i].kind) {
        count := count + 1;
      } else if IsNormalNode(nodes[i].kind) {
        normals := true;
      }
      i := i + 1;
    }
    assert nodes[..i] == nodes;
  }

  /** `AdaptiveBaker.analyze_baking_requirements`: `None` (the empty dictionary) without a slot-0
      material, else the counts over the material's nodes. */
  method AnalyzeBakingRequirements(slots: seq<Option<string>>, materials: map<string, ShaderMaterial>)
    returns (r: Option<Requirements>)
    ensures FirstSlotMaterial(slots, materials).None? ==> r.None?
    ensures FirstSlotMaterial(slots, materials).Some? ==> r == Some(RequirementsOf(FirstSlotMaterial(slots, materials).value))
  {
    var first := FirstSlotMaterial(slots, materials);
    if first.None? {
      return None;
    }
    var m := first.value;
    var req := Requirements(false, false, 0, 1024);
    if m.useNodes && m.tree.Some? {
      var count, normals := ScanNodes(m.tree.value.nodes);
      req := req.(proceduralComplexity := count, complexNormals := normals);
      if count > 3 || normals {
        req := req.(recommendedResolution := 2048, needsHighRes := true);
      } else if count > 1 {
        req := req.(recommendedResolution := 1024);
      }
    }
    return Some(req);
  }

  datatype BakeSettings = BakeSettings(resolution: nat, samples: nat, margin: nat)

  /** `get_optimal_baking_settings`: `None` where the source raises `KeyError` (the requirements
      are empty because slot 0 holds no material); otherwise 64 samples exactly for high
      resolution and a margin of 4 exactly for complex normals. */
  function OptimalBakingSettings(slots: seq<Option<string>>, materials: map<string, ShaderMaterial>): (r: Option<BakeSettings>)
    ensures r.None? <==> FirstSlotMaterial(slots, materials).None?
    ensures r.Some? ==>
              var req := RequirementsOf(FirstSlotMaterial(slots, materials).value);
              r.value.resolution == req.recommendedResolution
              && (r.value.samples == 64 <==> req.needsHighRes) && (r.value.samples == 32 <==> !req.needsHighRes)
              && (r.value.margin == 4 <==> req.complexNormals) && (r.value.margin == 2 <==> !req.complexNormals)
  {
    match FirstSlotMaterial(slots, materials)
    case None => None
    case Some(m) =>
      var req := RequirementsOf(m);
      Some(BakeSettings(req.recommendedResolution, if req.needsHighRes then 64 else 32,
                        if req.complexNormals then 4 else 2))
  }

  /** The settings of an object whose slot-0 material has a node tree: 64 samples and 2048
      exactly when there are more than three procedural nodes or a bump/normal-map node. */
  lemma OptimalSettingsHighRes(slots: seq<Option<string>>, materials: map<string, ShaderMaterial>)
    requires FirstSlotMaterial(slots, materials).Some?
    requires var m := FirstSlotMaterial(slots, materials).value; m.useNodes && m.tree.Some?
    ensures var nodes := FirstSlotMaterial(slots, materials).value.tree.value.nodes;
            var s := OptimalBakingSettings(slots, materials).value;
            (s.samples == 64 <==> ProceduralCount(nodes) > 3 || HasComplexNormals(nodes))
            && (s.resolution == 2048 <==> s.samples == 64)
            && (s.margin == 4 <==> HasComplexNormals(nodes))
  {
    RequirementsResolution(FirstSlotMaterial(slots, materials).value);
  }

  // ---------------------------------------------------------------------------------------
  // Copying a node network

  /** The inputs of a copied node, position by position: an unlinked input keeps its default
      value; a linked one is left at the new node's own default (`None`). */
  function CopyInputs(t: ShaderTree, n: ShaderNode): seq<Socket> {
    seq(|n.inputs|, j requires 0 <= j < |n.inputs| =>
      Socket(n.inputs[j].name, if LinkedAt(t, n.name, j) then None else n.inputs[j].defaultValue))
  }

  /** A node created by `nodes.new` with the source node's name, inputs and (for an image
      texture) image. */
  function CopyNode(t: ShaderTree, n: ShaderNode): ShaderNode {
    ShaderNode(n.name, n.kind, if n.kind == TexImage then n.image else None, CopyInputs(t, n))
  }

  function NodeNames(nodes: seq<ShaderNode>): set<string> {
    set n | n in nodes :: n.name
  }

  /** The position of the first input named `socket`, as `inputs[name]` finds it. */
  function FirstInputNamed(inputs: seq<Socket>, socket: string): (r: Option<nat>)
    ensures r.Some? ==> r.value < |inputs| && inputs[r.value].name == socket
                        && forall j :: 0 <= j < r.value ==> inputs[j].name != socket
    ensures r.None? ==> forall j :: 0 <= j < |inputs| ==> inputs[j].name != socket
    decreases |inputs|
  {
    if inputs == [] then None
    else if inputs[0].name == socket then Some(0)
    else match FirstInputNamed(inputs[1..], socket)
      case None => None
      case Some(k) => Some(k + 1)
  }

  /** The position of the input named `socket` of the first node named `node`; a copied node
      has the inputs of its source node, so this is also where `to_node.inputs[name]` lands in
      the copy. */
  function InputIndex(nodes: seq<ShaderNode>, node: string, socket: string): Option<nat>
    decreases |nodes|
  {
    if nodes == [] then None
    else if nodes[0].name == node then FirstInputNamed(nodes[0].inputs, socket)
    else InputIndex(nodes[1..], node, socket)
  }

  /** The copy of one link, re-attached by socket name: `None` when an endpoint node was not
      copied, the input name is missing (a `KeyError`) or the target refuses it (`accepts`
      says whether `links.new` succeeds; the source skips the link otherwise). */
  function CopyLink(t: ShaderTree, names: set<string>, accepts: NamedLink -> bool, l: NamedLink): Option<NamedLink> {
    if l.fromNode in names && l.toNode in names && accepts(l) then
      match InputIndex(t.nodes, l.toNode, l.toSocket)
      case None => None
      case Some(j) => Some(l.(toIndex := j))
    else None
  }

  /** The copied links, in order. */
  function CopiedLinks(t: ShaderTree, links: seq<NamedLink>, names: set<string>, accepts: NamedLink -> bool): seq<NamedLink>
    decreases |links|
  {
    if links == [] then []
    else
      var l := links[|links| - 1];
      CopiedLinks(t, links[..|links| - 1], names, accepts)
      + (match CopyLink(t, names, accepts, l) case Some(c) => [c] case None => [])
  }

  lemma CopiedLinksSnoc(t: ShaderTree, links: seq<NamedLink>, k: nat, names: set<string>, accepts: NamedLink -> bool)
    requires k < |links|
    ensures CopiedLinks(t, links[..k + 1], names, accepts)
            == CopiedLinks(t, links[..k], names, accepts) + (match CopyLink(t, names, accepts, links[k]) case Some(c) => [c] case None => [])
  {
    assert links[..k + 1][..k] == links[..k];
  }

  /** The target tree after `_copy_node_network` into an emptied tree. */
  function CopiedTree(t: ShaderTree, accepts: NamedLink -> bool): ShaderTree {
    ShaderTree(seq(|t.nodes|, i requires 0 <= i < |t.nodes| => CopyNode(t, t.nodes[i])),
               CopiedLinks(t, t.links, NodeNames(t.nodes), accepts))
  }

  /** Every copied link is a source link between two copied nodes that the target accepted,
      re-attached to the first input of its socket's name. */
  lemma {:induction false} CopiedLinksSound(t: ShaderTree, links: seq<NamedLink>, names: set<string>, accepts: NamedLink -> bool)
    ensures forall c :: c in CopiedLinks(t, links, names, accepts) ==>
              exists l :: l in links && l.fromNode in names && l.toNode in names && accepts(l)
                          && InputIndex(t.nodes, l.toNode, l.toSocket) == Some(c.toIndex) && c == l.(toIndex := c.toIndex)
    decreases |links|
  {
    if links != [] {
      var prefix := links[..|links| - 1];
      CopiedLinksSound(t, prefix, names, accepts);
      assert forall l :: l in prefix ==> l in links;
      assert links[|links| - 1] in links;
    }
  }

  /** Links between copied nodes that the target accepts, each already at the first input of
      its name, are all copied unchanged, in order. */
  lemma {:induction false} CopiedLinksComplete(t: ShaderTree, links: seq<NamedLink>, names: set<string>, accepts: NamedLink -> bool)
    requires forall l :: l in links ==>
               l.fromNode in names && l.toNode in names && accepts(l) && InputIndex(t.nodes, l.toNode, l.toSocket) == Some(l.toIndex)
    ensures CopiedLinks(t, links, names, accepts) == links
    decreases |links|
  {
    if links != [] {
      var prefix, last := links[..|links| - 1], links[|links| - 1];
      assert links == prefix + [last];
      assert forall l :: l in prefix ==> l in links;
      CopiedLinksComplete(t, prefix, names, accepts);
      assert last in links;
      assert CopyLink(t, names, accepts, last) == Some(last);
    }
  }

  /** The copy has the source's nodes, by name and type and in order; an input unlinked at its
      position keeps its default and a linked one is left at the new node's default; every
      copied link joins the same nodes and socket names and ends at the first input of that
      name; and when every link joins two nodes of the tree, is accepted and already ends at
      the first input of its name, the links are copied unchanged. */
  lemma CopiedTreeFaithful(t: ShaderTree, accepts: NamedLink -> bool)
    ensures var c := CopiedTree(t, accepts);
            |c.nodes| == |t.nodes|
            && (forall i :: 0 <= i < |t.nodes| ==>
                  c.nodes[i].name == t.nodes[i].name && c.nodes[i].kind == t.nodes[i].kind
                  && |c.nodes[i].inputs| == |t.nodes[i].inputs|)
            && (forall i, j ::
                  (0 <= i < |t.nodes| && 0 <= j < |t.nodes[i].inputs|) ==>
                  c.nodes[i].inputs[j] == (if LinkedAt(t, t.nodes[i].name, j) then Socket(t.nodes[i].inputs[j].name, None)
                                           else t.nodes[i].inputs[j]))
            && (forall n, s :: IsLinked(c, n, s) ==> IsLinked(t, n, s))
            && (forall l :: l in c.links ==> InputIndex(t.nodes, l.toNode, l.toSocket) == Some(l.toIndex))
    ensures (forall l :: l in t.links ==> l.fromNode in NodeNames(t.nodes) && l.toNode in NodeNames(t.nodes) && accepts(l)
                                          && InputIndex(t.nodes, l.toNode, l.toSocket) == Some(l.toIndex))
            ==> CopiedTree(t, accepts).links == t.links
  {
    var c := CopiedTree(t, accepts);
    CopiedLinksSound(t, t.links, NodeNames(t.nodes), accepts);
    forall n, s | IsLinked(c, n, s) ensures IsLinked(t, n, s) {
      var k :| k in c.links && k.toNode == n && k.toSocket == s;
      var l :| l in t.links && k == l.(toIndex := k.toIndex);
    }
    if forall l :: l in t.links ==> l.fromNode in NodeNames(t.nodes) && l.toNode in NodeNames(t.nodes) && accepts(l)
                                    && InputIndex(t.nodes, l.toNode, l.toSocket) == Some(l.toIndex) {
      CopiedLinksComplete(t, t.links, NodeNames(t.nodes), accepts);
    }
  }

  /** `_copy_node_properties`: the input defaults copied one socket position at a time. */
  method CopyNodeProperties(t: ShaderTree, n: ShaderNode) returns (inputs: seq<Socket>)
    ensures inputs == CopyInputs(t, n)
  {
    inputs := [];
    var j := 0;
    while j < |n.inputs|
      invariant 0 <= j <= |n.inputs|
      invariant inputs == CopyInputs(t, n)[..j]
    {
      var s := n.inputs[j];
      var value := if LinkedAt(t, n.name, j) then None else s.defaultValue;
      inputs := inputs + [Socket(s.name, value)];
      j := j + 1;
    }
  }

  /** The node loop of `ChannelIsolator._copy_node_network`: each node is created with its
      type, its image for an image texture, and its copied inputs, and entered in the mapping
      by name. */
  method CopyNodes(source: ShaderTree) returns (nodes: seq<ShaderNode>, mapping: set<string>)
    ensures nodes == CopiedTree(source, _ => true).nodes
    ensures mapping == NodeNames(source.nodes)
  {
    nodes, mapping := [], {};
    var i := 0;
    while i < |source.nodes|
      invariant 0 <= i <= |source.nodes|
      invariant |nodes| == i && forall k :: 0 <= k < i ==> nodes[k] == CopyNode(source, source.nodes[k])
      invariant mapping == NodeNames(source.nodes[..i])
    {
      var n := source.nodes[i];
      var inputs := CopyNodeProperties(source, n);
      nodes := nodes + [ShaderNode(n.name, n.kind, if n.kind == TexImage then n.image else None, inputs)];
      assert source.nodes[..i + 1] == source.nodes[..i] + [n];
      mapping := mapping + {n.name};
      i := i + 1;
    }
    assert source.nodes[..i] == source.nodes;
  }

  /** `ChannelIsolator._copy_node_network`: every node copied, then every link between copied
      nodes that the target accepts. */
  method CopyNodeNetwork(source: ShaderTree, accepts: NamedLink -> bool) returns (target: ShaderTree)
    ensures target == CopiedTree(source, accepts)
  {
    var nodes, mapping := CopyNodes(source);
    var links: seq<NamedLink> := [];
    var k := 0;
    while k < |source.links|
      invariant 0 <= k <= |source.links|
      invariant links == CopiedLinks(source, source.links[..k], mapping, accepts)
    {
      var l := source.links[k];
      CopiedLinksSnoc(source, source.links, k, mapping, accepts);
      if l.fromNode in mapping && l.toNode in mapping && accepts(l) {
        var at := InputIndex(source.nodes, l.toNode, l.toSocket);
        if at.Some? {
          links := links + [l.(toIndex := at.value)];
        }
      }
      k := k + 1;
    }
    assert source.links[..k] == source.links;
    target := ShaderTree(nodes, links);
  }

  // ---------------------------------------------------------------------------------------
  // Material backup

  /** The backup of one node: its type and the default of each unlinked input by socket name. */
  datatype NodeRecord = NodeRecord(kind: NodeType, inputs: map<string, Option<string>>)

  /** The backup of a material: its nodes by name and every link. */
  datatype Backup = Backup(nodes: map<string, NodeRecord>, links: seq<NamedLink>)

  /** The unlinked inputs of node `node` by name, `inputs` being the node's inputs from the
      first on (so the last one sits at position `|inputs| - 1`); a later unlinked socket of
      the same name overwrites an earlier one. */
  function InputRecords(t: ShaderTree, node: string, inputs: seq<Socket>): map<string, Option<string>>
    decreases |inputs|
  {
    if inputs == [] then map[]
    else
      var s := inputs[|inputs| - 1];
      var m := InputRecords(t, node, inputs[..|inputs| - 1]);
      if LinkedAt(t, node, |inputs| - 1) then m else m[s.name := s.defaultValue]
  }

  /** A name is recorded exactly when some input of that name is unlinked, and its record is
      the default of the last unlinked input of that name. */
  lemma InputRecordsExactly(t: ShaderTree, node: string, inputs: seq<Socket>)
    ensures forall k :: k in InputRecords(t, node, inputs) <==>
              exists j :: 0 <= j < |inputs| && inputs[j].name == k && !LinkedAt(t, node, j)
    ensures forall k :: k in InputRecords(t, node, inputs) ==>
              exists j :: 0 <= j < |inputs| && inputs[j].name == k && !LinkedAt(t, node, j)
                          && InputRecords(t, node, inputs)[k] == inputs[j].defaultValue
                          && forall j' :: j < j' < |inputs| && inputs[j'].name == k ==> LinkedAt(t, node, j')
  {
    InputRecordsCover(t, node, inputs);
    InputRecordsLast(t, node, inputs);
  }

  /** Every name of an unlinked input is recorded. */
  lemma {:induction false} InputRecordsCover(t: ShaderTree, node: string, inputs: seq<Socket>)
    ensures forall k :: (exists j :: 0 <= j < |inputs| && inputs[j].name == k && !LinkedAt(t, node, j))
                        ==> k in InputRecords(t, node, inputs)
    decreases |inputs|
  {
    if inputs != [] {
      var n := |inputs| - 1;
      var prefix := inputs[..n];
      InputRecordsCover(t, node, prefix);
      var m := InputRecords(t, node, prefix);
      var r := InputRecords(t, node, inputs);
      assert r == if LinkedAt(t, node, n) then m else m[inputs[n].name := inputs[n].defaultValue];
      forall k | exists j :: 0 <= j < |inputs| && inputs[j].name == k && !LinkedAt(t, node, j)
        ensures k in r
      {
        var j :| 0 <= j < |inputs| && inputs[j].name == k && !LinkedAt(t, node, j);
        if j < n {
          assert prefix[j].name == k && !LinkedAt(t, node, j);
          assert k in m;
        }
      }
    }
  }

  /** A recorded name holds the default of the last unlinked input of that name. */
  lemma {:induction false} InputRecordsLast(t: ShaderTree, node: string, inputs: seq<Socket>)
    ensures forall k :: k in InputRecords(t, node, inputs) ==>
              exists j :: 0 <= j < |inputs| && inputs[j].name == k && !LinkedAt(t, node, j)
                          && InputRecords(t, node, inputs)[k] == inputs[j].defaultValue
                          && forall j' :: j < j' < |inputs| && inputs[j'].name == k ==> LinkedAt(t, node, j')
    decreases |inputs|
  {
    if inputs != [] {
      var n := |inputs| - 1;
      var prefix := inputs[..n];
      InputRecordsLast(t, node, prefix);
      var m := InputRecords(t, node, prefix);
      var r := InputRecords(t, node, inputs);
      assert r == if LinkedAt(t, node, n) then m else m[inputs[n].name := inputs[n].defaultValue];
      forall k | k in r
        ensures exists j :: 0 <= j < |inputs| && inputs[j].name == k && !LinkedAt(t, node, j)
                            && r[k] == inputs[j].defaultValue
                            && forall j' :: j < j' < |inputs| && inputs[j'].name == k ==> LinkedAt(t, node, j')
      {
        if !LinkedAt(t, node, n) && inputs[n].name == k {
          assert r[k] == inputs[n].defaultValue;
        } else {
          assert k in m && r[k] == m[k];
          var j :| 0 <= j < |prefix| && prefix[j].name == k && !LinkedAt(t, node, j)
                   && r[k] == prefix[j].defaultValue
                   && forall j' :: j < j' < |prefix| && prefix[j'].name == k ==> LinkedAt(t, node, j');
          assert forall j' :: j < j' < |inputs| && inputs[j'].name == k ==> LinkedAt(t, node, j');
        }
      }
    }
  }

  function NodeRecordOf(t: ShaderTree, n: ShaderNode): NodeRecord {
    NodeRecord(n.kind, InputRecords(t, n.name, n.inputs))
  }

  /** The node records by name; a later node of the same name wins. */
  function NodeRecords(t: ShaderTree, nodes: seq<ShaderNode>): map<string, NodeRecord>
    decreases |nodes|
  {
    if nodes == [] then map[]
    else
      var n := nodes[|nodes| - 1];
      NodeRecords(t, nodes[..|nodes| - 1])[n.name := NodeRecordOf(t, n)]
  }

  /** Every node is recorded under its name, and each record is that of a node of the name. */
  lemma {:induction false} NodeRecordsExactly(t: ShaderTree, nodes: seq<ShaderNode>)
    ensures NodeRecords(t, nodes).Keys == NodeNames(nodes)
    ensures forall k :: k in NodeRecords(t, nodes) ==>
              exists n :: n in nodes && n.name == k && NodeRecords(t, nodes)[k] == NodeRecordOf(t, n)
    decreases |nodes|
  {
    if nodes != [] {
      var prefix := nodes[..|nodes| - 1];
      NodeRecordsExactly(t, prefix);
      assert nodes == prefix + [nodes[|nodes| - 1]];
      assert NodeNames(nodes) == NodeNames(prefix) + {nodes[|nodes| - 1].name};
    }
  }

  function BackupOf(t: ShaderTree): Backup {
    Backup(NodeRecords(t, t.nodes), t.links)
  }

  /** The backups after `backup_material(m)`: unchanged without a node tree in use. */
  function BackedUp(backups: map<string, Backup>, m: ShaderMaterial): map<string, Backup> {
    if !m.useNodes || m.tree.None? then backups else backups[m.name := BackupOf(m.tree.value)]
  }

  /** `MaterialBackup`: the backups of node trees by material name. */
  class MaterialBackup {
    var backups: map<string, Backup>

    constructor()
      ensures backups == map[]
    {
      backups := map[];
    }

    /** The inner loop of `backup_material`: the default of each unlinked input. */
    static method RecordInputs(t: ShaderTree, n: ShaderNode) returns (inputs: map<string, Option<string>>)
      ensures inputs == InputRecords(t, n.name, n.inputs)
    {
      inputs := map[];
      var j := 0;
      while j < |n.inputs|
        invariant 0 <= j <= |n.inputs|
        invariant inputs == InputRecords(t, n.name, n.inputs[..j])
      {
        var s := n.inputs[j];
        assert n.inputs[..j + 1][..j] == n.inputs[..j];
        if !LinkedAt(t, n.name, j) {
          inputs := inputs[s.name := s.defaultValue];
        }
        j := j + 1;
      }
      assert n.inputs[..j] == n.inputs;
    }

    /** `backup_material`: a material with a node tree in use gets a fresh backup of its nodes
        and links; other backups stay. */
    method BackupMaterial(m: ShaderMaterial)
      modifies this
      ensures backups == BackedUp(old(backups), m)
    {
      if !m.useNodes || m.tree.None? {
        return;
      }
      var t := m.tree.value;
      var nodes: map<string, NodeRecord> := map[];
      var i := 0;
      while i < |t.nodes|
        invariant 0 <= i <= |t.nodes|
        invariant nodes == NodeRecords(t, t.nodes[..i])
        invariant backups == old(backups)
      {
        var n := t.nodes[i];
        assert t.nodes[..i + 1][..i] == t.nodes[..i];
        var inputs := RecordInputs(t, n);
        nodes := nodes[n.name := NodeRecord(n.kind, inputs)];
        i := i + 1;
      }
      assert t.nodes[..i] == t.nodes;
      assert nodes == NodeRecords(t, t.nodes);
      var links: seq<NamedLink> := [];
      var k := 0;
      while k < |t.links|
        invariant 0 <= k <= |t.links|
        invariant links == t.links[..k]
        invariant backups == old(backups)
      {
        links := links + [t.links[k]];
        k := k + 1;
      }
      assert links == t.links;
      assert Backup(nodes, links) == BackupOf(t);
      backups := backups[m.name := Backup(nodes, links)];

    }
  }

  // ---------------------------------------------------------------------------------------
  // Isolation materials and their record table

  /** The name requested for the temporary isolation material of a channel. */
  function TempName(channel: string, original: string): string {
    "TEMP_BAKE_" + channel + "_" + original
  }

  /** The name `bpy.data.materials.new` gives the temporary material: the requested name, or a
      suffixed one when a material of that name exists. */
  function TempMaterialName(channel: string, original: string, taken: set<string>): (r: string)
    ensures r !in taken
    ensures StartsWith(r, TempName(channel, original))
    ensures TempName(channel, original) !in taken ==> r == TempName(channel, original)
  {
    Scene.FreshName(TempName(channel, original), taken)
  }

  function FirstPrincipled(nodes: seq<ShaderNode>): (r: Option<nat>)
    ensures r.Some? ==> r.value < |nodes| && nodes[r.value].kind == BsdfPrincipled
    ensures r.None? ==> forall i :: 0 <= i < |nodes| ==> nodes[i].kind != BsdfPrincipled
    decreases |nodes|
  {
    if nodes == [] then None
    else if nodes[0].kind == BsdfPrincipled then Some(0)
    else match FirstPrincipled(nodes[1..])
      case None => None
      case Some(k) => Some(k + 1)
  }

  /** `create_isolation_material`: none without a node tree in use or a Principled BSDF node;
      otherwise a new node-based material, under a name no material in `taken` has, holding
      a copy of the original's network. */
  function IsolationMaterial(m: ShaderMaterial, channel: string, accepts: NamedLink -> bool, taken: set<string>): (r: Option<ShaderMaterial>)
    ensures r.Some? <==> m.useNodes && m.tree.Some? && FirstPrincipled(m.tree.value.nodes).Some?
    ensures r.Some? ==> r.value.name == TempMaterialName(channel, m.name, taken) && r.value.name !in taken
                        && r.value.useNodes && r.value.tree == Some(CopiedTree(m.tree.value, accepts))
  {
    if !m.useNodes || m.tree.None? || FirstPrincipled(m.tree.value.nodes).None? then None
    else Some(ShaderMaterial(TempMaterialName(channel, m.name, taken), true, Some(CopiedTree(m.tree.value, accepts))))
  }

  /** What an isolation record remembers: the original material and the temporary one. */
  datatype TempRecord = TempRecord(original: string, temp: string)

  /** The baking-relevant state: the isolator's records, each object's material slots, and the
      materials of `bpy.data.materials` by name. */
  datatype BakeState = BakeState(records: map<string, TempRecord>, slots: map<string, seq<Option<string>>>,
                                 materials: map<string, ShaderMaterial>)

  /** Every recorded object that still exists has a slot 0 to restore. */
  predicate Consistent(s: BakeState) {
    forall k :: k in s.records && k in s.slots ==> |s.slots[k]| > 0
  }

  /** Two slot tables with the same objects and the same number of slots each. */
  predicate SameShape(a: map<string, seq<Option<string>>>, b: map<string, seq<Option<string>>>) {
    a.Keys == b.Keys && forall k :: k in a ==> |a[k]| == |b[k]|
  }

  function SetFirstSlot(slots: map<string, seq<Option<string>>>, obj: string, m: Option<string>): (r: map<string, seq<Option<string>>>)
    requires obj in slots && |slots[obj]| > 0
    ensures SameShape(r, slots) && r[obj][0] == m && r[obj][1..] == slots[obj][1..]
    ensures forall k :: k in slots && k != obj ==> r[k] == slots[k]
  {
    slots[obj := [m] + slots[obj][1..]]
  }

  /** Removing a material from `bpy.data.materials` empties every slot that held it. */
  function RemoveMaterial(s: BakeState, name: string): (r: BakeState)
    ensures r.records == s.records && SameShape(r.slots, s.slots) && r.materials == s.materials - {name}
    ensures forall k, j :: k in s.slots && 0 <= j < |s.slots[k]| ==>
              r.slots[k][j] == if s.slots[k][j] == Some(name) then None else s.slots[k][j]
  {
    var slots := map k | k in s.slots ::
      seq(|s.slots[k]|, j requires 0 <= j < |s.slots[k]| => if s.slots[k][j] == Some(name) then None else s.slots[k][j]);
    BakeState(s.records, slots, s.materials - {name})
  }

  /** `restore_original_material`: a recorded object gets its original material back in slot 0,
      the temporary material is removed and the record dropped; otherwise nothing changes. */
  function Restore(s: BakeState, obj: string): (r: BakeState)
    requires obj in s.slots && Consistent(s)
    ensures obj !in r.records && SameShape(r.slots, s.slots) && Consistent(r)
    ensures obj !in s.records ==> r == s
    ensures obj in s.records ==> r.records == s.records - {obj}
  {
    if obj !in s.records then s
    else
      var rec := s.records[obj];
      var placed := s.(slots := SetFirstSlot(s.slots, obj, Some(rec.original)));
      var removed := RemoveMaterial(placed, rec.temp);
      removed.(records := s.records - {obj})
  }

  /** The isolation material `apply_isolation_material` would create for `obj`, if any. */
  function MadeFor(s: BakeState, obj: string, channel: string, accepts: NamedLink -> bool): Option<ShaderMaterial>
    requires obj in s.slots
  {
    match FirstSlotMaterial(s.slots[obj], s.materials)
    case None => None
    case Some(m) => IsolationMaterial(m, channel, accepts, s.materials.Keys)
  }

  /** `apply_isolation_material`: the state afterwards and the isolation material's name.
      `setupRaises` says whether `_setup_channel_isolation` raises once the temporary material
      exists: the exception then leaves that material in `bpy.data.materials`, unrecorded and
      in no slot, and no name is returned. */
  function Apply(s: BakeState, obj: string, channel: string, accepts: NamedLink -> bool, setupRaises: bool): (r: (BakeState, Option<string>))
    requires obj in s.slots
  {
    match MadeFor(s, obj, channel, accepts)
    case None => (s, None)
    case Some(iso) =>
      if setupRaises then (s.(materials := s.materials[iso.name := iso]), None)
      else
        (BakeState(s.records[obj := TempRecord(s.slots[obj][0].value, iso.name)],
                   SetFirstSlot(s.slots, obj, Some(iso.name)),
                   s.materials[iso.name := iso]),
         Some(iso.name))
  }

  /** Applying keeps the slot shapes and consistency. Without an isolation material nothing
      changes; when its setup raises, only the new material is added; otherwise the record
      remembers the slot-0 material and the new one, which now fills slot 0. The new material's
      name was free before. */
  lemma ApplyRecords(s: BakeState, obj: string, channel: string, accepts: NamedLink -> bool, setupRaises: bool)
    requires obj in s.slots && Consistent(s)
    ensures var (r, iso) := Apply(s, obj, channel, accepts, setupRaises);
            SameShape(r.slots, s.slots) && Consistent(r)
            && (MadeFor(s, obj, channel, accepts).None? ==> r == s && iso.None?)
            && (MadeFor(s, obj, channel, accepts).Some? ==>
                  var made := MadeFor(s, obj, channel, accepts).value;
                  made.name !in s.materials && r.materials == s.materials[made.name := made]
                  && (setupRaises ==> iso.None? && r.records == s.records && r.slots == s.slots)
                  && (!setupRaises ==>
                        iso == Some(made.name)
                        && r.records == s.records[obj := TempRecord(s.slots[obj][0].value, made.name)]
                        && r.slots[obj][0] == Some(made.name)))
  {
  }

  /** Every slot names a material of the scene, as Blender's slots do. */
  predicate SlotsResolve(s: BakeState) {
    forall k, j :: k in s.slots && 0 <= j < |s.slots[k]| && s.slots[k][j].Some? ==> s.slots[k][j].value in s.materials
  }

  /** Applying an isolation material and restoring it gives back the state before for an object
      without a record; when the setup raised, the temporary material stays behind. */
  lemma ApplyRestoreRoundTrip(s: BakeState, obj: string, channel: string, accepts: NamedLink -> bool, setupRaises: bool)
    requires obj in s.slots && Consistent(s) && obj !in s.records && SlotsResolve(s)
    ensures var (r, _) := Apply(s, obj, channel, accepts, setupRaises);
            Consistent(r)
            && (MadeFor(s, obj, channel, accepts).None? || !setupRaises ==> Restore(r, obj) == s)
            && (MadeFor(s, obj, channel, accepts).Some? && setupRaises ==>
                  var made := MadeFor(s, obj, channel, accepts).value;
                  Restore(r, obj) == s.(materials := s.materials[made.name := made]))
  {
    var (r, iso) := Apply(s, obj, channel, accepts, setupRaises);
    ApplyRecords(s, obj, channel, accepts, setupRaises);
    if iso.Some? {
      var made := MadeFor(s, obj, channel, accepts).value;
      RestoreUndoesApply(s, obj, r, made);
    }
  }

  /** Restoring an object whose slot 0 was given a fresh material, with a record of the
      material it held, gives back the state before. */
  lemma RestoreUndoesApply(s: BakeState, obj: string, r: BakeState, made: ShaderMaterial)
    requires obj in s.slots && |s.slots[obj]| > 0 && s.slots[obj][0].Some?
    requires Consistent(s) && obj !in s.records && SlotsResolve(s) && made.name !in s.materials
    requires r == BakeState(s.records[obj := TempRecord(s.slots[obj][0].value, made.name)],
                            SetFirstSlot(s.slots, obj, Some(made.name)), s.materials[made.name := made])
    ensures Consistent(r) && Restore(r, obj) == s
  {
    var placed := r.(slots := SetFirstSlot(r.slots, obj, s.slots[obj][0]));
    SetFirstTwice(s.slots, obj, Some(made.name));
    assert placed.slots == s.slots;
    RemoveAbsent(placed, made.name);
    assert r.materials - {made.name} == s.materials;
    assert r.records - {obj} == s.records;
  }

  /** Setting slot 0 and then setting it back to what it held gives the slots before. */
  lemma SetFirstTwice(slots: map<string, seq<Option<string>>>, obj: string, m: Option<string>)
    requires obj in slots && |slots[obj]| > 0
    ensures SetFirstSlot(SetFirstSlot(slots, obj, m), obj, slots[obj][0]) == slots
  {
    assert [slots[obj][0]] + slots[obj][1..] == slots[obj];
  }

  /** Removing a material no slot holds leaves every slot as it was. */
  lemma RemoveAbsent(s: BakeState, name: string)
    requires forall k, j :: k in s.slots && 0 <= j < |s.slots[k]| ==> s.slots[k][j] != Some(name)
    ensures RemoveMaterial(s, name).slots == s.slots
  {
    var r := RemoveMaterial(s, name);
    forall k | k in s.slots ensures r.slots[k] == s.slots[k] {
      assert |r.slots[k]| == |s.slots[k]|;
    }
  }

  /** The objects' material slots and the materials of the scene. */
  class BakeScene {
    var slots: map<string, seq<Option<string>>>
    var materials: map<string, ShaderMaterial>

    constructor(slots: map<string, seq<Option<string>>>, materials: map<string, ShaderMaterial>)
      ensures this.slots == slots && this.materials == materials
    {
      this.slots := slots;
      this.materials := materials;
    }
  }

  /** `ChannelIsolator`: the temporary-material records by object name, and the material
      backup it fills before creating an isolation material. */
  class ChannelIsolator {
    var tempMaterials: map<string, TempRecord>
    const backup: MaterialBackup

    constructor()
      ensures tempMaterials == map[] && fresh(backup) && backup.backups == map[]
    {
      tempMaterials := map[];
      backup := new MaterialBackup();
    }

    function State(scene: BakeScene): BakeState
      reads this, scene
    {
      BakeState(tempMaterials, scene.slots, scene.materials)
    }

    /** `create_isolation_material`, with the network copied node by node into a material
        named afresh among `taken`. */
    static method CreateIsolationMaterial(m: ShaderMaterial, channel: string, accepts: NamedLink -> bool, taken: set<string>)
      returns (r: Option<ShaderMaterial>)
      ensures r == IsolationMaterial(m, channel, accepts, taken)
    {
      if !m.useNodes || m.tree.None? {
        return None;
      }
      var principled := FirstPrincipled(m.tree.value.nodes);
      if principled.None? {
        return None;
      }
      var copy := CopyNodeNetwork(m.tree.value, accepts);
      return Some(ShaderMaterial(TempMaterialName(channel, m.name, taken), true, Some(copy)));
    }

    /** `apply_isolation_material`: the original slot-0 material is backed up, and when an
        isolation material is created it is added to the materials; unless its setup raises
        (`raised`), it takes slot 0 and is recorded. */
    method ApplyIsolationMaterial(scene: BakeScene, obj: string, channel: string, accepts: NamedLink -> bool, setupRaises: bool)
      returns (iso: Option<string>, raised: bool)
      requires obj in scene.slots
      modifies this, backup, scene
      ensures (State(scene), iso) == Apply(old(State(scene)), obj, channel, accepts, setupRaises)
      ensures raised <==> setupRaises && MadeFor(old(State(scene)), obj, channel, accepts).Some?
      ensures var first := FirstSlotMaterial(old(scene.slots[obj]), old(scene.materials));
              backup.backups == if first.None? then old(backup.backups) else BackedUp(old(backup.backups), first.value)
    {
      var slots := scene.slots[obj];
      var first := FirstSlotMaterial(slots, scene.materials);
      if first.None? {
        return None, false;
      }
      var original := first.value;
      backup.BackupMaterial(original);
      var made := CreateIsolationMaterial(original, channel, accepts, scene.materials.Keys);
      if made.None? {
        return None, false;
      }
      var isoMat := made.value;
      scene.materials := scene.materials[isoMat.name := isoMat];
      if setupRaises {
        return None, true;
      }
      scene.slots := SetFirstSlot(scene.slots, obj, Some(isoMat.name));
      tempMaterials := tempMaterials[obj := TempRecord(slots[0].value, isoMat.name)];
      return Some(isoMat.name), false;
    }

    /** `restore_original_material`. */
    method RestoreOriginalMaterial(scene: BakeScene, obj: string)
      requires obj in scene.slots && Consistent(State(scene))
      modifies this, scene
      ensures State(scene) == Restore(old(State(scene)), obj)
    {
      if obj in tempMaterials {
        var rec := tempMaterials[obj];
        var placed := State(scene).(slots := SetFirstSlot(scene.slots, obj, Some(rec.original)));
        var removed := RemoveMaterial(placed, rec.temp);
        scene.slots := removed.slots;
        scene.materials := removed.materials;
        tempMaterials := tempMaterials - {obj};
      }
    }

    /** `cleanup_all`: the records are visited in `order` (the dictionary's order) and the
        objects that still exist are restored. */
    method CleanupAll(scene: BakeScene, order: seq<string>)
      requires forall k :: k in order <==> k in tempMaterials
      requires Consistent(State(scene))
      modifies this, scene
      ensures State(scene) == CleanedUp(old(State(scene)), order)
    {
      ghost var s0 := State(scene);
      var i := 0;
      while i < |order|
        invariant 0 <= i <= |order|
        invariant State(scene) == CleanedUp(s0, order[..i])
      {
        CleanupAt(scene, order, i, s0);
        i := i + 1;
      }
      assert order[..i] == order;
    }

    /** One record of `cleanup_all`: the object `order[i]` is restored if it still exists. */
    method CleanupAt(scene: BakeScene, order: seq<string>, i: nat, ghost s0: BakeState)
      requires Consistent(s0) && i < |order|
      requires State(scene) == CleanedUp(s0, order[..i])
      modifies this, scene
      ensures State(scene) == CleanedUp(s0, order[..i + 1])
    {
      CleanedUpSnoc(s0, order, i);
      if order[i] in scene.slots {
        RestoreOriginalMaterial(scene, order[i]);
      }
    }
  }

  /** The state after restoring, in order, each listed object that still exists. Cleaning up
      keeps the objects and their slot counts, and keeps consistency. */
  function CleanedUp(s: BakeState, order: seq<string>): (r: BakeState)
    requires Consistent(s)
    ensures SameShape(r.slots, s.slots) && Consistent(r)
    decreases |order|
  {
    if order == [] then s
    else
      var prefix := CleanedUp(s, order[..|order| - 1]);
      var obj := order[|order| - 1];
      if obj in prefix.slots then Restore(prefix, obj) else prefix
  }

  lemma CleanedUpSnoc(s: BakeState, order: seq<string>, i: nat)
    requires Consistent(s) && i < |order|
    ensures var prefix := CleanedUp(s, order[..i]);
            CleanedUp(s, order[..i + 1]) == if order[i] in prefix.slots then Restore(prefix, order[i]) else prefix
  {
    assert order[..i + 1][..i] == order[..i];
  }

  /** The records of `recs` not dropped for a listed object that still exists. */
  function KeptRecords(recs: map<string, TempRecord>, order: seq<string>, existing: set<string>): map<string, TempRecord> {
    map k | k in recs && !(k in order && k in existing) :: recs[k]
  }

  lemma KeptRecordsSnoc(recs: map<string, TempRecord>, prefix: seq<string>, last: string, existing: set<string>)
    ensures KeptRecords(recs, prefix + [last], existing)
            == KeptRecords(recs, prefix, existing) - (if last in existing then {last} else {})
  {
    assert forall k :: k in prefix + [last] <==> k in prefix || k == last;
  }

  /** Cleaning up drops exactly the records of listed objects that still exist. */
  lemma {:induction false} CleanedUpRecords(s: BakeState, order: seq<string>)
    requires Consistent(s)
    ensures CleanedUp(s, order).records == KeptRecords(s.records, order, s.slots.Keys)
    decreases |order|
  {
    if order == [] {
      assert KeptRecords(s.records, order, s.slots.Keys) == s.records;
    } else {
      var prefix, last := order[..|order| - 1], order[|order| - 1];
      assert order == prefix + [last];
      CleanedUpRecords(s, prefix);
      KeptRecordsSnoc(s.records, prefix, last, s.slots.Keys);
      var p := CleanedUp(s, prefix);
      assert p.slots.Keys == s.slots.Keys;
      if last in p.slots {
        assert CleanedUp(s, order) == Restore(p, last);
        assert CleanedUp(s, order).records == p.records - {last};
      } else {
        assert CleanedUp(s, order) == p;
      }
    }
  }

  /** After `cleanup_all` the only records left are those of objects that no longer exist, and
      they are left untouched. */
  lemma CleanupKeepsVanished(s: BakeState, order: seq<string>)
    requires Consistent(s) && forall k :: k in order <==> k in s.records
    ensures CleanedUp(s, order).records == map k | k in s.records && k !in s.slots :: s.records[k]
  {
    CleanedUpRecords(s, order);
    assert KeptRecords(s.records, order, s.slots.Keys) == map k | k in s.records && k !in s.slots :: s.records[k];
  }

  /** The name of the image a bake writes. */
  function BakeImageName(obj: string, channel: string, resolution: nat): string {
    "BAKE_" + obj + "_" + channel + "_" + NatToString(resolution)
  }

  /** `AdaptiveBaker`, with its channel isolator. */
  class AdaptiveBaker {
    const isolator: ChannelIsolator

    constructor()
      ensures fresh(isolator) && fresh(isolator.backup)
      ensures isolator.tempMaterials == map[] && isolator.backup.backups == map[]
    {
      isolator := new ChannelIsolator();
    }

    /** `bake_channel_with_isolation`: `setupRaises` says whether the isolation setup raised,
        `raises` whether unwrapping, image creation or the bake raised after the isolation
        material was applied. Whatever happens, the object's record is restored away at the
        end; a raising setup leaves its temporary material behind. */
    method BakeChannelWithIsolation(scene: BakeScene, obj: string, channel: string, resolution: nat,
                                    accepts: NamedLink -> bool, setupRaises: bool, raises: bool)
      returns (image: Option<string>)
      requires obj in scene.slots && Consistent(isolator.State(scene))
      modifies isolator, isolator.backup, scene
      ensures obj !in isolator.tempMaterials && Consistent(isolator.State(scene))
      ensures var (applied, iso) := Apply(old(isolator.State(scene)), obj, channel, accepts, setupRaises);
              Consistent(applied) && isolator.State(scene) == Restore(applied, obj)
              && image == if iso.None? || raises then None else Some(BakeImageName(obj, channel, resolution))
    {
      ghost var before := isolator.State(scene);
      ApplyRecords(before, obj, channel, accepts, setupRaises);
      var iso, _ := isolator.ApplyIsolationMaterial(scene, obj, channel, accepts, setupRaises);
      if iso.None? || raises {
        image := None;
      } else {
        image := Some(BakeImageName(obj, channel, resolution));
      }
      isolator.RestoreOriginalMaterial(scene, obj);
    }

    /** `AdaptiveBaker.cleanup`. */
    method Cleanup(scene: BakeScene, order: seq<string>)
      requires forall k :: k in order <==> k in isolator.tempMaterials
      requires Consistent(isolator.State(scene))
      modifies isolator, scene
      ensures isolator.State(scene) == CleanedUp(old(isolator.State(scene)), order)
    {
      isolator.CleanupAll(scene, order);
    }
  }
}
