/** Dependency management: which declared packages are missing, the order in which the
    install operator installs them, and how it tallies the outcome. `pip` itself and the
    Python import system are oracles: the set of importable module names and a per-package
    install outcome. */
module Dependencies {
  import opened Wrappers
  import opened Strings

  datatype Dependency = Dependency(key: string, name: string, description: string,
                                   requiredFor: seq<string>, optional: Option<bool>, installOrder: Option<int>)

  /** `REQUIRED_DEPENDENCIES`, in its declaration order. */
  const Required: seq<Dependency> := [
    Dependency("trimesh", "trimesh", "Fast mesh decimation and repair",
               ["mesh_repair", "fast_decimation"], Some(false), Some(1)),
    Dependency("scipy", "scipy", "Scientific computing (required for quadric decimation)",
               ["fast_decimation"], Some(false), Some(2)),
    Dependency("networkx", "networkx", "Graph algorithms (for mesh normals, hole filling, watertight)",
               ["mesh_repair"], Some(true), Some(3)),
    Dependency("fast_simplification", "fast-simplification", "Fast mesh simplification for Trimesh",
               ["fast_decimation"], Some(false), Some(4))
  ]

  function Underscore(c: char): char {
    if c == '-' then '_' else c
  }

  /** The import name of a pip package: every `-` becomes `_`. */
  function ImportName(package: string): (r: string)
    ensures |r| == |package|
    ensures forall i :: 0 <= i < |r| ==> r[i] == Underscore(package[i])
    decreases |package|
  {
    if package == [] then [] else [Underscore(package[0])] + ImportName(package[1..])
  }

  predicate CheckPackageInstalled(package: string, importable: set<string>) {
    ImportName(package) in importable
  }

  datatype Status = Status(key: string, installed: bool, name: string, description: string,
                           requiredFor: seq<string>, optional: bool)

  function StatusOf(d: Dependency, importable: set<string>): (r: Status)
    ensures r.key == d.key && r.name == d.name && r.optional == (d.optional == Some(true))
    ensures r.installed <==> ImportName(d.name) in importable
  {
    Status(d.key, CheckPackageInstalled(d.name, importable), d.name, d.description, d.requiredFor,
           d.optional.GetOr(false))
  }

  /** `check_all_dependencies`: one status per declared dependency, in order. */
  function CheckAll(deps: seq<Dependency>, importable: set<string>): (r: seq<Status>)
    ensures |r| == |deps|
    ensures forall i :: 0 <= i < |deps| ==> r[i] == StatusOf(deps[i], importable)
    decreases |deps|
  {
    if deps == [] then [] else [StatusOf(deps[0], importable)] + CheckAll(deps[1..], importable)
  }

  /** `get_missing_dependencies`: keys of the non-optional statuses that are not installed. */
  function Missing(status: seq<Status>): (r: seq<string>)
    ensures forall k :: k in r <==> exists i :: 0 <= i < |status| && status[i].key == k
                                              && !status[i].installed && !status[i].optional
    ensures |r| <= |status|
    decreases |status|
  {
    if status == [] then []
    else
      var rest := Missing(status[1..]);
      assert forall i :: 1 <= i < |status| ==> status[i] == status[1..][i - 1];
      MissingOne(status[0]) + rest
  }

  function GetMissing(importable: set<string>): seq<string> {
    Missing(CheckAll(Required, importable))
  }

  /** An import name never contains `-`, and a name without `-` is its own import name. */
  lemma ImportNameFacts(s: string)
    ensures '-' !in ImportName(s)
    ensures '-' !in s ==> ImportName(s) == s
  {
    if '-' !in s {
      assert forall i :: 0 <= i < |s| ==> ImportName(s)[i] == s[i];
    }
  }

  lemma {:induction false} ImportNameConcat(a: string, b: string)
    ensures ImportName(a + b) == ImportName(a) + ImportName(b)
  {
    assert forall i :: 0 <= i < |a| ==> (a + b)[i] == a[i];
    assert forall i :: |a| <= i < |a + b| ==> (a + b)[i] == b[i - |a|];
  }

  lemma ImportNameDashJoin(a: string, b: string)
    requires '-' !in a && '-' !in b
    ensures ImportName(a + "-" + b) == a + "_" + b
  {
    ImportNameFacts(a);
    ImportNameFacts(b);
    ImportNameConcat(a, "-");
    ImportNameConcat(a + "-", b);
    assert ImportName("-") == "_";
  }

  /** The one declared pip name with a dash imports under its key. */
  lemma ImportNameOfFastSimplification()
    ensures ImportName("fast-simplification") == "fast_simplification"
  {
    SpelledInThreeParts();
    ImportNameDashJoin("fast", "simplification");
  }

  lemma SpelledInThreeParts()
    ensures "fast" + "-" + "simplification" == "fast-simplification"
    ensures "fast" + "_" + "simplification" == "fast_simplification"
  {
    var dashed, underscored := "fast" + "-" + "simplification", "fast" + "_" + "simplification";
    assert |dashed| == 19 && |underscored| == 19;
    assert forall i :: 0 <= i < 19 ==> dashed[i] == "fast-simplification"[i];
    assert forall i :: 0 <= i < 19 ==> underscored[i] == "fast_simplification"[i];
  }

  function MissingOne(st: Status): seq<string> {
    if !st.installed && !st.optional then [st.key] else []
  }

  lemma MissingOfFour(st: seq<Status>)
    requires |st| == 4
    ensures Missing(st) == MissingOne(st[0]) + MissingOne(st[1]) + MissingOne(st[2]) + MissingOne(st[3])
  {
    assert Missing(st[3..]) == MissingOne(st[3]) + Missing(st[4..]);
    assert Missing(st[2..]) == MissingOne(st[2]) + Missing(st[2..][1..]);
    assert st[2..][1..] == st[3..];
    assert Missing(st[1..]) == MissingOne(st[1]) + Missing(st[1..][1..]);
    assert st[1..][1..] == st[2..];
  }

  function Keep(key: string, importable: set<string>): seq<string> {
    if key in importable then [] else [key]
  }

  /** A non-optional dependency whose import name is its key is reported exactly when that
      key cannot be imported. */
  lemma StatusMissing(d: Dependency, importable: set<string>)
    requires d.optional == Some(false) && ImportName(d.name) == d.key
    ensures MissingOne(StatusOf(d, importable)) == Keep(d.key, importable)
  {
  }

  lemma TableStatusTrimesh(importable: set<string>)
    ensures MissingOne(CheckAll(Required, importable)[0]) == Keep("trimesh", importable)
  {
    var d := Required[0];
    ImportNameFacts(d.name);
    StatusMissing(d, importable);
  }

  lemma TableStatusScipy(importable: set<string>)
    ensures MissingOne(CheckAll(Required, importable)[1]) == Keep("scipy", importable)
  {
    var d := Required[1];
    ImportNameFacts(d.name);
    StatusMissing(d, importable);
  }

  lemma TableStatusNetworkx(importable: set<string>)
    ensures MissingOne(CheckAll(Required, importable)[2]) == []
  {
  }

  lemma TableStatusFastSimplification(importable: set<string>)
    ensures MissingOne(CheckAll(Required, importable)[3]) == Keep("fast_simplification", importable)
  {
    ImportNameOfFastSimplification();
    StatusMissing(Required[3], importable);
  }

  /** Each required package is reported exactly when it cannot be imported, in declaration
      order; networkx, being optional, is never among them. */
  lemma MissingOfTable(importable: set<string>)
    ensures GetMissing(importable) ==
      Keep("trimesh", importable) + Keep("scipy", importable) + Keep("fast_simplification", importable)
  {
    TableStatusTrimesh(importable);
    TableStatusScipy(importable);
    TableStatusNetworkx(importable);
    TableStatusFastSimplification(importable);
    MissingOfStatuses(CheckAll(Required, importable), importable);
  }

  lemma MissingOfStatuses(st: seq<Status>, importable: set<string>)
    requires |st| == 4
    requires MissingOne(st[0]) == Keep("trimesh", importable) && MissingOne(st[1]) == Keep("scipy", importable)
    requires MissingOne(st[2]) == [] && MissingOne(st[3]) == Keep("fast_simplification", importable)
    ensures Missing(st) == Keep("trimesh", importable) + Keep("scipy", importable) + Keep("fast_simplification", importable)
  {
    MissingOfFour(st);
  }

  lemma NetworkxNeverMissing(importable: set<string>)
    ensures "networkx" !in GetMissing(importable)
  {
    MissingOfTable(importable);
    NotAmongRequired(importable);
  }

  lemma NotAmongRequired(importable: set<string>)
    ensures "networkx" !in Keep("trimesh", importable) + Keep("scipy", importable) + Keep("fast_simplification", importable)
  {
    assert "networkx" != "trimesh";
  }

  /** An entry of `deps_to_install`: (install_order, key, pip name). */
  datatype Pending = Pending(order: int, key: string, name: string)

  function Lookup(deps: seq<Dependency>, key: string): (r: Option<Dependency>)
    ensures r.Some? ==> r.value in deps && r.value.key == key
    ensures r.None? ==> forall d :: d in deps ==> d.key != key
    decreases |deps|
  {
    if deps == [] then None else if deps[0].key == key then Some(deps[0]) else Lookup(deps[1..], key)
  }

  function PendingOf(key: string): Pending {
    match Lookup(Required, key)
    case Some(d) => Pending(d.installOrder.GetOr(999), key, d.name)
    case None => Pending(999, key, key)
  }

  predicate SortedByOrder(s: seq<Pending>) {
    forall i, j :: 0 <= i < j < |s| ==> s[i].order <= s[j].order
  }

  function InsertByOrder(x: Pending, s: seq<Pending>): seq<Pending>
    decreases |s|
  {
    if s == [] || x.order <= s[0].order then [x] + s else [s[0]] + InsertByOrder(x, s[1..])
  }

  /** `deps_to_install.sort()`, by install order. */
  function SortByOrder(s: seq<Pending>): seq<Pending>
    decreases |s|
  {
    if s == [] then [] else InsertByOrder(s[0], SortByOrder(s[1..]))
  }

  lemma {:induction false} InsertByOrderMultiset(x: Pending, s: seq<Pending>)
    ensures multiset(InsertByOrder(x, s)) == multiset(s) + multiset{x}
    decreases |s|
  {
    if s != [] && x.order > s[0].order {
      InsertByOrderMultiset(x, s[1..]);
      assert s == [s[0]] + s[1..];
    }
  }

  /** Inserting an entry no lower than a bound into entries no lower than it keeps every
      entry no lower than it. */
  lemma InsertByOrderLower(x: Pending, t: seq<Pending>, lo: int)
    requires lo <= x.order && forall k :: 0 <= k < |t| ==> lo <= t[k].order
    ensures forall j :: 0 <= j < |InsertByOrder(x, t)| ==> lo <= InsertByOrder(x, t)[j].order
  {
    var r := InsertByOrder(x, t);
    InsertByOrderMultiset(x, t);
    forall j | 0 <= j < |r|
      ensures lo <= r[j].order
    {
      assert r[j] in multiset(r);
      assert r[j] == x || r[j] in multiset(t);
    }
  }

  lemma {:induction false} InsertByOrderSorted(x: Pending, s: seq<Pending>)
    requires SortedByOrder(s)
    ensures SortedByOrder(InsertByOrder(x, s))
    decreases |s|
  {
    if s != [] && x.order > s[0].order {
      var t := s[1..];
      InsertByOrderSorted(x, t);
      InsertByOrderLower(x, t, s[0].order);
      assert InsertByOrder(x, s) == [s[0]] + InsertByOrder(x, t);
    }
  }

  lemma {:induction false} SortByOrderFacts(s: seq<Pending>)
    ensures SortedByOrder(SortByOrder(s))
    ensures multiset(SortByOrder(s)) == multiset(s)
    decreases |s|
  {
    if s != [] {
      SortByOrderFacts(s[1..]);
      InsertByOrderSorted(s[0], SortByOrder(s[1..]));
      InsertByOrderMultiset(s[0], SortByOrder(s[1..]));
      assert s == [s[0]] + s[1..];
    }
  }

  lemma SortByOrderLength(s: seq<Pending>)
    ensures |SortByOrder(s)| == |s|
  {
    SortByOrderFacts(s);
    assert |multiset(SortByOrder(s))| == |multiset(s)|;
  }

  /** The declared install orders are pairwise distinct, so sorting the tuples by their
      first component alone already fixes Python's tuple order. */
  lemma TableOrdersDistinct()
    ensures forall i, j :: 0 <= i < j < |Required| ==> Required[i].installOrder != Required[j].installOrder
  {
  }

  function PendingList(keys: seq<string>): (r: seq<Pending>)
    ensures |r| == |keys| && forall i :: 0 <= i < |keys| ==> r[i] == PendingOf(keys[i])
    decreases |keys|
  {
    if keys == [] then [] else [PendingOf(keys[0])] + PendingList(keys[1..])
  }

  /** What one `subprocess.run` of pip did, as `install_package` observes it. */
  datatype PipOutcome = Exited(code: int, stderr: string, stdout: string, importableAfter: bool)
                      | TimedOut
                      | Raised(message: string)

  /** `install_package`: success only when pip exits 0 and the package then imports. */
  function InstallPackage(package: string, outcome: PipOutcome): (r: (bool, string))
    ensures r.0 <==> outcome.Exited? && outcome.code == 0 && outcome.importableAfter
  {
    match outcome
    case Exited(code, stderr, stdout, importable) =>
      if code == 0 then
        if importable then (true, package + " installed successfully")
        else (false, package + " installation completed but import failed")
      else (false, "Failed to install " + package + ": " + (if stderr != "" then stderr else stdout))
    case TimedOut => (false, "Installation timeout for " + package)
    case Raised(m) => (false, "Error installing " + package + ": " + m)
  }

  datatype OperatorResult = Finished | Cancelled

  predicate Succeeds(outcome: PipOutcome) {
    outcome.Exited? && outcome.code == 0 && outcome.importableAfter
  }

  /** The install loop of `FRAMO_OT_install_dependencies.execute`: one pip run per entry,
      in the given order, tallying installs and failures. */
  method InstallAll(todo: seq<Pending>, pip: string -> PipOutcome)
    returns (attempted: seq<string>, installedCount: nat, failed: seq<string>)
    ensures attempted == NamesOf(todo)
    ensures installedCount + |failed| == |todo|
    ensures forall p :: p in failed <==> p in attempted && !Succeeds(pip(p))
  {
    attempted, installedCount, failed := [], 0, [];
    var i := 0;
    while i < |todo|
      invariant 0 <= i <= |todo|
      invariant |attempted| == i && forall k :: 0 <= k < i ==> attempted[k] == todo[k].name
      invariant installedCount + |failed| == i
      invariant forall p :: p in failed <==> p in attempted && !Succeeds(pip(p))
    {
      var name := todo[i].name;
      var ok := InstallPackage(name, pip(name)).0;
      attempted := attempted + [name];
      if ok {
        installedCount := installedCount + 1;
      } else {
        failed := failed + [name];
      }
      i := i + 1;
    }
  }

  /** `FRAMO_OT_install_dependencies.execute` with an empty `package`: install every missing
      dependency in ascending install order; the operator is cancelled when any fails. */
  method InstallMissing(importable: set<string>, pip: string -> PipOutcome)
    returns (result: OperatorResult, attempted: seq<string>, installedCount: nat, failed: seq<string>)
    ensures GetMissing(importable) == [] ==> result == Finished && attempted == [] && installedCount == 0
    ensures attempted == NamesOf(SortByOrder(PendingList(GetMissing(importable))))
    ensures installedCount + |failed| == |GetMissing(importable)|
    ensures forall p :: p in failed <==> p in attempted && !InstallPackage(p, pip(p)).0
    ensures result == Cancelled <==> failed != []
  {
    var missing := GetMissing(importable);
    if missing == [] {
      return Finished, [], 0, [];
    }
    var todo := SortByOrder(PendingList(missing));
    SortByOrderLength(PendingList(missing));
    attempted, installedCount, failed := InstallAll(todo, pip);
    result := if failed != [] then Cancelled else Finished;
  }

  function NamesOf(s: seq<Pending>): (r: seq<string>)
    ensures |r| == |s| && forall i :: 0 <= i < |s| ==> r[i] == s[i].name
    decreases |s|
  {
    if s == [] then [] else [s[0].name] + NamesOf(s[1..])
  }

  /** `FRAMO_OT_install_dependencies.execute` with a named `package`. */
  function InstallOne(package: string, outcome: PipOutcome): (r: OperatorResult)
    ensures r == Finished <==> InstallPackage(package, outcome).0
  {
    if InstallPackage(package, outcome).0 then Finished else Cancelled
  }
}
