/** The pure decisions of package.py: path exclusion, the version read from `bl_info`,
    the archive's entry names and its file name, and the pruned directory walk. */
module Package {
  import opened Strings

  const Exclude: seq<string> :=
    ["__pycache__", ".git", ".gitignore", ".guides", ".plans", "*.pyc", "*.pyo", "*.zip", "package.py"]

  const IncludeFiles: seq<string> :=
    ["__init__.py", "decimation.py", "dependencies.py", "material_analyzer.py", "texture_analyzer.py",
     "uv_unwrap.py", "test_viewer.html", "README.md", "INSTALL.md", "CHANGELOG.md", "LICENSE"]

  const IncludeDirs: seq<string> := ["icons"]

  /** One exclusion pattern: `*.ext` is a suffix test, anything else a substring test. */
  predicate PatternMatches(pattern: string, path: string) {
    if StartsWith(pattern, "*.") then EndsWith(path, pattern[1..]) else Contains(path, pattern)
  }

  /** `should_exclude`, over an explicit pattern list (the module uses `Exclude`). */
  function ShouldExcludeBy(patterns: seq<string>, path: string): (r: bool)
    ensures r <==> exists i :: 0 <= i < |patterns| && PatternMatches(patterns[i], path)
    decreases |patterns|
  {
    if patterns == [] then false
    else if PatternMatches(patterns[0], path) then true
    else
      var rest := ShouldExcludeBy(patterns[1..], path);
      assert forall i :: 1 <= i < |patterns| ==> patterns[i] == patterns[1..][i - 1];
      rest
  }

  function ShouldExclude(path: string): bool {
    ShouldExcludeBy(Exclude, path)
  }

  /** Compiled files and archives are excluded by suffix, the script itself by substring. */
  lemma ExclusionExamples(path: string)
    ensures EndsWith(path, ".pyc") ==> ShouldExclude(path)
    ensures EndsWith(path, ".zip") ==> ShouldExclude(path)
    ensures Contains(path, "__pycache__") ==> ShouldExclude(path)
  {
    assert Exclude[5] == "*.pyc" && StartsWith("*.pyc", "*.") && "*.pyc"[1..] == ".pyc";
    assert Exclude[7] == "*.zip" && StartsWith("*.zip", "*.") && "*.zip"[1..] == ".zip";
    assert Exclude[0] == "__pycache__" && "__pycache__"[0] == '_' && !StartsWith("__pycache__", "*.");
  }

  predicate IsSpace(ch: char) {
    ch == ' ' || ch == '\t' || ch == '\n' || ch == '\r' || ch == '\U{000C}' || ch == '\U{000B}'
  }

  /** Length of the leading run of digits (or of whitespace) of `u`. */
  function RunLength(u: string, digits: bool): (n: nat)
    ensures n <= |u|
    ensures forall k :: 0 <= k < n ==> (if digits then IsDigit(u[k]) else IsSpace(u[k]))
    ensures n < |u| ==> !(if digits then IsDigit(u[n]) else IsSpace(u[n]))
    decreases |u|
  {
    if |u| > 0 && (if digits then IsDigit(u[0]) else IsSpace(u[0])) then 1 + RunLength(u[1..], digits) else 0
  }

  datatype Triple = Triple(a: string, b: string, c: string)

  /** One `\d+` group followed by `sep`: the group and what follows `sep`. */
  function Group(u: string, sep: char): (r: Wrappers.Option<(string, string)>)
    ensures r.Some? ==> |r.value.0| > 0 && IsDigits(r.value.0) && |r.value.1| < |u|
  {
    var n := RunLength(u, true);
    if n > 0 && n < |u| && u[n] == sep then Wrappers.Some((u[..n], u[n + 1..])) else Wrappers.None
  }

  function SkipSpaces(u: string): string {
    u[RunLength(u, false)..]
  }

  /** The regular expression `\((\d+),\s*(\d+),\s*(\d+)\)` anchored at the start of `u`.
      Each `\d+` is followed by a non-digit and each `\s*` by a digit, so the greedy match
      is the only one. */
  function TupleAt(u: string): (r: Wrappers.Option<Triple>) {
    if |u| > 0 && u[0] == '(' then
      match Group(u[1..], ',')
      case None => Wrappers.None
      case Some((a, r1)) =>
        match Group(SkipSpaces(r1), ',')
        case None => Wrappers.None
        case Some((b, r2)) =>
          match Group(SkipSpaces(r2), ')')
          case None => Wrappers.None
          case Some((c, _)) => Wrappers.Some(Triple(a, b, c))
    else Wrappers.None
  }

  /** `re.search`: the leftmost match in `u`. */
  function SearchTuple(u: string): (r: Wrappers.Option<Triple>)
    decreases |u|
  {
    if TupleAt(u).Some? then TupleAt(u)
    else if u == [] then Wrappers.None
    else SearchTuple(u[1..])
  }

  predicate IsVersionLine(line: string) {
    Contains(line, "\"version\"") && SearchTuple(line).Some?
  }

  /** Line `k` is the first that mentions `"version"` and holds a version tuple. */
  predicate FirstVersionLine(lines: seq<string>, k: nat) {
    k < |lines| && IsVersionLine(lines[k]) && forall j :: 0 <= j < k ==> !IsVersionLine(lines[j])
  }

  function VersionText(t: Triple): string {
    t.a + "." + t.b + "." + t.c
  }

  /** `get_version` over the lines of `__init__.py`. */
  function GetVersion(lines: seq<string>): (v: string)
    ensures (forall k :: 0 <= k < |lines| ==> !IsVersionLine(lines[k])) ==> v == "0.0.0"
    ensures (exists k :: 0 <= k < |lines| && IsVersionLine(lines[k])) ==>
              exists k :: 0 <= k < |lines| && FirstVersionLine(lines, k) && v == VersionText(SearchTuple(lines[k]).value)
    decreases |lines|
  {
    if lines == [] then "0.0.0"
    else if IsVersionLine(lines[0]) then
      assert FirstVersionLine(lines, 0);
      VersionText(SearchTuple(lines[0]).value)
    else
      var tail := lines[1..];
      var rest := GetVersion(tail);
      assert forall k :: 1 <= k < |lines| ==> lines[k] == tail[k - 1];
      assert (exists k :: 0 <= k < |lines| && IsVersionLine(lines[k])) ==>
               exists k :: 0 <= k < |tail| && FirstVersionLine(tail, k) && rest == VersionText(SearchTuple(tail[k]).value)
        by {
        if exists k :: 0 <= k < |lines| && IsVersionLine(lines[k]) {
          var k :| 0 <= k < |lines| && IsVersionLine(lines[k]);
          assert k >= 1 && IsVersionLine(tail[k - 1]);
        }
      }
      assert (exists k :: 0 <= k < |lines| && IsVersionLine(lines[k])) ==>
               exists k :: 0 <= k < |lines| && FirstVersionLine(lines, k) && rest == VersionText(SearchTuple(lines[k]).value)
        by {
        if exists k :: 0 <= k < |lines| && IsVersionLine(lines[k]) {
          var k :| 0 <= k < |tail| && FirstVersionLine(tail, k) && rest == VersionText(SearchTuple(tail[k]).value);
          assert FirstVersionLine(lines, k + 1);
        }
      }
      rest
  }

  /** The `bl_info` line as the add-on writes it. */
  function BlInfoLine(x: nat, y: nat, z: nat): string {
    "    \"version\": (" + NatToString(x) + ", " + NatToString(y) + ", " + NatToString(z) + "),"
  }

  lemma {:induction false} DigitRunThenStop(d: string, rest: string)
    requires IsDigits(d) && |rest| > 0 && !IsDigit(rest[0])
    ensures RunLength(d + rest, true) == |d|
    decreases |d|
  {
    if |d| > 0 {
      assert (d + rest)[1..] == d[1..] + rest;
      DigitRunThenStop(d[1..], rest);
    }
  }

  lemma {:induction false} GroupOf(d: string, sep: char, rest: string)
    requires |d| > 0 && IsDigits(d) && !IsDigit(sep)
    ensures Group(d + [sep] + rest, sep) == Wrappers.Some((d, rest))
  {
    DigitRunThenStop(d, [sep] + rest);
    assert d + [sep] + rest == d + ([sep] + rest);
    var u := d + [sep] + rest;
    assert u[..|d|] == d && u[|d| + 1..] == rest;
  }

  lemma SkipOneSpace(u: string)
    requires |u| > 0 && IsDigit(u[0])
    ensures SkipSpaces(" " + u) == u
  {
    assert (" " + u)[1..] == u;
    assert RunLength(u, false) == 0;
  }

  /** One group introduced by a single space, as in ", 2". */
  lemma {:induction false} SpacedGroup(d: string, sep: char, rest: string)
    requires |d| > 0 && IsDigits(d) && !IsDigit(sep)
    ensures Group(SkipSpaces(" " + d + [sep] + rest), sep) == Wrappers.Some((d, rest))
  {
    assert " " + d + [sep] + rest == " " + (d + [sep] + rest);
    SkipOneSpace(d + [sep] + rest);
    GroupOf(d, sep, rest);
  }

  /** `(a, b, c)`, as the add-on writes it, is matched with groups a, b and c. */
  lemma {:induction false} TupleAtWritten(a: string, b: string, c: string, rest: string)
    requires |a| > 0 && |b| > 0 && |c| > 0 && IsDigits(a) && IsDigits(b) && IsDigits(c)
    ensures TupleAt("(" + a + ", " + b + ", " + c + ")" + rest) == Wrappers.Some(Triple(a, b, c))
  {
    var u := "(" + a + ", " + b + ", " + c + ")" + rest;
    var r2 := " " + c + [')'] + rest;
    var r1 := " " + b + [','] + r2;
    assert u[1..] == a + [','] + r1;
    GroupOf(a, ',', r1);
    SpacedGroup(b, ',', r2);
    SpacedGroup(c, ')', rest);
  }

  lemma {:induction false} SearchSkips(pre: string, u: string)
    requires '(' !in pre
    ensures SearchTuple(pre + u) == SearchTuple(u)
    decreases |pre|
  {
    if |pre| > 0 {
      assert (pre + u)[0] == pre[0];
      assert (pre + u)[1..] == pre[1..] + u;
      SearchSkips(pre[1..], u);
    } else {
      assert pre + u == u;
    }
  }

  lemma BlInfoMentionsVersion(x: nat, y: nat, z: nat)
    ensures Contains(BlInfoLine(x, y, z), "\"version\"")
  {
    var s := BlInfoLine(x, y, z);
    assert s[4..4 + |"\"version\""|] == "\"version\"";
    ContainsAt(s, "\"version\"", 4);
  }

  lemma {:induction false} SearchWritten(pre: string, a: string, b: string, c: string, rest: string)
    requires '(' !in pre
    requires |a| > 0 && |b| > 0 && |c| > 0 && IsDigits(a) && IsDigits(b) && IsDigits(c)
    ensures SearchTuple(pre + ("(" + a + ", " + b + ", " + c + ")" + rest)) == Wrappers.Some(Triple(a, b, c))
  {
    var u := "(" + a + ", " + b + ", " + c + ")" + rest;
    TupleAtWritten(a, b, c, rest);
    assert SearchTuple(u) == TupleAt(u);
    SearchSkips(pre, u);
  }

  lemma {:induction false} BlInfoTuple(x: nat, y: nat, z: nat)
    ensures SearchTuple(BlInfoLine(x, y, z)) == Wrappers.Some(Triple(NatToString(x), NatToString(y), NatToString(z)))
  {
    var a, b, c := NatToString(x), NatToString(y), NatToString(z);
    var pre := "    \"version\": ";
    assert BlInfoLine(x, y, z) == pre + ("(" + a + ", " + b + ", " + c + ")" + ",");
    SearchWritten(pre, a, b, c, ",");
  }

  /** The version of a `bl_info` line in the add-on's own format is read back exactly. */
  lemma {:induction false} GetVersionOfBlInfo(x: nat, y: nat, z: nat)
    ensures GetVersion([BlInfoLine(x, y, z)]) == NatToString(x) + "." + NatToString(y) + "." + NatToString(z)
  {
    BlInfoMentionsVersion(x, y, z);
    BlInfoTuple(x, y, z);
    assert IsVersionLine([BlInfoLine(x, y, z)][0]);
  }

  /** `create_package`'s archive name and entry names. */
  function ZipFileName(addonName: string, version: string): string {
    addonName + "-v" + version + ".zip"
  }

  function ArchiveEntry(addonName: string, relPath: string): string {
    addonName + "/" + relPath
  }

  /** A directory as `os.walk` sees it. */
  datatype Dir = Dir(name: string, files: seq<string>, subdirs: seq<Dir>)

  /** The files `create_package` adds from `t` (relative path `rel`, absolute path
      `base + "/" + rel`): `os.walk` lists a directory's files first, then descends into
      the sub-directories that survive the `dirs[:]` filter. */
  function Walk(base: string, rel: string, t: Dir): (r: seq<string>)
    decreases t, |t.subdirs| + 1
  {
    WalkFiles(base, rel, t.files) + WalkSubdirs(base, rel, t, 0)
  }

  function WalkFiles(base: string, rel: string, files: seq<string>): (r: seq<string>)
    ensures forall p :: p in r ==> !ShouldExclude(base + "/" + p)
    decreases |files|
  {
    if files == [] then []
    else
      var p := rel + "/" + files[0];
      (if ShouldExclude(base + "/" + p) then [] else [p]) + WalkFiles(base, rel, files[1..])
  }

  function WalkSubdirs(base: string, rel: string, t: Dir, k: nat): (r: seq<string>)
    decreases t, |t.subdirs| - k
  {
    if k >= |t.subdirs| then []
    else
      var d := t.subdirs[k];
      var sub := rel + "/" + d.name;
      (if ShouldExclude(base + "/" + sub) then [] else Walk(base, sub, d)) + WalkSubdirs(base, rel, t, k + 1)
  }

  /** Nothing the walk returns is excluded, and everything it returns lies under `rel`. */
  lemma {:induction false} WalkSound(base: string, rel: string, t: Dir)
    ensures forall p :: p in Walk(base, rel, t) ==> !ShouldExclude(base + "/" + p) && StartsWith(p, rel + "/")
    decreases t, |t.subdirs| + 1
  {
    WalkFilesUnder(base, rel, t.files);
    WalkSubdirsSound(base, rel, t, 0);
  }

  lemma {:induction false} WalkFilesUnder(base: string, rel: string, files: seq<string>)
    ensures forall p :: p in WalkFiles(base, rel, files) ==> StartsWith(p, rel + "/")
    decreases |files|
  {
    if files != [] {
      WalkFilesUnder(base, rel, files[1..]);
      assert rel + "/" <= rel + "/" + files[0];
    }
  }

  lemma {:induction false} WalkSubdirsSound(base: string, rel: string, t: Dir, k: nat)
    ensures forall p :: p in WalkSubdirs(base, rel, t, k) ==> !ShouldExclude(base + "/" + p) && StartsWith(p, rel + "/")
    decreases t, |t.subdirs| - k
  {
    if k < |t.subdirs| {
      var d := t.subdirs[k];
      var sub := rel + "/" + d.name;
      if !ShouldExclude(base + "/" + sub) {
        WalkSound(base, sub, d);
        forall p | p in Walk(base, sub, d) ensures StartsWith(p, rel + "/") {
          assert rel + "/" <= sub + "/";
        }
      }
      WalkSubdirsSound(base, rel, t, k + 1);
    }
  }

  /** All archive entries: the listed files that exist, then each existing included
      directory's walk, every one prefixed by the add-on folder name. */
  function PackageEntries(addonName: string, base: string, existing: set<string>, dirs: map<string, Dir>): (r: seq<string>)
    ensures forall f :: f in IncludeFiles && f in existing ==> ArchiveEntry(addonName, f) in r
    ensures forall d, p :: d in IncludeDirs && d in dirs && p in Walk(base, d, dirs[d]) ==> ArchiveEntry(addonName, p) in r
    ensures forall e :: e in r ==> EntryOf(e, addonName, base, IncludeFiles, existing, IncludeDirs, dirs)
  {
    EntryKinds(addonName, base, IncludeFiles, existing, IncludeDirs, dirs);
    ListedFiles(addonName, IncludeFiles, existing) + DirEntries(addonName, base, IncludeDirs, dirs)
  }

  /** Where an archive entry may come from: a listed file that exists, or a file the walk of
      an existing listed directory keeps, which lies under that directory and is not excluded. */
  predicate EntryOf(e: string, addonName: string, base: string, files: seq<string>, existing: set<string>,
                    dirNames: seq<string>, dirs: map<string, Dir>) {
    (exists f :: f in files && f in existing && e == ArchiveEntry(addonName, f))
    || (exists d, p :: d in dirNames && d in dirs && p in Walk(base, d, dirs[d]) && e == ArchiveEntry(addonName, p)
                       && !ShouldExclude(base + "/" + p) && StartsWith(p, d + "/"))
  }

  /** The archive's entries are the listed files' entries followed by the directories'. */
  lemma EntryKinds(addonName: string, base: string, files: seq<string>, existing: set<string>,
                   dirNames: seq<string>, dirs: map<string, Dir>)
    ensures var r := ListedFiles(addonName, files, existing) + DirEntries(addonName, base, dirNames, dirs);
            && (forall f :: f in files && f in existing ==> ArchiveEntry(addonName, f) in r)
            && (forall d, p :: d in dirNames && d in dirs && p in Walk(base, d, dirs[d]) ==> ArchiveEntry(addonName, p) in r)
            && (forall e :: e in r ==> EntryOf(e, addonName, base, files, existing, dirNames, dirs))
  {
    DirEntriesSound(addonName, base, dirNames, dirs);
    DirEntriesComplete(addonName, base, dirNames, dirs);
  }

  /** Every directory entry is the prefixed path of a file the walk of an existing listed
      directory keeps: not excluded, and under that directory. */
  lemma {:induction false} DirEntriesSound(addonName: string, base: string, names: seq<string>, dirs: map<string, Dir>)
    ensures forall e :: e in DirEntries(addonName, base, names, dirs) ==>
              exists d, p :: d in names && d in dirs && p in Walk(base, d, dirs[d]) && e == ArchiveEntry(addonName, p)
                             && !ShouldExclude(base + "/" + p) && StartsWith(p, d + "/")
    decreases |names|
  {
    if names != [] {
      DirEntriesSound(addonName, base, names[1..], dirs);
      var d := names[0];
      if d in dirs {
        WalkSound(base, d, dirs[d]);
        var here := Walk(base, d, dirs[d]);
        forall e | e in Prefixed(addonName, here)
          ensures exists p :: p in here && e == ArchiveEntry(addonName, p)
        {
          var i :| 0 <= i < |here| && Prefixed(addonName, here)[i] == e;
          assert here[i] in here;
        }
      }
    }
  }

  /** Every file the walk of an existing listed directory keeps has its entry. */
  lemma {:induction false} DirEntriesComplete(addonName: string, base: string, names: seq<string>, dirs: map<string, Dir>)
    ensures forall d, p :: d in names && d in dirs && p in Walk(base, d, dirs[d]) ==>
              ArchiveEntry(addonName, p) in DirEntries(addonName, base, names, dirs)
    decreases |names|
  {
    if names != [] {
      DirEntriesComplete(addonName, base, names[1..], dirs);
      var d := names[0];
      if d in dirs {
        var here := Walk(base, d, dirs[d]);
        forall p | p in here ensures ArchiveEntry(addonName, p) in Prefixed(addonName, here) {
          var i :| 0 <= i < |here| && here[i] == p;
          assert Prefixed(addonName, here)[i] == ArchiveEntry(addonName, p);
        }
      }
    }
  }

  function ListedFiles(addonName: string, names: seq<string>, existing: set<string>): (r: seq<string>)
    ensures forall f :: f in names && f in existing ==> ArchiveEntry(addonName, f) in r
    ensures forall e :: e in r ==> exists f :: f in names && f in existing && e == ArchiveEntry(addonName, f)
    decreases |names|
  {
    if names == [] then []
    else
      (if names[0] in existing then [ArchiveEntry(addonName, names[0])] else [])
      + ListedFiles(addonName, names[1..], existing)
  }

  function DirEntries(addonName: string, base: string, names: seq<string>, dirs: map<string, Dir>): (r: seq<string>)
    decreases |names|
  {
    if names == [] then []
    else
      var here := if names[0] in dirs then Walk(base, names[0], dirs[names[0]]) else [];
      Prefixed(addonName, here) + DirEntries(addonName, base, names[1..], dirs)
  }

  function Prefixed(addonName: string, rels: seq<string>): (r: seq<string>)
    ensures |r| == |rels| && forall i :: 0 <= i < |rels| ==> r[i] == ArchiveEntry(addonName, rels[i])
    decreases |rels|
  {
    if rels == [] then [] else [ArchiveEntry(addonName, rels[0])] + Prefixed(addonName, rels[1..])
  }
}
