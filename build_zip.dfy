/** The pure decisions of build_zip.py: the substring exclusion test and the archive's
    entry names. Unlike package.py, this script never treats `*` as a wildcard. */
module BuildZip {
  import opened Strings

  const ExcludePatterns: seq<string> :=
    ["__pycache__", "*.pyc", "*.pyo", ".git", ".gitignore", "build_zip.py",
     "framo-bridge-*.zip", "framo-exporter-*.zip", "builds"]

  const IncludeFiles: seq<string> :=
    ["__init__.py", "decimation.py", "dependencies.py", "material_analyzer.py", "texture_analyzer.py",
     "uv_unwrap.py", "README.md", "CHANGELOG.md", "INSTALL.md", "LICENSE", "test_viewer.html"]

  const IncludeFolders: seq<string> := ["icons"]

  const ZipFileName := "framo-bridge-v0.2.1.zip"

  /** `should_exclude`: some pattern occurs in the path as a plain substring. */
  function ShouldExcludeBy(patterns: seq<string>, path: string): (r: bool)
    ensures r <==> exists i :: 0 <= i < |patterns| && Contains(path, patterns[i])
    decreases |patterns|
  {
    if patterns == [] then false
    else if Contains(path, patterns[0]) then true
    else
      var rest := ShouldExcludeBy(patterns[1..], path);
      assert forall i :: 1 <= i < |patterns| ==> patterns[i] == patterns[1..][i - 1];
      rest
  }

  function ShouldExclude(path: string): bool {
    ShouldExcludeBy(ExcludePatterns, path)
  }

  /** Wildcard-looking patterns are compared literally: a path without `*` is never
      excluded by them, so `x.pyc` is kept unless another pattern hits it. */
  lemma {:induction false} StarPatternsAreLiteral(path: string)
    requires '*' !in path
    ensures !Contains(path, "*.pyc") && !Contains(path, "*.pyo")
    ensures !Contains(path, "framo-bridge-*.zip") && !Contains(path, "framo-exporter-*.zip")
  {
    if Contains(path, "*.pyc") { ContainsChar(path, "*.pyc", 0); }
    if Contains(path, "*.pyo") { ContainsChar(path, "*.pyo", 0); }
    if Contains(path, "framo-bridge-*.zip") { ContainsChar(path, "framo-bridge-*.zip", 13); }
    if Contains(path, "framo-exporter-*.zip") { ContainsChar(path, "framo-exporter-*.zip", 15); }
  }

  /** The only patterns that can exclude a path without `*` are the five literal names. */
  lemma {:induction false} ExcludeWithoutStar(path: string)
    requires '*' !in path
    ensures ShouldExclude(path) <==>
      Contains(path, "__pycache__") || Contains(path, ".git") || Contains(path, ".gitignore")
      || Contains(path, "build_zip.py") || Contains(path, "builds")
  {
    StarPatternsAreLiteral(path);
    var p := ExcludePatterns;
    assert p[0] == "__pycache__" && p[1] == "*.pyc" && p[2] == "*.pyo" && p[3] == ".git" && p[4] == ".gitignore";
    assert p[5] == "build_zip.py" && p[6] == "framo-bridge-*.zip" && p[7] == "framo-exporter-*.zip" && p[8] == "builds";
  }

  /** The archive `create_zip` writes: every listed file that exists, unfiltered, as
      `framo-bridge/<file>`; then, for every included folder that exists, each of its files
      (relative paths `rel`, absolute paths `base/<folder>/<rel>`) that is not excluded,
      as `framo-bridge/<folder>/<rel>`. */
  function ZipEntries(existing: set<string>, base: string, folders: map<string, seq<string>>): (r: seq<string>)
    ensures forall f :: f in IncludeFiles && f in existing ==> "framo-bridge/" + f in r
    ensures forall e :: e in r ==> ZipEntryOf(e, IncludeFiles, existing, IncludeFolders, base, folders)
    ensures forall d, rel ::
      (d in IncludeFolders && d in folders && rel in folders[d] && !ShouldExclude(base + "/" + d + "/" + rel))
      ==> "framo-bridge/" + d + "/" + rel in r
  {
    ZipParts(IncludeFiles, existing, IncludeFolders, base, folders);
    ListedFiles(IncludeFiles, existing) + FolderEntries(IncludeFolders, base, folders)
  }

  /** An archive entry is a listed file that exists, or a non-excluded file of an existing
      included folder. */
  predicate ZipEntryOf(e: string, files: seq<string>, existing: set<string>,
                       dirs: seq<string>, base: string, folders: map<string, seq<string>>)
  {
    (exists f :: f in files && f in existing && e == "framo-bridge/" + f)
    || (exists d, rel :: d in dirs && d in folders && rel in folders[d]
          && !ShouldExclude(base + "/" + d + "/" + rel) && e == "framo-bridge/" + d + "/" + rel)
  }

  /** The two parts of the archive together, for any lists of files and folders: both
      halves are complete, and every entry is of one of the two kinds. */
  lemma ZipParts(files: seq<string>, existing: set<string>,
                 dirs: seq<string>, base: string, folders: map<string, seq<string>>)
    ensures var r := ListedFiles(files, existing) + FolderEntries(dirs, base, folders);
      (forall f :: f in files && f in existing ==> "framo-bridge/" + f in r)
      && (forall d, rel ::
            (d in dirs && d in folders && rel in folders[d] && !ShouldExclude(base + "/" + d + "/" + rel))
            ==> "framo-bridge/" + d + "/" + rel in r)
      && (forall e :: e in r ==> ZipEntryOf(e, files, existing, dirs, base, folders))
  {
    var l := ListedFiles(files, existing);
    var g := FolderEntries(dirs, base, folders);
    forall e | e in l + g ensures ZipEntryOf(e, files, existing, dirs, base, folders) {
      if e in l {
        var f :| f in files && f in existing && e == "framo-bridge/" + f;
      } else {
        assert e in g;
      }
    }
  }

  function ListedFiles(names: seq<string>, existing: set<string>): (r: seq<string>)
    ensures forall f :: f in names && f in existing ==> "framo-bridge/" + f in r
    ensures forall e :: e in r ==> exists f :: f in names && f in existing && e == "framo-bridge/" + f
    decreases |names|
  {
    if names == [] then []
    else
      (if names[0] in existing then ["framo-bridge/" + names[0]] else [])
      + ListedFiles(names[1..], existing)
  }

  function FolderEntries(names: seq<string>, base: string, folders: map<string, seq<string>>): (r: seq<string>)
    ensures forall e :: e in r ==>
      exists d, rel :: d in names && d in folders && rel in folders[d]
        && !ShouldExclude(base + "/" + d + "/" + rel) && e == "framo-bridge/" + d + "/" + rel
    ensures forall d, rel ::
      (d in names && d in folders && rel in folders[d] && !ShouldExclude(base + "/" + d + "/" + rel))
      ==> "framo-bridge/" + d + "/" + rel in r
    decreases |names|
  {
    if names == [] then []
    else
      var here := if names[0] in folders then Kept(names[0], base, folders[names[0]]) else [];
      here + FolderEntries(names[1..], base, folders)
  }

  function Kept(folder: string, base: string, rels: seq<string>): (r: seq<string>)
    ensures forall e :: e in r ==>
      exists rel :: rel in rels && !ShouldExclude(base + "/" + folder + "/" + rel) && e == "framo-bridge/" + folder + "/" + rel
    ensures forall rel :: rel in rels && !ShouldExclude(base + "/" + folder + "/" + rel) ==>
      "framo-bridge/" + folder + "/" + rel in r
    decreases |rels|
  {
    if rels == [] then []
    else
      (if ShouldExclude(base + "/" + folder + "/" + rels[0]) then [] else ["framo-bridge/" + folder + "/" + rels[0]])
      + Kept(folder, base, rels[1..])
  }
}
