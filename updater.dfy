/** The pure decisions of the GitHub release updater: tag parsing, version precedence,
    release-asset selection, archive validation, download progress and file names.
    Versions follow the MAJOR.MINOR.PATCH core of Semantic Versioning 2.0.0 (section 2),
    with an optional leading `v`; precedence is that of section 11.2 on the core triple. */
module Updater {
  import opened Wrappers
  import opened Strings

  datatype Version = Version(major: nat, minor: nat, patch: nat)

  /** A part `int()` accepts in the model: a non-empty run of digits. */
  predicate NumericPart(part: string) {
    |part| > 0 && IsDigits(part)
  }

  /** `GitHubReleaseChecker.parse_version`: strip leading `v`s, split on `.`, and read
      exactly three parts as integers. */
  function ParseVersion(tag: string): (r: Option<Version>)
    ensures var parts := Split(LStrip(tag, 'v'), '.');
      r.Some? <==> (|parts| == 3 && NumericPart(parts[0]) && NumericPart(parts[1]) && NumericPart(parts[2]))
    ensures r.Some? ==> var parts := Split(LStrip(tag, 'v'), '.');
      r.value == Version(DigitsToNat(parts[0]), DigitsToNat(parts[1]), DigitsToNat(parts[2]))
  {
    var parts := Split(LStrip(tag, 'v'), '.');
    if |parts| != 3 then None
    else
      match (ParseNat(parts[0]), ParseNat(parts[1]), ParseNat(parts[2]))
      case (Some(a), Some(b), Some(c)) => Some(Version(a, b, c))
      case _ => None
  }

  /** `GitHubReleaseChecker.version_to_string`. */
  function VersionToString(v: Version): string {
    NatToString(v.major) + "." + NatToString(v.minor) + "." + NatToString(v.patch)
  }

  lemma DigitsHaveNoDot(s: string)
    requires IsDigits(s)
    ensures '.' !in s
  {
  }

  lemma {:induction false} SplitVersionString(v: Version)
    ensures Split(VersionToString(v), '.')
      == [NatToString(v.major), NatToString(v.minor), NatToString(v.patch)]
  {
    var a, b, c := NatToString(v.major), NatToString(v.minor), NatToString(v.patch);
    DigitsHaveNoDot(a);
    DigitsHaveNoDot(b);
    DigitsHaveNoDot(c);
    assert VersionToString(v) == a + ['.'] + (b + ['.'] + c);
    SplitAppend(a, '.', b + ['.'] + c);
    SplitAppend(b, '.', c);
    SplitNoSeparator(c, '.');
  }

  /** Formatting a version and parsing it back gives the same version, with or without
      the `v` prefix that release tags carry. */
  lemma {:induction false} VersionRoundTrip(v: Version)
    ensures ParseVersion(VersionToString(v)) == Some(v)
    ensures ParseVersion("v" + VersionToString(v)) == Some(v)
  {
    var s := VersionToString(v);
    assert s[0] == NatToString(v.major)[0];
    assert IsDigit(s[0]);
    assert LStrip(s, 'v') == s;
    assert ("v" + s)[1..] == s;
    assert LStrip("v" + s, 'v') == s;
    SplitVersionString(v);
    ParseNatToString(v.major);
    ParseNatToString(v.minor);
    ParseNatToString(v.patch);
  }

  /** Python's `latest > current` on integer triples. */
  predicate IsNewerVersion(current: Version, latest: Version) {
    latest.major > current.major
    || (latest.major == current.major && latest.minor > current.minor)
    || (latest.major == current.major && latest.minor == current.minor && latest.patch > current.patch)
  }

  /** Semantic Versioning 2.0.0, section 11.2: identifiers compared numerically from the left. */
  predicate PrecedesNumerically(a: seq<nat>, b: seq<nat>)
    requires |a| == |b|
  {
    |a| > 0 && (a[0] < b[0] || (a[0] == b[0] && PrecedesNumerically(a[1..], b[1..])))
  }

  function Identifiers(v: Version): seq<nat> {
    [v.major, v.minor, v.patch]
  }

  lemma {:induction false} NewerIsPrecedence(current: Version, latest: Version)
    ensures IsNewerVersion(current, latest) <==> PrecedesNumerically(Identifiers(current), Identifiers(latest))
  {
    var a, b := Identifiers(current), Identifiers(latest);
    var a1, b1 := a[1..], b[1..];
    var a2, b2 := a1[1..], b1[1..];
    assert a1 == [current.minor, current.patch] && b1 == [latest.minor, latest.patch];
    assert a2 == [current.patch] && b2 == [latest.patch];
    assert !PrecedesNumerically(a2[1..], b2[1..]);
    assert PrecedesNumerically(a2, b2) <==> current.patch < latest.patch;
    assert PrecedesNumerically(a1, b1) <==>
      current.minor < latest.minor || (current.minor == latest.minor && current.patch < latest.patch);
  }

  lemma NewerIsStrictOrder(a: Version, b: Version, c: Version)
    ensures !IsNewerVersion(a, a)
    ensures IsNewerVersion(a, b) ==> !IsNewerVersion(b, a)
    ensures IsNewerVersion(a, b) && IsNewerVersion(b, c) ==> IsNewerVersion(a, c)
    ensures a == b || IsNewerVersion(a, b) || IsNewerVersion(b, a)
  {
  }

  datatype Asset = Asset(name: string, downloadUrl: Option<string>, size: Option<nat>)

  datatype UpdateInfo = UpdateInfo(version: Version, tagName: string, downloadUrl: string,
                                   changelog: string, publishedAt: string, sizeBytes: nat)

  /** `GitHubReleaseChecker.check_for_updates` after the HTTP response has been read:
      `status` is the response status and the other parameters are the parsed JSON fields.
      Every exception raised inside the `try` is caught by its final `except Exception`
      and raised again with the prefix "Unexpected error: ". */
  method CheckForUpdates(current: Version, status: nat, tagName: string, assets: seq<Asset>,
                         body: Option<string>, publishedAt: Option<string>)
    returns (r: Result<Option<UpdateInfo>>)
    ensures status != 200 ==> r == Err("Unexpected error: GitHub API returned status " + NatToString(status))
    ensures status == 200 && ParseVersion(tagName).None? ==>
      r == Err("Unexpected error: Could not parse version from tag: " + tagName)
    ensures status == 200 && ParseVersion(tagName).Some? && !IsNewerVersion(current, ParseVersion(tagName).value) ==>
      r == Ok(None)
    ensures r.Ok? && r.value.Some? ==>
      status == 200 && ParseVersion(tagName) == Some(r.value.value.version)
      && IsNewerVersion(current, r.value.value.version)
      && (exists i :: 0 <= i < |assets| && EndsWith(assets[i].name, ".zip")
           && (forall j :: 0 <= j < i ==> !EndsWith(assets[j].name, ".zip"))
           && r.value.value.downloadUrl == assets[i].downloadUrl.GetOr("")
           && r.value.value.sizeBytes == assets[i].size.GetOr(0))
    ensures status == 200 && ParseVersion(tagName).Some? && IsNewerVersion(current, ParseVersion(tagName).value) ==>
      ((exists i :: 0 <= i < |assets| && EndsWith(assets[i].name, ".zip")) <==> r.Ok?)
    ensures r.Err? && status == 200 && ParseVersion(tagName).Some? && IsNewerVersion(current, ParseVersion(tagName).value) ==>
      r == Err("Unexpected error: No .zip asset found in release " + tagName)
  {
    if status != 200 {
      return Err("Unexpected error: GitHub API returned status " + NatToString(status));
    }
    var latest := ParseVersion(tagName);
    if latest.None? {
      return Err("Unexpected error: Could not parse version from tag: " + tagName);
    }
    if !IsNewerVersion(current, latest.value) {
      return Ok(None);
    }
    var i := 0;
    while i < |assets| && !EndsWith(assets[i].name, ".zip")
      invariant 0 <= i <= |assets|
      invariant forall j :: 0 <= j < i ==> !EndsWith(assets[j].name, ".zip")
    {
      i := i + 1;
    }
    if i == |assets| {
      return Err("Unexpected error: No .zip asset found in release " + tagName);
    }
    var asset := assets[i];
    r := Ok(Some(UpdateInfo(latest.value, tagName, asset.downloadUrl.GetOr(""),
                            body.GetOr("No changelog available."), publishedAt.GetOr(""),
                            asset.size.GetOr(0))));
  }

  const InitPath := "framo-bridge/__init__.py"

  /** `UpdateDownloader.validate_zip`: `readable` is false when the file is not a readable
      zip archive; `initText` is the decoded text of the add-on's `__init__.py`. */
  function ValidateZip(readable: bool, namelist: seq<string>, initText: string): (ok: bool)
    ensures ok <==> readable && InitPath in namelist && Contains(initText, "bl_info")
  {
    if !readable then false
    else if InitPath !in namelist then false
    else Contains(initText, "bl_info")
  }

  /** The `report_progress` hook of `UpdateDownloader.download`: no report without a
      callback or a known total; otherwise the downloaded fraction, capped at 1. */
  function Progress(hasCallback: bool, blockNum: nat, blockSize: nat, totalSize: int): (p: Option<real>)
    ensures p.Some? <==> totalSize > 0 && hasCallback
    ensures p.Some? ==> 0.0 <= p.value <= 1.0
    ensures p.Some? && blockNum * blockSize <= totalSize ==>
      p.value * totalSize as real == (blockNum * blockSize) as real
    ensures p.Some? && blockNum * blockSize >= totalSize ==> p.value == 1.0
  {
    if totalSize > 0 && hasCallback then
      var fraction := (blockNum * blockSize) as real / totalSize as real;
      FractionFacts(blockNum * blockSize, totalSize);
      Some(if fraction < 1.0 then fraction else 1.0)
    else None
  }

  /** The downloaded fraction is not negative, times the total it gives back what was
      downloaded, and it reaches 1 exactly when the download reaches the total. */
  lemma FractionFacts(done: nat, total: nat)
    requires total > 0
    ensures var f := done as real / total as real;
      0.0 <= f && f * total as real == done as real && (f < 1.0 <==> done < total)
  {
    var f, t := done as real / total as real, total as real;
    assert f * t == done as real;
    if f < 1.0 {
      assert f * t < 1.0 * t;
    } else {
      assert f * t >= 1.0 * t;
    }
  }

  function DownloadFileName(v: Version): string {
    "framo-bridge-v" + VersionToString(v) + ".zip"
  }

  function ExtractDirName(v: Version): string {
    "framo-bridge-v" + VersionToString(v)
  }

  /** The download is a `.zip` named after the extraction directory, and the version can be
      read back from the name: dropping "framo-bridge-" and ".zip" leaves a parseable tag. */
  lemma {:induction false} DownloadNameRecoversVersion(v: Version)
    ensures DownloadFileName(v) == ExtractDirName(v) + ".zip"
    ensures EndsWith(DownloadFileName(v), ".zip")
    ensures var n := DownloadFileName(v);
      ParseVersion(n[|"framo-bridge-"|..|n| - 4]) == Some(v)
  {
    var n := DownloadFileName(v);
    assert n[|"framo-bridge-"|..|n| - 4] == "v" + VersionToString(v);
    VersionRoundTrip(v);
  }
}
