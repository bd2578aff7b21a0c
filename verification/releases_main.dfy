/**
 * The two checks of the `releases` binary: that the latest releases named in
 * the releases file are those on crates.io, and that a crate's manifest uses
 * the latest released version of each dependency. The registry is an oracle
 * from a package name to its greatest released version (`None` when the
 * request or the parse of its answer fails).
 */
module ReleasesCheck {
  import opened ShellModel
  import opened Strings
  import opened Releases

  /** Why a check stopped. */
  datatype CheckError =
    | RegistryFailed(package: string)
    | BadVersion(text: string)
    | InvalidRepository
    | ManifestUnreadable(path: Path)
    | ManifestInvalid
    | MissingVersion

  // ---------------------------------------------------------------------------
  // `check_latest_releases`
  // ---------------------------------------------------------------------------

  /** The lines the release check prints. */
  datatype ReleaseLine =
    | ReleasesHeader
    | Stale(package: string, released: Version, configured: Version)
    | Current(package: string, version: Version)
    | AllMatch

  /** The state of the loop: the failure that stopped it, the stale flag and the lines so far. */
  datatype ReleaseScan = ReleaseScan(failed: Option<CheckError>, stale: bool, lines: seq<ReleaseLine>)

  /** One entry compared against the registry. */
  function ReleaseEntry(latest: CrateVersion, registry: string -> Option<Version>): ReleaseLine
    requires registry(latest.package).Some?
  {
    var released := registry(latest.package).value;
    if latest.version != released then Stale(latest.package, released, latest.version)
    else Current(latest.package, latest.version)
  }

  /** The loop over the configured latests. */
  function ScanReleases(latests: seq<CrateVersion>, registry: string -> Option<Version>): ReleaseScan {
    if latests == [] then ReleaseScan(None, false, [])
    else
      var prev := ScanReleases(latests[..|latests| - 1], registry);
      var latest := latests[|latests| - 1];
      if prev.failed.Some? then prev
      else if registry(latest.package).None? then ReleaseScan(Some(RegistryFailed(latest.package)), prev.stale, prev.lines)
      else
        var line := ReleaseEntry(latest, registry);
        ReleaseScan(None, prev.stale || line.Stale?, prev.lines + [line])
  }

  /** `check_latest_releases`: its result and the lines it prints. */
  function CheckReleases(latests: seq<CrateVersion>, registry: string -> Option<Version>)
    : (Result<(), CheckError>, seq<ReleaseLine>)
  {
    var scan := ScanReleases(latests, registry);
    if scan.failed.Some? then (Err(scan.failed.value), [ReleasesHeader] + scan.lines)
    else (Ok(()), [ReleasesHeader] + scan.lines + (if scan.stale then [] else [AllMatch]))
  }

  /** The configured version of an entry differs from the registry's. */
  predicate IsStale(latest: CrateVersion, registry: string -> Option<Version>) {
    registry(latest.package).Some? && registry(latest.package).value != latest.version
  }

  /**
   * Without a registry failure there is one line per entry, in order, and the
   * stale flag is set exactly when some entry is stale; a failure is the first
   * package the registry could not answer, after one line per earlier entry.
   */
  lemma ScanReleasesSpec(latests: seq<CrateVersion>, registry: string -> Option<Version>)
    ensures ScanReleases(latests, registry).failed.None? <==>
      forall k :: 0 <= k < |latests| ==> registry(latests[k].package).Some?
    ensures ScanReleases(latests, registry).failed.None? ==>
      var scan := ScanReleases(latests, registry);
      |scan.lines| == |latests|
      && (forall k :: 0 <= k < |latests| ==> scan.lines[k] == ReleaseEntry(latests[k], registry))
      && (scan.stale <==> exists k :: 0 <= k < |latests| && IsStale(latests[k], registry))
    ensures ScanReleases(latests, registry).failed.Some? ==>
      var scan := ScanReleases(latests, registry);
      exists k :: 0 <= k < |latests| && scan.failed == Some(RegistryFailed(latests[k].package))
        && registry(latests[k].package).None?
        && (forall j :: 0 <= j < k ==> registry(latests[j].package).Some?)
        && |scan.lines| == k
    ensures forall k :: 0 <= k < |ScanReleases(latests, registry).lines| ==>
      ScanReleases(latests, registry).lines[k].Stale? || ScanReleases(latests, registry).lines[k].Current?
  {
    ScanReleasesFailure(latests, registry);
    ScanReleasesLines(latests, registry);
    ScanReleasesKinds(latests, registry);
  }

  /** The scan fails exactly at the first package the registry cannot answer. */
  lemma {:induction false} ScanReleasesFailure(latests: seq<CrateVersion>, registry: string -> Option<Version>)
    ensures ScanReleases(latests, registry).failed.None? <==>
      forall k :: 0 <= k < |latests| ==> registry(latests[k].package).Some?
    ensures ScanReleases(latests, registry).failed.Some? ==>
      var scan := ScanReleases(latests, registry);
      exists k :: 0 <= k < |latests| && scan.failed == Some(RegistryFailed(latests[k].package))
        && registry(latests[k].package).None?
        && (forall j :: 0 <= j < k ==> registry(latests[j].package).Some?)
        && |scan.lines| == k
  {
    if latests != [] {
      var n := |latests| - 1;
      var init := latests[..n];
      ScanReleasesFailure(init, registry);
      ScanReleasesLines(init, registry);
      assert forall k :: 0 <= k < n ==> init[k] == latests[k];
      var prev := ScanReleases(init, registry);
      if prev.failed.Some? {
        assert ScanReleases(latests, registry) == prev;
        var k :| 0 <= k < n && prev.failed == Some(RegistryFailed(init[k].package))
          && registry(init[k].package).None?
          && (forall j :: 0 <= j < k ==> registry(init[j].package).Some?)
          && |prev.lines| == k;
        assert latests[k] == init[k];
      } else if registry(latests[n].package).None? {
        assert ScanReleases(latests, registry).lines == prev.lines;
        assert ScanReleases(latests, registry).failed == Some(RegistryFailed(latests[n].package));
      }
    }
  }

  /** The scan prints only entry lines. */
  lemma {:induction false} ScanReleasesKinds(latests: seq<CrateVersion>, registry: string -> Option<Version>)
    ensures forall k :: 0 <= k < |ScanReleases(latests, registry).lines| ==>
      ScanReleases(latests, registry).lines[k].Stale? || ScanReleases(latests, registry).lines[k].Current?
  {
    if latests != [] {
      ScanReleasesKinds(latests[..|latests| - 1], registry);
    }
  }

  /** Each line the scan prints is the entry line of its package, stale or current. */
  lemma {:induction false} ScanReleasesLines(latests: seq<CrateVersion>, registry: string -> Option<Version>)
    ensures ScanReleases(latests, registry).failed.None? ==>
      var scan := ScanReleases(latests, registry);
      |scan.lines| == |latests|
      && (forall k :: 0 <= k < |latests| ==>
            registry(latests[k].package).Some? && scan.lines[k] == ReleaseEntry(latests[k], registry))
      && (scan.stale <==> exists k :: 0 <= k < |latests| && IsStale(latests[k], registry))
  {
    if latests != [] {
      var n := |latests| - 1;
      var init := latests[..n];
      ScanReleasesLines(init, registry);
      var prev := ScanReleases(init, registry);
      if prev.failed.None? && registry(latests[n].package).Some? {
        assert forall k :: 0 <= k < n ==> init[k] == latests[k];
        var scan := ScanReleases(latests, registry);
        assert scan.lines == prev.lines + [ReleaseEntry(latests[n], registry)];
        assert ReleaseEntry(latests[n], registry).Stale? <==> IsStale(latests[n], registry);
        if scan.stale && !ReleaseEntry(latests[n], registry).Stale? {
          var k :| 0 <= k < n && IsStale(init[k], registry);
        }
      }
    }
  }

  /**
   * The release check succeeds when the registry answers for every entry; it
   * then prints the header, one line per entry, and the all-match line
   * exactly when no entry is stale.
   */
  lemma CheckReleasesSpec(latests: seq<CrateVersion>, registry: string -> Option<Version>)
    ensures CheckReleases(latests, registry).0.Ok? <==> forall k :: 0 <= k < |latests| ==> registry(latests[k].package).Some?
    ensures CheckReleases(latests, registry).0.Ok? ==>
      var lines := CheckReleases(latests, registry).1;
      |lines| >= |latests| + 1 && lines[0] == ReleasesHeader
      && (AllMatch in lines <==> forall k :: 0 <= k < |latests| ==> !IsStale(latests[k], registry))
      && forall k :: 0 <= k < |latests| ==> (lines[k + 1].Stale? <==> IsStale(latests[k], registry))
    ensures CheckReleases(latests, registry).0.Err? ==> AllMatch !in CheckReleases(latests, registry).1
  {
    ScanReleasesSpec(latests, registry);
    var scan := ScanReleases(latests, registry);
    var lines := CheckReleases(latests, registry).1;
    if scan.failed.None? {
      forall k | 0 <= k < |latests| ensures lines[k + 1].Stale? <==> IsStale(latests[k], registry) {
        assert lines[k + 1] == scan.lines[k];
      }
    }
    assert AllMatch !in [ReleasesHeader] + scan.lines by {
      forall i | 0 <= i < |[ReleasesHeader] + scan.lines| ensures ([ReleasesHeader] + scan.lines)[i] != AllMatch {
        if i > 0 { assert ([ReleasesHeader] + scan.lines)[i] == scan.lines[i - 1]; }
      }
    }
  }

  /** `check_latest_releases` with its loop and `found_stale` flag. */
  method CheckLatestReleases(latests: seq<CrateVersion>, registry: string -> Option<Version>)
    returns (r: Result<(), CheckError>, lines: seq<ReleaseLine>)
    ensures (r, lines) == CheckReleases(latests, registry)
  {
    var foundStale := false;
    var printed: seq<ReleaseLine> := [];
    lines := [ReleasesHeader];
    r := Ok(());
    for i := 0 to |latests|
      invariant r == Ok(())
      invariant ScanReleases(latests[..i], registry) == ReleaseScan(None, foundStale, printed)
      invariant lines == [ReleasesHeader] + printed
    {
      assert latests[..i + 1][..i] == latests[..i];
      var latest := latests[i];
      var released := registry(latest.package);
      if released.None? {
        ScanReleasesStops(latests, i + 1, registry);
        return Err(RegistryFailed(latest.package)), lines;
      }
      if latest.version != released.value {
        foundStale := true;
        printed := printed + [Stale(latest.package, released.value, latest.version)];
      } else {
        printed := printed + [Current(latest.package, latest.version)];
      }
      lines := [ReleasesHeader] + printed;
    }
    assert latests[..|latests|] == latests;
    if !foundStale {
      lines := lines + [AllMatch];
    } else {
      assert lines == lines + [];
    }
  }

  /** Once the loop failed on a prefix, it fails the same way on the whole sequence. */
  lemma {:induction false} ScanReleasesStops(latests: seq<CrateVersion>, m: nat, registry: string -> Option<Version>)
    requires m <= |latests| && ScanReleases(latests[..m], registry).failed.Some?
    ensures ScanReleases(latests, registry) == ScanReleases(latests[..m], registry)
    decreases |latests|
  {
    if m < |latests| {
      var n := |latests| - 1;
      assert latests[..n][..m] == latests[..m];
      ScanReleasesStops(latests[..n], m, registry);
    } else {
      assert latests[..m] == latests;
    }
  }

  // ---------------------------------------------------------------------------
  // `check_latest_dependencies`
  // ---------------------------------------------------------------------------

  /** A TOML value as far as the check looks at it. */
  datatype TomlValue = Str(s: string) | Table(entries: seq<(string, TomlValue)>) | Other

  /** The value stored under `key` (TOML forbids duplicate keys; the first is taken). */
  function Lookup(entries: seq<(string, TomlValue)>, key: string): Option<TomlValue> {
    if entries == [] then None
    else if entries[0].0 == key then Some(entries[0].1)
    else Lookup(entries[1..], key)
  }

  function Keys(entries: seq<(string, TomlValue)>): (keys: seq<string>)
    ensures |keys| == |entries| && forall k :: 0 <= k < |entries| ==> keys[k] == entries[k].0
  {
    seq(|entries|, k requires 0 <= k < |entries| => entries[k].0)
  }

  /** Every key of the table can be looked up. */
  lemma {:induction false} LookupKeys(entries: seq<(string, TomlValue)>, key: string)
    requires key in Keys(entries)
    ensures Lookup(entries, key).Some?
  {
    if entries[0].0 != key {
      var k :| 0 <= k < |entries| && entries[k].0 == key;
      assert Keys(entries[1..])[k - 1] == key;
      LookupKeys(entries[1..], key);
    }
  }

  /** The package name of a dependency: the string `package` of its table, else its key. */
  function DepPackage(key: string, value: TomlValue): string {
    if value.Table? then
      var p := Lookup(value.entries, "package");
      if p.Some? && p.value.Str? then p.value.s else key
    else key
  }

  /** The version requirement of a dependency: the string `version` of its table, or the value itself when it is a string. */
  function DepVersion(value: TomlValue): Option<string> {
    match value
    case Table(entries) =>
      var v := Lookup(entries, "version");
      if v.Some? && v.value.Str? then Some(v.value.s) else None
    case Str(s) => Some(s)
    case Other => None
  }

  /** Only a table's string `package` renames a dependency; a string value's version is the string. */
  lemma DepFieldsSpec(key: string, value: TomlValue)
    ensures DepPackage(key, value) != key ==>
      value.Table? && Lookup(value.entries, "package") == Some(Str(DepPackage(key, value)))
    ensures (value.Table? && Lookup(value.entries, "package").Some? && Lookup(value.entries, "package").value.Str?) ==>
      DepPackage(key, value) == Lookup(value.entries, "package").value.s
    ensures DepVersion(value).Some? <==>
      value.Str? || (value.Table? && Lookup(value.entries, "version").Some? && Lookup(value.entries, "version").value.Str?)
    ensures value.Str? ==> DepVersion(value) == Some(value.s) && DepPackage(key, value) == key
  {
  }

  /** The lines the dependency check prints per dependency. */
  datatype DepLine =
    | Behind(package: string, version: Version, latest: Version)       // red cross
    | PatchBehind(package: string, version: Version, latest: Version)  // green tick, both versions
    | UpToDate(package: string, latest: Version)                       // green tick, the latest
    | Unpinned(package: string, latest: Version)                       // no version requirement

  /** The classification of one dependency against its latest release. */
  function Classify(package: string, version: Option<Version>, latest: Version): DepLine {
    if version.None? then Unpinned(package, latest)
    else
      var v := version.value;
      if latest.major != v.major || latest.minor != v.minor then Behind(package, v, latest)
      else if latest.patch != v.patch then PatchBehind(package, v, latest)
      else UpToDate(package, latest)
  }

  /** The line carries a tick. */
  predicate IsTick(line: DepLine) {
    line.PatchBehind? || line.UpToDate?
  }

  /**
   * A pinned dependency gets a cross exactly when its major or minor number
   * differs from the latest release, and is up to date exactly when it equals it.
   */
  lemma ClassifySpec(package: string, version: Option<Version>, latest: Version)
    ensures Classify(package, version, latest).package == package
    ensures Classify(package, version, latest).Unpinned? <==> version.None?
    ensures Classify(package, version, latest).Behind? <==>
      version.Some? && (version.value.major != latest.major || version.value.minor != latest.minor)
    ensures IsTick(Classify(package, version, latest)) <==>
      version.Some? && version.value.major == latest.major && version.value.minor == latest.minor
    ensures Classify(package, version, latest).UpToDate? <==> version == Some(latest)
    ensures Classify(package, version, latest).latest == latest
  {
  }

  /** The parsed manifest: the package's `version` value, if it has one, and the `dependencies` table. */
  datatype Manifest = Manifest(version: Option<TomlValue>, dependencies: seq<(string, TomlValue)>)

  datatype ManifestFile = Unreadable | NotToml | Parsed(manifest: Manifest)

  /** What the check prints before the dependencies. */
  datatype DependencyHeader = DependencyHeader(crateName: string, version: TomlValue, manifest: Path)

  /** The manifest path: the repository, then the crate's directory when given, then `Cargo.toml`. */
  function ManifestPath(repo: Path, crateName: Option<string>): (path: Path)
    ensures crateName.None? ==> path == ChangeDir(repo, "Cargo.toml")
    ensures crateName.Some? ==> path == ChangeDir(ChangeDir(repo, crateName.value), "Cargo.toml")
    ensures EndsWith(path, "Cargo.toml")
  {
    ChangeDir(if crateName.Some? then ChangeDir(repo, crateName.value) else repo, "Cargo.toml")
  }

  /** The components of a path that are not empty and not `.`. */
  function NormalComponents(path: Path): (cs: seq<string>)
    ensures forall k :: 0 <= k < |cs| ==> cs[k] != "" && cs[k] != "." && '/' !in cs[k]
  {
    var parts := Split(path, '/');
    SplitJoin(path, '/');
    NonEmpty(parts)
  }

  function NonEmpty(parts: seq<string>): (cs: seq<string>)
    ensures forall k :: 0 <= k < |cs| ==> cs[k] != "" && cs[k] != "." && exists j :: 0 <= j < |parts| && parts[j] == cs[k]
  {
    if parts == [] then []
    else
      var rest := NonEmpty(parts[1..]);
      assert forall k :: 0 <= k < |rest| ==> exists j :: 0 <= j < |parts| && parts[j] == rest[k] by {
        forall k | 0 <= k < |rest| ensures exists j :: 0 <= j < |parts| && parts[j] == rest[k] {
          var j :| 0 <= j < |parts[1..]| && parts[1..][j] == rest[k];
          assert parts[j + 1] == rest[k];
        }
      }
      if parts[0] == "" || parts[0] == "." then rest
      else
        assert parts[0] == parts[0];
        [parts[0]] + rest
  }

  /** The last component of a path (`Path::iter().next_back()`); `None` for the empty path. */
  function LastComponent(path: Path): (c: Option<string>)
    ensures c.None? <==> path == []
    ensures c.Some? ==> c.value != ""
  {
    var cs := NormalComponents(path);
    if cs != [] then Some(cs[|cs| - 1])
    else if path == [] then None
    else if path[0] == '/' then Some("/")
    else Some(".")
  }

  /** The crate name shown: the given one, else the last component of the repository path. */
  function CrateName(repo: Path, crateName: Option<string>): Option<string> {
    if crateName.Some? then crateName else LastComponent(repo)
  }

  lemma LastComponentExamples()
    ensures LastComponent("") == None
    ensures NormalComponents("/") == [] && LastComponent("/") == Some("/")
  {
    assert Split("", '/') == [""];
    assert Split("/", '/') == ["", ""];
    assert NonEmpty(["", ""]) == [];
  }

  /** The state of the dependency loop: the failure that stopped it and the lines so far. */
  datatype DepScan = DepScan(failed: Option<CheckError>, lines: seq<DepLine>)

  /** All the keys can be looked up. */
  predicate KeysPresent(keys: seq<string>, deps: seq<(string, TomlValue)>) {
    forall k :: 0 <= k < |keys| ==> Lookup(deps, keys[k]).Some?
  }

  /** One dependency: ask the registry, then parse the version requirement, then classify. */
  function DepStep(key: string, value: TomlValue, registry: string -> Option<Version>, parse: string -> Option<Version>)
    : Result<DepLine, CheckError>
  {
    var package := DepPackage(key, value);
    var latest := registry(package);
    if latest.None? then Err(RegistryFailed(package))
    else
      var version := DepVersion(value);
      if version.None? then Ok(Classify(package, None, latest.value))
      else
        var v := parse(version.value);
        if v.None? then Err(BadVersion(version.value)) else Ok(Classify(package, v, latest.value))
  }

  /** The loop over the sorted keys. */
  function ScanDeps(keys: seq<string>, deps: seq<(string, TomlValue)>,
                    registry: string -> Option<Version>, parse: string -> Option<Version>): DepScan
    requires KeysPresent(keys, deps)
  {
    if keys == [] then DepScan(None, [])
    else
      var n := |keys| - 1;
      var prev := ScanDeps(keys[..n], deps, registry, parse);
      if prev.failed.Some? then prev
      else
        var step := DepStep(keys[n], Lookup(deps, keys[n]).value, registry, parse);
        if step.Err? then DepScan(Some(step.error), prev.lines) else DepScan(None, prev.lines + [step.value])
  }

  /** A dependency's line names the package of its key. */
  lemma DepStepPackage(key: string, value: TomlValue, registry: string -> Option<Version>, parse: string -> Option<Version>)
    ensures DepStep(key, value, registry, parse).Ok? ==>
      DepStep(key, value, registry, parse).value.package == DepPackage(key, value)
  {
    var package := DepPackage(key, value);
    if registry(package).Some? {
      var version := DepVersion(value);
      ClassifySpec(package, if version.None? then None else parse(version.value), registry(package).value);
    }
  }

  /** The loop gets through every key exactly when every step succeeds, and then keeps each step's line. */
  lemma {:induction false} ScanDepsOk(keys: seq<string>, deps: seq<(string, TomlValue)>,
                                      registry: string -> Option<Version>, parse: string -> Option<Version>)
    requires KeysPresent(keys, deps)
    ensures ScanDeps(keys, deps, registry, parse).failed.None? <==>
      forall k :: 0 <= k < |keys| ==> DepStep(keys[k], Lookup(deps, keys[k]).value, registry, parse).Ok?
    ensures ScanDeps(keys, deps, registry, parse).failed.None? ==>
      var lines := ScanDeps(keys, deps, registry, parse).lines;
      |lines| == |keys|
      && forall k :: 0 <= k < |keys| ==> Ok(lines[k]) == DepStep(keys[k], Lookup(deps, keys[k]).value, registry, parse)
  {
    if keys != [] {
      var n := |keys| - 1;
      var pre := keys[..n];
      assert forall k :: 0 <= k < n ==> pre[k] == keys[k];
      ScanDepsOk(pre, deps, registry, parse);
      var prev := ScanDeps(pre, deps, registry, parse);
      var step := DepStep(keys[n], Lookup(deps, keys[n]).value, registry, parse);
      if prev.failed.None? && step.Ok? {
        var lines := prev.lines + [step.value];
        assert ScanDeps(keys, deps, registry, parse) == DepScan(None, lines);
        forall k | 0 <= k < |keys|
          ensures Ok(lines[k]) == DepStep(keys[k], Lookup(deps, keys[k]).value, registry, parse)
        {
          if k < n {
            assert lines[k] == prev.lines[k];
          }
        }
      } else if prev.failed.None? {
        assert !DepStep(keys[n], Lookup(deps, keys[n]).value, registry, parse).Ok?;
      } else {
        var k :| 0 <= k < n && !DepStep(pre[k], Lookup(deps, pre[k]).value, registry, parse).Ok?;
        assert !DepStep(keys[k], Lookup(deps, keys[k]).value, registry, parse).Ok?;
      }
    }
  }

  /** Without a failure the loop prints one line per key, in the order of the keys. */
  lemma ScanDepsSpec(keys: seq<string>, deps: seq<(string, TomlValue)>,
                     registry: string -> Option<Version>, parse: string -> Option<Version>)
    requires KeysPresent(keys, deps)
    ensures ScanDeps(keys, deps, registry, parse).failed.None? <==>
      forall k :: 0 <= k < |keys| ==> DepStep(keys[k], Lookup(deps, keys[k]).value, registry, parse).Ok?
    ensures ScanDeps(keys, deps, registry, parse).failed.None? ==>
      var lines := ScanDeps(keys, deps, registry, parse).lines;
      |lines| == |keys|
      && forall k :: 0 <= k < |keys| ==>
           Ok(lines[k]) == DepStep(keys[k], Lookup(deps, keys[k]).value, registry, parse)
           && lines[k].package == DepPackage(keys[k], Lookup(deps, keys[k]).value)
  {
    ScanDepsOk(keys, deps, registry, parse);
    forall k | 0 <= k < |keys| {
      DepStepPackage(keys[k], Lookup(deps, keys[k]).value, registry, parse);
    }
  }

  /** `check_latest_dependencies`: its result, the header it prints and the dependency lines. */
  function CheckDependencies(repo: Path, crateName: Option<string>, file: ManifestFile,
                             registry: string -> Option<Version>, parse: string -> Option<Version>)
    : (Result<(), CheckError>, Option<DependencyHeader>, seq<DepLine>)
  {
    var path := ManifestPath(repo, crateName);
    var name := CrateName(repo, crateName);
    if name.None? then (Err(InvalidRepository), None, [])
    else if file.Unreadable? then (Err(ManifestUnreadable(path)), None, [])
    else if file.NotToml? then (Err(ManifestInvalid), None, [])
    else if file.manifest.version.None? then (Err(MissingVersion), None, [])
    else
      var m := file.manifest;
      var header := DependencyHeader(name.value, m.version.value, path);
      var keys := SortedKeys(m.dependencies);
      var scan := ScanDeps(keys, m.dependencies, registry, parse);
      (if scan.failed.Some? then Err(scan.failed.value) else Ok(()), Some(header), scan.lines)
  }

  /** The keys of the dependency table, sorted. */
  function SortedKeys(deps: seq<(string, TomlValue)>): (keys: seq<string>)
    ensures Sorted(keys) && multiset(keys) == multiset(Keys(deps))
    ensures KeysPresent(keys, deps)
  {
    var keys := Sort(Keys(deps));
    assert KeysPresent(keys, deps) by {
      forall k | 0 <= k < |keys| ensures Lookup(deps, keys[k]).Some? {
        assert keys[k] in multiset(keys);
        assert keys[k] in multiset(Keys(deps));
        LookupKeys(deps, keys[k]);
      }
    }
    keys
  }

  /**
   * On success the dependencies are reported in sorted key order, each key
   * exactly as often as it is in the table, each line classified against the
   * registry's version of the dependency's package. A manifest whose
   * `[package]` has no `version` fails before the header is printed.
   */
  lemma CheckDependenciesSpec(repo: Path, crateName: Option<string>, file: ManifestFile,
                              registry: string -> Option<Version>, parse: string -> Option<Version>)
    ensures var result := CheckDependencies(repo, crateName, file, registry, parse);
      result.0.Ok? ==>
        file.Parsed? && file.manifest.version.Some? && result.1.Some?
        && result.1.value.manifest == ManifestPath(repo, crateName)
        && result.1.value.version == file.manifest.version.value
        && var deps := file.manifest.dependencies;
           var keys := SortedKeys(deps);
           Sorted(keys) && multiset(keys) == multiset(Keys(deps))
           && |result.2| == |keys|
           && forall k :: 0 <= k < |keys| ==>
                Ok(result.2[k]) == DepStep(keys[k], Lookup(deps, keys[k]).value, registry, parse)
    ensures CheckDependencies(repo, crateName, file, registry, parse).0.Err? <==>
      CrateName(repo, crateName).None? || !file.Parsed? || file.manifest.version.None?
      || exists k :: 0 <= k < |SortedKeys(file.manifest.dependencies)|
           && var key := SortedKeys(file.manifest.dependencies)[k];
              DepStep(key, Lookup(file.manifest.dependencies, key).value, registry, parse).Err?
  {
    if file.Parsed? {
      var deps := file.manifest.dependencies;
      ScanDepsSpec(SortedKeys(deps), deps, registry, parse);
    }
  }

  /** `check_latest_dependencies` with its loop over the sorted keys. */
  method CheckLatestDependencies(repo: Path, crateName: Option<string>, file: ManifestFile,
                                 registry: string -> Option<Version>, parse: string -> Option<Version>)
    returns (r: Result<(), CheckError>, header: Option<DependencyHeader>, lines: seq<DepLine>)
    ensures (r, header, lines) == CheckDependencies(repo, crateName, file, registry, parse)
  {
    var path := ManifestPath(repo, crateName);
    var name := CrateName(repo, crateName);
    lines := [];
    header := None;
    if name.None? {
      return Err(InvalidRepository), header, lines;
    }
    if file.Unreadable? {
      return Err(ManifestUnreadable(path)), header, lines;
    }
    if file.NotToml? {
      return Err(ManifestInvalid), header, lines;
    }
    if file.manifest.version.None? {
      return Err(MissingVersion), header, lines;
    }
    var deps := file.manifest.dependencies;
    header := Some(DependencyHeader(name.value, file.manifest.version.value, path));
    var failed;
    failed, lines := ScanLatest(SortedKeys(deps), deps, registry, parse);
    r := if failed.Some? then Err(failed.value) else Ok(());
  }

  /**
   * The loop of `check_latest_dependencies`: one line per key in order, until
   * the first key whose registry lookup or version requirement fails.
   */
  method ScanLatest(keys: seq<string>, deps: seq<(string, TomlValue)>,
                    registry: string -> Option<Version>, parse: string -> Option<Version>)
    returns (failed: Option<CheckError>, lines: seq<DepLine>)
    requires KeysPresent(keys, deps)
    ensures DepScan(failed, lines) == ScanDeps(keys, deps, registry, parse)
  {
    lines := [];
    for i := 0 to |keys|
      invariant KeysPresent(keys[..i], deps)
      invariant ScanDeps(keys[..i], deps, registry, parse) == DepScan(None, lines)
    {
      ScanDepsNext(keys, i, deps, registry, parse);
      var step := DepStep(keys[i], Lookup(deps, keys[i]).value, registry, parse);
      if step.Err? {
        ScanDepsStops(keys, i + 1, deps, registry, parse);
        return Some(step.error), lines;
      }
      lines := lines + [step.value];
    }
    assert keys[..|keys|] == keys;
    failed := None;
  }

  /** `ScanDeps` on one more key: the step of that key after the scan of the earlier ones. */
  lemma ScanDepsNext(keys: seq<string>, i: nat, deps: seq<(string, TomlValue)>,
                     registry: string -> Option<Version>, parse: string -> Option<Version>)
    requires i < |keys| && KeysPresent(keys, deps)
    ensures KeysPresent(keys[..i], deps) && KeysPresent(keys[..i + 1], deps)
    ensures var prev := ScanDeps(keys[..i], deps, registry, parse);
      var step := DepStep(keys[i], Lookup(deps, keys[i]).value, registry, parse);
      ScanDeps(keys[..i + 1], deps, registry, parse)
        == if prev.failed.Some? then prev
           else if step.Err? then DepScan(Some(step.error), prev.lines) else DepScan(None, prev.lines + [step.value])
  {
    assert keys[..i + 1][..i] == keys[..i];
  }

  /** Once the loop failed on a prefix of the keys, it fails the same way on all of them. */
  lemma {:induction false} ScanDepsStops(keys: seq<string>, m: nat, deps: seq<(string, TomlValue)>,
                                         registry: string -> Option<Version>, parse: string -> Option<Version>)
    requires KeysPresent(keys, deps) && m <= |keys|
    requires KeysPresent(keys[..m], deps) && ScanDeps(keys[..m], deps, registry, parse).failed.Some?
    ensures ScanDeps(keys, deps, registry, parse) == ScanDeps(keys[..m], deps, registry, parse)
    decreases |keys|
  {
    if m < |keys| {
      var n := |keys| - 1;
      assert keys[..n][..m] == keys[..m];
      ScanDepsStops(keys[..n], m, deps, registry, parse);
    } else {
      assert keys[..m] == keys;
    }
  }
}
