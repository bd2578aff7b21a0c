/**
 * The `integration` task of cargo-rbmt: for every workspace package that has
 * an integration-test package (by default `bitcoind-tests`), test it once per
 * version feature, either the configured versions or every version feature
 * the integration package declares.
 */
module Integration {
  import opened ShellModel
  import opened Strings
  import opened Environment

  // ---------------------------------------------------------------------------
  // Configuration
  // ---------------------------------------------------------------------------

  /** The `[integration]` table; both keys may be absent. */
  datatype IntegrationConfig = IntegrationConfig(package: Option<string>, versions: Option<seq<string>>)

  /** A package's `rbmt.toml` as this task reads it. */
  datatype ConfigFile = Missing | Unreadable | Parsed(config: IntegrationConfig)

  const DefaultConfig := IntegrationConfig(None, None)

  /** `IntegrationConfig::load`: an absent file gives the defaults. */
  function LoadConfig(file: ConfigFile): (r: Result<IntegrationConfig, ()>)
    ensures r.Err? <==> file.Unreadable?
    ensures file.Missing? ==> r == Ok(DefaultConfig)
  {
    match file
    case Missing => Ok(DefaultConfig)
    case Unreadable => Err(())
    case Parsed(c) => Ok(c)
  }

  const DefaultPackage := "bitcoind-tests"

  /** `IntegrationConfig::package_name`. */
  function PackageName(c: IntegrationConfig): (name: string)
    ensures c.package.None? ==> name == DefaultPackage
    ensures c.package.Some? ==> name == c.package.value
  {
    if c.package.Some? then c.package.value else DefaultPackage
  }

  /** Why the task stopped. */
  datatype IntegrationError =
    | Packages(error: PackageError)
    | ConfigUnreadable(dir: Path)
    | CommandFailed
    | MetadataUnreadable
    | VersionNotFound(version: string, available: seq<string>)

  // ---------------------------------------------------------------------------
  // Version features
  // ---------------------------------------------------------------------------

  /**
   * The output of `cargo metadata` as discovery reads it: not JSON at all, or
   * JSON whose `packages` array (if it is one) lists each package's feature
   * names (`None` when `features` is not an object).
   */
  datatype FeatureMetadata = NotJson | Json(packages: Option<seq<Option<seq<string>>>>)

  /** The feature names of the first package, when there is one with a feature table. */
  function FirstPackageFeatures(meta: FeatureMetadata): seq<string>
    requires meta.Json?
  {
    match meta.packages
    case None => []
    case Some(ps) => if ps == [] || ps[0].None? then [] else ps[0].value
  }

  /** `discover_version_features` on the metadata it reads. */
  function Discovered(meta: FeatureMetadata): Result<seq<string>, IntegrationError> {
    if meta.NotJson? then Err(MetadataUnreadable) else Ok(Sort(FirstPackageFeatures(meta)))
  }

  /**
   * Discovery fails only on output that is not JSON; otherwise it yields the
   * first package's feature names, sorted, and nothing from later packages.
   */
  lemma DiscoveredSpec(meta: FeatureMetadata)
    ensures Discovered(meta).Err? <==> meta.NotJson?
    ensures Discovered(meta).Ok? ==>
      var fs := Discovered(meta).value;
      Sorted(fs) && multiset(fs) == multiset(FirstPackageFeatures(meta))
      && (forall f :: f in fs <==> f in FirstPackageFeatures(meta))
  {
    if meta.Json? {
      var fs := Sort(FirstPackageFeatures(meta));
      forall f ensures f in fs <==> f in FirstPackageFeatures(meta) {
        assert f in fs <==> f in multiset(fs);
        assert f in FirstPackageFeatures(meta) <==> f in multiset(FirstPackageFeatures(meta));
      }
    }
  }

  const FeatureMetadataWords: seq<string> := ["cargo", "metadata", "--format-version", "1", "--no-deps"]

  /** The version features to test: the configured ones, each of which must exist, or all of them. */
  function Versions(configured: Option<seq<string>>, available: seq<string>): Result<seq<string>, IntegrationError> {
    match configured
    case None => Ok(available)
    case Some(vs) =>
      match FirstMissing(vs, available)
      case None => Ok(vs)
      case Some(v) => Err(VersionNotFound(v, available))
  }

  /** The first requested version that is not available. */
  function FirstMissing(requested: seq<string>, available: seq<string>): Option<string> {
    if requested == [] then None
    else if requested[0] !in available then Some(requested[0])
    else FirstMissing(requested[1..], available)
  }

  /**
   * With configured versions the selection keeps them in configured order when
   * all are available, and otherwise names the first that is not; without, it
   * is every available feature.
   */
  lemma {:induction false} VersionsSpec(configured: Option<seq<string>>, available: seq<string>)
    ensures configured.None? ==> Versions(configured, available) == Ok(available)
    ensures configured.Some? ==>
      var vs := configured.value;
      (Versions(configured, available).Ok? <==> forall v :: v in vs ==> v in available)
      && (Versions(configured, available).Ok? ==> Versions(configured, available).value == vs)
      && (Versions(configured, available).Err? ==>
            exists k :: 0 <= k < |vs| && vs[k] !in available && (forall j :: 0 <= j < k ==> vs[j] in available)
              && Versions(configured, available).error == VersionNotFound(vs[k], available))
  {
    if configured.Some? {
      FirstMissingSpec(configured.value, available);
    }
  }

  lemma {:induction false} FirstMissingSpec(requested: seq<string>, available: seq<string>)
    ensures FirstMissing(requested, available).None? <==> forall v :: v in requested ==> v in available
    ensures FirstMissing(requested, available).Some? ==>
      exists k :: 0 <= k < |requested| && requested[k] !in available
        && (forall j :: 0 <= j < k ==> requested[j] in available)
        && FirstMissing(requested, available).value == requested[k]
  {
    if requested != [] {
      var tail := requested[1..];
      FirstMissingSpec(tail, available);
      assert forall v :: v in requested <==> v == requested[0] || v in tail by {
        assert requested == [requested[0]] + tail;
      }
      if requested[0] !in available {
        assert requested[0] !in available;
      } else if FirstMissing(tail, available).Some? {
        var k :| 0 <= k < |tail| && tail[k] !in available && (forall j :: 0 <= j < k ==> tail[j] in available)
          && FirstMissing(tail, available).value == tail[k];
        assert requested[k + 1] == tail[k];
        assert forall j :: 0 <= j < k + 1 ==> requested[j] in available by {
          forall j | 0 <= j < k + 1 ensures requested[j] in available {
            if j > 0 { assert requested[j] == tail[j - 1]; }
          }
        }
      }
    }
  }

  /** The filter loop over configured versions, with its early return. */
  method SelectVersions(configured: Option<seq<string>>, available: seq<string>) returns (r: Result<seq<string>, IntegrationError>)
    ensures r == Versions(configured, available)
  {
    if configured.None? {
      return Ok(available);
    }
    var vs := configured.value;
    var filtered: seq<string> := [];
    for i := 0 to |vs|
      invariant filtered == vs[..i]
      invariant FirstMissing(vs, available) == FirstMissing(vs[i..], available)
    {
      assert vs[i..][1..] == vs[i + 1..];
      if vs[i] in available {
        filtered := filtered + [vs[i]];
      } else {
        return Err(VersionNotFound(vs[i], available));
      }
    }
    assert vs[|vs|..] == [] && vs[..|vs|] == vs;
    r := Ok(filtered);
  }

  /** One test command per version, in order. */
  function TestWords(versions: seq<string>): (words: seq<seq<string>>)
    ensures |words| == |versions|
    ensures forall k :: 0 <= k < |versions| ==> words[k] == ["cargo", "--locked", "test", "--features=" + versions[k]]
  {
    seq(|versions|, k requires 0 <= k < |versions| => ["cargo", "--locked", "test", "--features=" + versions[k]])
  }

  // ---------------------------------------------------------------------------
  // run
  // ---------------------------------------------------------------------------

  /** What the task reads besides the shell. */
  datatype Host = Host(
    config: Path -> ConfigFile,
    exists_: Path -> bool,
    features: string -> FeatureMetadata)

  /** One package of the loop in `run`, with the shell in `root`. */
  function PackageStep(root: Path, env: map<string, string>, succeeds: Cmd -> bool, output: Cmd -> string,
                       host: Host, pkg: Package): Step<IntegrationError>
  {
    match LoadConfig(host.config(pkg.dir))
    case Err(_) => Step(Err(ConfigUnreadable(pkg.dir)), [])
    case Ok(config) =>
      var idir := ChangeDir(pkg.dir, PackageName(config));
      if !host.exists_(idir) || !host.exists_(JoinPath(idir, "Cargo.toml")) then Step(Ok(()), [])
      else
        var here := ChangeDir(root, idir);
        var meta := Cmd(ChangeDir(here, idir), env, FeatureMetadataWords);
        if !succeeds(meta) then Step(Err(CommandFailed), [meta])
        else match Discovered(host.features(output(meta)))
          case Err(e) => Step(Err(e), [meta])
          case Ok(available) =>
            if available == [] then Step(Ok(()), [meta])
            else match Versions(config.versions, available)
              case Err(e) => Step(Err(e), [meta])
              case Ok(versions) =>
                var tests := CmdsIn(here, env, TestWords(versions));
                Step(if AllSucceed(tests, succeeds) then Ok(()) else Err(CommandFailed), [meta] + Ran(tests, succeeds))
  }

  /**
   * A package without the integration directory or its manifest, or whose
   * integration package declares no features, is passed over without a test
   * and without an error; otherwise each selected version is tested in the
   * integration directory, in order, until one fails.
   */
  lemma PackageStepSpec(root: Path, env: map<string, string>, succeeds: Cmd -> bool, output: Cmd -> string,
                        host: Host, pkg: Package, config: IntegrationConfig)
    requires LoadConfig(host.config(pkg.dir)) == Ok(config)
    ensures var s := PackageStep(root, env, succeeds, output, host, pkg);
      var idir := ChangeDir(pkg.dir, PackageName(config));
      var here := ChangeDir(root, idir);
      var meta := Cmd(ChangeDir(here, idir), env, FeatureMetadataWords);
      (!host.exists_(idir) || !host.exists_(JoinPath(idir, "Cargo.toml")) ==> s == Step(Ok(()), []))
      && ((host.exists_(idir) && host.exists_(JoinPath(idir, "Cargo.toml")) && succeeds(meta)
           && Discovered(host.features(output(meta))) == Ok([])) ==> s == Step(Ok(()), [meta]))
      && ((host.exists_(idir) && host.exists_(JoinPath(idir, "Cargo.toml")) && succeeds(meta)
           && Discovered(host.features(output(meta))).Ok? && Discovered(host.features(output(meta))).value != []
           && Versions(config.versions, Discovered(host.features(output(meta))).value).Ok?) ==>
            var versions := Versions(config.versions, Discovered(host.features(output(meta))).value).value;
            var tests := CmdsIn(here, env, TestWords(versions));
            s.cmds == [meta] + Ran(tests, succeeds) && (s.result.Ok? <==> AllSucceed(tests, succeeds)))
  {
  }

  /** `run`: the package list from `get_packages`, then every package in turn until one fails. */
  function IntegrationRun(root: Path, env: map<string, string>, succeeds: Cmd -> bool, output: Cmd -> string,
                          host: Host, parse: string -> Option<seq<MetaPackage>>, requested: seq<string>)
    : Step<IntegrationError>
  {
    var c := Cmd(root, env, MetadataWords);
    match PackageList(if succeeds(c) then parse(output(c)) else None, requested)
    case Err(e) => Step(Err(Packages(e)), [c])
    case Ok(pkgs) =>
      var rest := Chain(MapSteps(pkgs, p => PackageStep(root, env, succeeds, output, host, p)));
      Step(rest.result, [c] + rest.cmds)
  }

  /** `discover_version_features`: read the integration package's metadata from inside it. */
  method DiscoverVersionFeatures(sh: Shell, host: Host, idir: Path) returns (r: Result<seq<string>, IntegrationError>)
    modifies sh`log, sh`cwd
    ensures sh.cwd == old(sh.cwd)
    ensures sh.log == old(sh.log) + [Cmd(ChangeDir(sh.cwd, idir), sh.vars, FeatureMetadataWords)]
    ensures var meta := Cmd(ChangeDir(sh.cwd, idir), sh.vars, FeatureMetadataWords);
      r == if sh.succeeds(meta) then Discovered(host.features(sh.output(meta))) else Err(CommandFailed)
  {
    var here := sh.cwd;
    sh.cwd := ChangeDir(here, idir);
    var out := sh.Read(FeatureMetadataWords);
    sh.cwd := here;
    if out.None? {
      return Err(CommandFailed);
    }
    var meta := host.features(out.value);
    if meta.NotJson? {
      return Err(MetadataUnreadable);
    }
    var keys := FirstPackageFeatures(meta);
    var features: seq<string> := [];
    for i := 0 to |keys|
      invariant features == keys[..i]
    {
      features := features + [keys[i]];
    }
    assert keys[..|keys|] == keys;
    r := Ok(Sort(features));
  }

  /** One iteration of the loop in `run`. */
  method CheckPackage(sh: Shell, host: Host, pkg: Package) returns (r: Result<(), IntegrationError>)
    modifies sh`log, sh`cwd
    ensures sh.cwd == old(sh.cwd)
    ensures var s := PackageStep(old(sh.cwd), sh.vars, sh.succeeds, sh.output, host, pkg);
      sh.log == old(sh.log) + s.cmds && r == s.result
  {
    var config := LoadConfig(host.config(pkg.dir));
    if config.Err? {
      return Err(ConfigUnreadable(pkg.dir));
    }
    var idir := ChangeDir(pkg.dir, PackageName(config.value));
    if !host.exists_(idir) {
      return Ok(());
    }
    if !host.exists_(JoinPath(idir, "Cargo.toml")) {
      return Ok(());
    }
    var root := sh.cwd;
    sh.cwd := ChangeDir(root, idir);
    var available := DiscoverVersionFeatures(sh, host, idir);
    if available.Err? {
      sh.cwd := root;
      return Err(available.error);
    }
    if available.value == [] {
      sh.cwd := root;
      return Ok(());
    }
    var versions := SelectVersions(config.value.versions, available.value);
    if versions.Err? {
      sh.cwd := root;
      return Err(versions.error);
    }
    ghost var meta := sh.log[|sh.log| - 1];
    ghost var mid := sh.log;
    var ok := sh.RunEach(TestWords(versions.value));
    ghost var tests := CmdsIn(ChangeDir(root, idir), sh.vars, TestWords(versions.value));
    AppendAssoc(old(sh.log), [meta], Ran(tests, sh.succeeds));
    sh.cwd := root;
    r := if ok then Ok(()) else Err(CommandFailed);
  }

  /** `run` through the shell. */
  method Run(sh: Shell, host: Host, parse: string -> Option<seq<MetaPackage>>, requested: seq<string>)
    returns (r: Result<(), IntegrationError>)
    modifies sh`log, sh`cwd
    ensures sh.cwd == old(sh.cwd)
    ensures var s := IntegrationRun(old(sh.cwd), sh.vars, sh.succeeds, sh.output, host, parse, requested);
      sh.log == old(sh.log) + s.cmds && r == s.result
  {
    ghost var run := IntegrationRun(sh.cwd, sh.vars, sh.succeeds, sh.output, host, parse, requested);
    ghost var c := sh.CmdOf(MetadataWords);
    var listed := LoadPackages(sh, parse, requested);
    if listed.Err? {
      return Err(Packages(listed.error));
    }
    var pkgs := listed.value;
    var root := sh.cwd;
    ghost var env, succeeds, output := sh.vars, sh.succeeds, sh.output;
    ghost var steps := MapSteps(pkgs, p => PackageStep(root, env, succeeds, output, host, p));
    assert run == Step(Chain(steps).result, [c] + Chain(steps).cmds);
    ghost var start := sh.log;
    assert steps[..0] == [];
    r := Ok(());
    for i := 0 to |pkgs|
      invariant sh.cwd == root && sh.vars == env
      invariant Chain(steps[..i]).result.Ok? && r == Chain(steps[..i]).result
      invariant sh.log == start + Chain(steps[..i]).cmds
    {
      ghost var before := Chain(steps[..i]);
      ChainNext(steps, i);
      r := CheckPackage(sh, host, pkgs[i]);
      AppendAssoc(start, before.cmds, steps[i].cmds);
      if r.Err? {
        ChainStops(steps, i + 1);
        AppendAssoc(old(sh.log), [c], Chain(steps).cmds);
        return;
      }
    }
    assert steps[..|pkgs|] == steps;
    AppendAssoc(old(sh.log), [c], Chain(steps).cmds);
  }
}
