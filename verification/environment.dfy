/**
 * Workspace discovery and log-level handling shared by every cargo-rbmt task:
 * the package list read from `cargo metadata`, its filtering by the names the
 * user asked for, and the cargo verbosity variables derived from
 * `RBMT_LOG_LEVEL`.
 */
module Environment {
  import opened ShellModel
  import opened Strings

  const LogLevelVar := "RBMT_LOG_LEVEL"
  const VerboseVar := "CARGO_TERM_VERBOSE"
  const QuietVar := "CARGO_TERM_QUIET"
  const ManifestSuffix := "/Cargo.toml"

  /** Quiet mode: the process environment sets `RBMT_LOG_LEVEL` to exactly `quiet`. */
  predicate IsQuietMode(env: map<string, string>) {
    LogLevelVar in env && env[LogLevelVar] == "quiet"
  }

  /** The shell variables after `configure_log_level`. */
  function LogLevelVars(vars: map<string, string>, env: map<string, string>): map<string, string> {
    if IsQuietMode(env) then vars[VerboseVar := "false"][QuietVar := "true"]
    else vars[VerboseVar := "true"][QuietVar := "false"]
  }

  /** Sets cargo's verbosity from the process environment `env`. */
  method ConfigureLogLevel(sh: Shell, env: map<string, string>)
    modifies sh`vars
    ensures sh.vars == LogLevelVars(old(sh.vars), env)
  {
    if IsQuietMode(env) {
      sh.SetVar(VerboseVar, "false");
      sh.SetVar(QuietVar, "true");
    } else {
      sh.SetVar(VerboseVar, "true");
      sh.SetVar(QuietVar, "false");
    }
  }

  /**
   * The two cargo variables always hold complementary booleans, cargo is quiet
   * exactly in quiet mode, and no other variable changes.
   */
  lemma LogLevelComplementary(vars: map<string, string>, env: map<string, string>)
    ensures var v := LogLevelVars(vars, env);
      VerboseVar in v && QuietVar in v
      && {v[VerboseVar], v[QuietVar]} == {"true", "false"}
      && (v[QuietVar] == "true" <==> LogLevelVar in env && env[LogLevelVar] == "quiet")
      && forall x :: x in vars && x != VerboseVar && x != QuietVar ==> x in v && v[x] == vars[x]
  {
  }

  // ---------------------------------------------------------------------------
  // Package discovery
  // ---------------------------------------------------------------------------

  /** One entry of the `packages` array of `cargo metadata`; a field that is not a string is absent. */
  datatype MetaPackage = MetaPackage(name: Option<string>, manifestPath: Option<string>, version: Option<string>)

  /** A workspace package: its name and its directory. */
  datatype Package = Package(name: string, dir: Path)

  /** Why the package list could not be produced. */
  datatype PackageError =
    | MetadataUnavailable
    | NotFound(unknown: seq<string>, available: seq<string>)

  /** The message the error carries. */
  function ErrorMessage(e: PackageError): string {
    match e
    case MetadataUnavailable => "Missing 'packages' field in cargo metadata"
    case NotFound(unknown, available) =>
      "Package not found in workspace: " + JoinWith(unknown, ", ")
      + "\n\nAvailable packages:" + AvailableLines(available)
  }

  function AvailableLines(names: seq<string>): string {
    if names == [] then "" else "\n  - " + names[0] + AvailableLines(names[1..])
  }

  /** The package of one metadata entry, when it has both a name and a manifest path. */
  function PackageOf(m: MetaPackage): Option<Package> {
    if m.name.Some? && m.manifestPath.Some? then
      Some(Package(m.name.value, TrimEndMatches(m.manifestPath.value, ManifestSuffix)))
    else None
  }

  /** The workspace packages, in metadata order: incomplete entries are dropped. */
  function WorkspacePackages(meta: seq<MetaPackage>): (pkgs: seq<Package>)
    ensures |pkgs| <= |meta|
  {
    if meta == [] then []
    else
      match PackageOf(meta[0])
      case None => WorkspacePackages(meta[1..])
      case Some(p) => [p] + WorkspacePackages(meta[1..])
  }

  /**
   * The package list is built entry by entry, in order: a complete entry
   * contributes its name and directory, an incomplete one nothing.
   */
  lemma {:induction false} WorkspacePackagesAppend(a: seq<MetaPackage>, b: seq<MetaPackage>)
    ensures WorkspacePackages(a + b) == WorkspacePackages(a) + WorkspacePackages(b)
  {
    if a == [] {
      assert a + b == b;
    } else {
      assert (a + b)[1..] == a[1..] + b;
      WorkspacePackagesAppend(a[1..], b);
    }
  }

  lemma WorkspacePackagesSingle(m: MetaPackage)
    ensures m.name.Some? && m.manifestPath.Some? ==>
      WorkspacePackages([m]) == [Package(m.name.value, TrimEndMatches(m.manifestPath.value, ManifestSuffix))]
    ensures m.name.None? || m.manifestPath.None? ==> WorkspacePackages([m]) == []
  {
  }

  /**
   * A package directory is the manifest path with every trailing `/Cargo.toml`
   * removed: it no longer ends with it, and appending copies of it gives the
   * manifest path back.
   */
  lemma PackageDirSpec(m: MetaPackage)
    requires m.name.Some? && m.manifestPath.Some?
    ensures var dir := PackageOf(m).value.dir;
      !EndsWith(dir, ManifestSuffix)
      && exists n: nat :: m.manifestPath.value == dir + Repeat(ManifestSuffix, n)
  {
    TrimEndMatchesSpec(m.manifestPath.value, ManifestSuffix);
  }

  function Names(pkgs: seq<Package>): (names: seq<string>)
    ensures |names| == |pkgs|
    ensures forall k :: 0 <= k < |pkgs| ==> names[k] == pkgs[k].name
  {
    seq(|pkgs|, k requires 0 <= k < |pkgs| => pkgs[k].name)
  }

  /** The requested names that are not available, in request order. */
  function Unknown(requested: seq<string>, available: seq<string>): seq<string> {
    if requested == [] then []
    else if requested[0] in available then Unknown(requested[1..], available)
    else [requested[0]] + Unknown(requested[1..], available)
  }

  /** `Unknown` keeps exactly the unavailable requests, and is empty iff every request is available. */
  lemma {:induction false} UnknownSpec(requested: seq<string>, available: seq<string>)
    ensures forall x :: x in Unknown(requested, available) <==> x in requested && x !in available
    ensures Unknown(requested, available) == [] <==> forall x :: x in requested ==> x in available
    ensures |Unknown(requested, available)| <= |requested|
  {
    if requested != [] {
      UnknownSpec(requested[1..], available);
      assert requested == [requested[0]] + requested[1..];
    }
  }

  /** The workspace packages whose name was requested, in workspace order. */
  function Select(all: seq<Package>, requested: seq<string>): seq<Package> {
    if all == [] then []
    else if all[0].name in requested then [all[0]] + Select(all[1..], requested)
    else Select(all[1..], requested)
  }

  /**
   * An entry is kept iff its name was requested, so nothing is added, and a
   * name asked for several times selects the same packages as asking once.
   * `SelectAppend` and `SelectSingle` state the workspace order.
   */
  lemma {:induction false} SelectSpec(all: seq<Package>, requested: seq<string>)
    ensures forall p :: p in Select(all, requested) <==> p in all && p.name in requested
    ensures |Select(all, requested)| <= |all|
    ensures forall more :: more in requested ==> Select(all, requested + [more]) == Select(all, requested)
  {
    if all != [] {
      SelectSpec(all[1..], requested);
      assert all == [all[0]] + all[1..];
      forall more | more in requested
        ensures Select(all, requested + [more]) == Select(all, requested)
      {
        assert forall x :: x in requested + [more] <==> x in requested;
      }
    }
  }

  /** Selection is an order-keeping filter: it works on each part of a list separately. */
  lemma {:induction false} SelectAppend(a: seq<Package>, b: seq<Package>, requested: seq<string>)
    ensures Select(a + b, requested) == Select(a, requested) + Select(b, requested)
  {
    if a == [] {
      assert a + b == b;
    } else {
      assert (a + b)[1..] == a[1..] + b;
      SelectAppend(a[1..], b, requested);
    }
  }

  /** One package is kept iff its name was requested. */
  lemma SelectSingle(p: Package, requested: seq<string>)
    ensures Select([p], requested) == if p.name in requested then [p] else []
  {
  }

  /** No entry of the list occurs twice. */
  predicate NoRepeats<T(==)>(s: seq<T>) {
    forall i, j :: 0 <= i < j < |s| ==> s[i] != s[j]
  }

  /** A workspace list without repeated entries gives a selection without repeated entries. */
  lemma {:induction false} SelectNoRepeats(all: seq<Package>, requested: seq<string>)
    requires NoRepeats(all)
    ensures NoRepeats(Select(all, requested))
  {
    if all != [] {
      var tail := all[1..];
      assert NoRepeats(tail) by {
        forall i, j | 0 <= i < j < |tail| ensures tail[i] != tail[j] {
          assert tail[i] == all[i + 1] && tail[j] == all[j + 1];
        }
      }
      SelectNoRepeats(tail, requested);
      SelectSpec(tail, requested);
      assert all[0] !in tail by {
        forall k | 0 <= k < |tail| ensures tail[k] != all[0] {
          assert tail[k] == all[k + 1];
        }
      }
    }
  }

  /** Selecting by the names of every workspace package keeps the whole list. */
  lemma {:induction false} SelectAll(all: seq<Package>, requested: seq<string>)
    requires forall p :: p in all ==> p.name in requested
    ensures Select(all, requested) == all
  {
    if all != [] {
      SelectAll(all[1..], requested);
    }
  }

  /** The package list `get_packages` produces, or its error. */
  function PackageList(metadata: Option<seq<MetaPackage>>, requested: seq<string>): Result<seq<Package>, PackageError> {
    match metadata
    case None => Err(MetadataUnavailable)
    case Some(meta) =>
      var all := WorkspacePackages(meta);
      if requested == [] then Ok(all)
      else
        var unknown := Unknown(requested, Names(all));
        if unknown == [] then Ok(Select(all, requested)) else Err(NotFound(unknown, Names(all)))
  }

  /**
   * `get_packages`: `metadata` is the parsed output of `cargo metadata`, `None`
   * when the command fails or its output has no `packages` array. An empty
   * request returns every package; otherwise every requested name must exist.
   */
  method GetPackages(metadata: Option<seq<MetaPackage>>, requested: seq<string>)
    returns (r: Result<seq<Package>, PackageError>)
    ensures metadata.None? ==> r == Err(MetadataUnavailable)
    ensures metadata.Some? && requested == [] ==> r == Ok(WorkspacePackages(metadata.value))
    ensures metadata.Some? && requested != [] ==>
      var all := WorkspacePackages(metadata.value);
      var unknown := Unknown(requested, Names(all));
      r == if unknown == [] then Ok(Select(all, requested)) else Err(NotFound(unknown, Names(all)))
  {
    if metadata.None? {
      return Err(MetadataUnavailable);
    }
    var all := WorkspacePackages(metadata.value);
    if requested == [] {
      return Ok(all);
    }
    var available := Names(all);
    var invalid := [];
    for k := 0 to |requested|
      invariant invalid == Unknown(requested[..k], available)
    {
      UnknownSnoc(requested[..k], requested[k], available);
      assert requested[..k + 1] == requested[..k] + [requested[k]];
      if requested[k] !in available {
        invalid := invalid + [requested[k]];
      }
    }
    assert requested[..|requested|] == requested;
    if invalid != [] {
      return Err(NotFound(invalid, available));
    }
    return Ok(Select(all, requested));
  }

  lemma {:induction false} UnknownSnoc(requested: seq<string>, x: string, available: seq<string>)
    ensures Unknown(requested + [x], available)
      == Unknown(requested, available) + (if x in available then [] else [x])
  {
    if requested == [] {
      assert requested + [x] == [x];
    } else {
      assert (requested + [x])[1..] == requested[1..] + [x];
      UnknownSnoc(requested[1..], x, available);
    }
  }

  const MetadataWords: seq<string> := ["cargo", "metadata", "--no-deps", "--format-version", "1"]

  /**
   * The package list `get_packages` returns in the shell's current state:
   * `cargo metadata` is issued, and `parse` reads its output as the `packages`
   * array (`None` when it is not JSON with such an array).
   */
  function LoadedPackages(sh: Shell, parse: string -> Option<seq<MetaPackage>>, requested: seq<string>)
    : Result<seq<Package>, PackageError>
    reads sh`cwd, sh`vars
  {
    var c := sh.CmdOf(MetadataWords);
    PackageList(if sh.succeeds(c) then parse(sh.output(c)) else None, requested)
  }

  /** `get_packages` through the shell. */
  method LoadPackages(sh: Shell, parse: string -> Option<seq<MetaPackage>>, requested: seq<string>)
    returns (r: Result<seq<Package>, PackageError>)
    modifies sh`log
    ensures sh.log == old(sh.log) + [sh.CmdOf(MetadataWords)]
    ensures r == LoadedPackages(sh, parse, requested)
  {
    var out := sh.Read(MetadataWords);
    var metadata := if out.Some? then parse(out.value) else None;
    r := GetPackages(metadata, requested);
  }

  /**
   * On success with a non-empty request every returned package was requested,
   * and every requested name names some returned package.
   */
  lemma GetPackagesCoversRequest(meta: seq<MetaPackage>, requested: seq<string>)
    requires Unknown(requested, Names(WorkspacePackages(meta))) == []
    ensures var sel := Select(WorkspacePackages(meta), requested);
      (forall p :: p in sel ==> p.name in requested)
      && forall x :: x in requested ==> exists p :: p in sel && p.name == x
  {
    var all := WorkspacePackages(meta);
    UnknownSpec(requested, Names(all));
    SelectSpec(all, requested);
    forall x | x in requested
      ensures exists p :: p in Select(all, requested) && p.name == x
    {
      var k :| 0 <= k < |all| && Names(all)[k] == x;
      assert all[k] in Select(all, requested);
    }
  }
}
