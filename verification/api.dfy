/**
 * The public-API check of cargo-rbmt. For every workspace package it takes
 * one public-API snapshot per feature configuration (by running rustdoc with
 * JSON output and reading the JSON back). Without a baseline it writes the
 * snapshots under `api/`, requires features to be additive and requires
 * `api/` to match what is committed. With a baseline ref it snapshots the
 * current checkout, switches to the baseline, snapshots it, switches back and
 * requires every snapshot of the baseline to be extended by the current one.
 *
 * The repository is a `Workspace` object: the checked-out revision `head`,
 * the shell's current directory `cwd`, the files under the workspace and the
 * log of commands issued. What the external programs (cargo, rustdoc, git and
 * the `public_api` JSON reader) answer is given by a `Host` of oracles.
 */
module Api {
  import opened ShellModel
  import opened Strings
  import opened PublicApiDiff
  import Environment

  const ApiDir := "api"
  const RustdocFlags := "-A rustdoc::broken_intra_doc_links"

  // ---------------------------------------------------------------------------
  // Feature configurations
  // ---------------------------------------------------------------------------

  /**
   * The feature configurations a snapshot is taken under. `NoFeatures` is the
   * source's `FeatureConfig::None`, renamed so as not to clash with `Option`.
   */
  datatype FeatureConfig = NoFeatures | Alloc | All

  function FileName(c: FeatureConfig): string {
    match c
    case NoFeatures => "no-features.txt"
    case Alloc => "alloc-only.txt"
    case All => "all-features.txt"
  }

  function DisplayName(c: FeatureConfig): string {
    match c
    case NoFeatures => "no-features"
    case Alloc => "alloc-only"
    case All => "all-features"
  }

  function CargoArgs(c: FeatureConfig): seq<string> {
    match c
    case NoFeatures => ["--no-default-features"]
    case Alloc => ["--no-default-features", "--features=alloc"]
    case All => ["--all-features"]
  }

  /** The configurations in the order every loop of the check visits them. */
  const Catalog: seq<FeatureConfig> := [NoFeatures, Alloc, All]

  const AllConfigs: set<FeatureConfig> := {NoFeatures, Alloc, All}

  /** The position of a configuration in the catalog. */
  function Index(c: FeatureConfig): (i: nat)
    ensures i < |Catalog| && Catalog[i] == c
  {
    match c
    case NoFeatures => 0
    case Alloc => 1
    case All => 2
  }

  /**
   * The catalog lists every configuration once, and the three configurations
   * differ in file name, display name and cargo flags, so their snapshots
   * never overwrite one another.
   */
  lemma CatalogDistinct()
    ensures forall c :: c in Catalog
    ensures forall i, j :: 0 <= i < j < |Catalog| ==>
      Catalog[i] != Catalog[j]
      && FileName(Catalog[i]) != FileName(Catalog[j])
      && DisplayName(Catalog[i]) != DisplayName(Catalog[j])
      && CargoArgs(Catalog[i]) != CargoArgs(Catalog[j])
  {
    forall c: FeatureConfig ensures c in Catalog {
      assert Catalog[Index(c)] == c;
    }
  }

  // ---------------------------------------------------------------------------
  // The outside world
  // ---------------------------------------------------------------------------

  /** The snapshots of one package, by configuration. */
  type PackageApis = map<FeatureConfig, PublicApi>

  /**
   * What the external programs answer. Each depends on the revision that is
   * checked out when it runs.
   */
  datatype Host = Host(
    /** Exit status of a command run with revision `rev` checked out. */
    runs: (string, Cmd) -> bool,
    /** `target_directory` as reported by `cargo metadata`; `None` when the command or its JSON fails. */
    targetDir: string -> Option<Path>,
    /**
     * The API `public_api` builds from the JSON file at `json`, after rustdoc ran
     * in `dir` with configuration `c`; `None` when it cannot.
     */
    build: (string, Path, FeatureConfig, Path) -> Option<PublicApi>,
    /** The text of an API as written to its file. */
    render: PublicApi -> string,
    /** Output of `git rev-parse --abbrev-ref HEAD`; `None` when it fails. */
    revParse: string -> Option<string>,
    /** Output of `git status --porcelain api` for the given files; `None` when it fails. */
    status: (string, map<Path, string>) -> Option<string>,
    /** The `packages` array of `cargo metadata`; `None` when it is unavailable. */
    metadata: string -> Option<seq<Environment.MetaPackage>>)

  /** Why the check failed. */
  datatype ApiError =
    | CommandFailed(cmd: Cmd)
    | NoTargetDir
    | BuildFailed(json: Path)
    | NonAdditive(package: string, removed: map<string, string>, changed: map<string, Change>)
    | Uncommitted
    | ConfigMissing(inBaseline: bool)
    | Breaking(package: string, config: FeatureConfig)
    | Packages(error: Environment.PackageError)
    | WrongToolchain

  function RustdocCmd(dir: Path, c: FeatureConfig): Cmd {
    Cmd(dir, map["RUSTDOCFLAGS" := RustdocFlags],
      ["cargo", "rustdoc"] + CargoArgs(c) + ["--", "-Z", "unstable-options", "--output-format", "json"])
  }

  function MetadataCmd(dir: Path): Cmd {
    Cmd(dir, map[], ["cargo", "metadata", "--no-deps", "--format-version", "1"])
  }

  function RevParseCmd(dir: Path): Cmd {
    Cmd(dir, map[], ["git", "rev-parse", "--abbrev-ref", "HEAD"])
  }

  function DetachCmd(dir: Path, baseline: string): Cmd {
    Cmd(dir, map[], ["git", "switch", "--detach", baseline])
  }

  function SwitchCmd(dir: Path, rev: string): Cmd {
    Cmd(dir, map[], ["git", "switch", rev])
  }

  function StatusCmd(dir: Path): Cmd {
    Cmd(dir, map[], ["git", "status", "--porcelain", ApiDir])
  }

  function DiffCmd(dir: Path): Cmd {
    Cmd(dir, map[], ["git", "diff", "--color=always", ApiDir])
  }

  /** Where rustdoc writes the JSON of package `name` (rustdoc spells `-` as `_`). */
  function JsonPath(target: Path, name: string): Path {
    JoinPath(JoinPath(target, "doc"), ReplaceChar(name, '-', '_') + ".json")
  }

  /**
   * The JSON file name is the package name with every `-` turned into `_`,
   * followed by `.json`, inside the `doc` directory of the target directory.
   */
  lemma JsonPathSpec(target: Path, name: string)
    ensures var p := JsonPath(target, name);
      var file := p[|p| - |name| - 5..];
      EndsWith(p, ".json") && StartsWith(p, target)
      && |file| == |name| + 5
      && '-' !in file
      && forall i :: 0 <= i < |name| ==> file[i] == (if name[i] == '-' then '_' else name[i])
  {
    var d := JoinPath(target, "doc");
    var file := ReplaceChar(name, '-', '_') + ".json";
    JsonFileSpec(name);
    JoinPathEnds(target, "doc");
    JoinPathEnds(d, file);
    NestedEnds(target, d, JsonPath(target, name), file, ".json");
  }

  /** The JSON file name: the package name with `_` for `-`, then `.json`. */
  lemma JsonFileSpec(name: string)
    ensures var file := ReplaceChar(name, '-', '_') + ".json";
      |file| == |name| + 5
      && '-' !in file
      && EndsWith(file, ".json")
      && forall i :: 0 <= i < |name| ==> file[i] == (if name[i] == '-' then '_' else name[i])
  {
    ReplaceCharSpec(name, '-', '_');
    var r := ReplaceChar(name, '-', '_');
    var file := r + ".json";
    assert file[|name|..] == ".json";
    forall i | 0 <= i < |file| ensures file[i] != '-' {
      if i >= |name| {
        assert file[i] == ".json"[i - |name|];
      } else {
        assert file[i] == r[i];
      }
    }
  }

  /** Prefixes of prefixes, and suffixes of suffixes. */
  lemma NestedEnds(a: string, b: string, c: string, d: string, e: string)
    requires StartsWith(b, a) && StartsWith(c, b) && EndsWith(c, d) && EndsWith(d, e)
    ensures StartsWith(c, a) && EndsWith(c, e) && c[|c| - |d|..] == d
  {
    assert c[..|a|] == c[..|b|][..|a|];
    assert c[|c| - |e|..] == c[|c| - |d|..][|d| - |e|..];
  }

  /** A joined path starts with the directory and ends with the name. */
  lemma JoinPathEnds(dir: Path, name: string)
    ensures StartsWith(JoinPath(dir, name), dir) && EndsWith(JoinPath(dir, name), name)
  {
    var pre := if dir == [] || dir[|dir| - 1] == '/' then dir else dir + "/";
    assert JoinPath(dir, name) == pre + name;
    assert (pre + name)[..|dir|] == dir;
  }

  /** The file a snapshot of package `name` under `c` is written to. */
  function ApiFile(root: Path, name: string, c: FeatureConfig): Path {
    JoinPath(JoinPath(JoinPath(root, ApiDir), name), FileName(c))
  }

  lemma JoinPathInjective(dir: Path, a: string, b: string)
    requires a != b
    ensures JoinPath(dir, a) != JoinPath(dir, b)
  {
    var pre := if dir == [] || dir[|dir| - 1] == '/' then dir else dir + "/";
    assert JoinPath(dir, a) == pre + a && JoinPath(dir, b) == pre + b;
    assert (pre + a)[|pre|..] == a && (pre + b)[|pre|..] == b;
  }

  /** The three snapshot files of a package are distinct files. */
  lemma ApiFilesDistinct(root: Path, name: string)
    ensures ApiFile(root, name, NoFeatures) != ApiFile(root, name, Alloc)
    ensures ApiFile(root, name, NoFeatures) != ApiFile(root, name, All)
    ensures ApiFile(root, name, Alloc) != ApiFile(root, name, All)
  {
    var dir := JoinPath(JoinPath(root, ApiDir), name);
    JoinPathInjective(dir, FileName(NoFeatures), FileName(Alloc));
    JoinPathInjective(dir, FileName(NoFeatures), FileName(All));
    JoinPathInjective(dir, FileName(Alloc), FileName(All));
  }

  // ---------------------------------------------------------------------------
  // Snapshots of one package (`get_package_apis`)
  // ---------------------------------------------------------------------------

  /** One configuration's snapshot, the directory the shell is left in and the commands issued. */
  datatype Snapshot = Snapshot(api: Result<PublicApi, ApiError>, cwd: Path, cmds: seq<Cmd>)

  /**
   * One iteration of `get_package_apis`: rustdoc in the package directory,
   * back to the root, the target directory, then the JSON read back.
   */
  function Attempt(host: Host, rev: string, root: Path, name: string, dir: Path, c: FeatureConfig): Snapshot {
    var pkg := ChangeDir(root, dir);
    var doc := RustdocCmd(pkg, c);
    if !host.runs(rev, doc) then Snapshot(Err(CommandFailed(doc)), pkg, [doc])
    else
      var meta := MetadataCmd(root);
      match host.targetDir(rev)
      case None => Snapshot(Err(NoTargetDir), root, [doc, meta])
      case Some(target) =>
        var json := JsonPath(target, name);
        match host.build(rev, pkg, c, json)
        case None => Snapshot(Err(BuildFailed(json)), root, [doc, meta])
        case Some(api) => Snapshot(Ok(api), root, [doc, meta])
  }

  /** The snapshots of a package, the directory it leaves the shell in and the commands it issues. */
  datatype Extraction = Extraction(apis: Result<PackageApis, ApiError>, cwd: Path, cmds: seq<Cmd>)

  /** The configurations from position `i` of the catalog on, added to `apis`. */
  function ExtractFrom(host: Host, rev: string, root: Path, name: string, dir: Path, i: nat, apis: PackageApis)
    : (x: Extraction)
    requires i <= |Catalog|
    ensures x.apis.Ok? ==> x.cwd == root
    ensures x.apis.Ok? ==> x.apis.value.Keys == apis.Keys + set j | i <= j < |Catalog| :: Catalog[j]
    decreases |Catalog| - i
  {
    if i == |Catalog| then Extraction(Ok(apis), root, [])
    else
      var c := Catalog[i];
      var s := Attempt(host, rev, root, name, dir, c);
      match s.api
      case Err(e) => Extraction(Err(e), s.cwd, s.cmds)
      case Ok(api) =>
        var rest := ExtractFrom(host, rev, root, name, dir, i + 1, apis[c := api]);
        assert (set j | i <= j < |Catalog| :: Catalog[j]) == {c} + set j | i + 1 <= j < |Catalog| :: Catalog[j];
        Extraction(rest.apis, rest.cwd, s.cmds + rest.cmds)
  }

  /**
   * `get_package_apis` from workspace root `root`: on success there is one
   * snapshot for each configuration and the shell is back at the root.
   */
  function Extract(host: Host, rev: string, root: Path, name: string, dir: Path): (x: Extraction)
    ensures x.apis.Ok? ==> x.apis.value.Keys == AllConfigs && x.cwd == root
  {
    var x := ExtractFrom(host, rev, root, name, dir, 0, map[]);
    assert (set j | 0 <= j < |Catalog| :: Catalog[j]) == AllConfigs by {
      assert Catalog[0] == NoFeatures && Catalog[1] == Alloc && Catalog[2] == All;
    }
    x
  }

  /**
   * Snapshots are taken in catalog order and the first failure ends the
   * package: the result is either every configuration's snapshot, after all
   * three commands pairs in order, or the error of the first configuration
   * that fails, with the shell left where that attempt left it.
   */
  lemma ExtractSpec(host: Host, rev: string, root: Path, name: string, dir: Path)
    ensures var x := Extract(host, rev, root, name, dir);
      var a0 := Attempt(host, rev, root, name, dir, NoFeatures);
      var a1 := Attempt(host, rev, root, name, dir, Alloc);
      var a2 := Attempt(host, rev, root, name, dir, All);
      (x.apis.Ok? <==> a0.api.Ok? && a1.api.Ok? && a2.api.Ok?)
      && (x.apis.Ok? ==>
            x.apis.value == map[NoFeatures := a0.api.value, Alloc := a1.api.value, All := a2.api.value]
            && x.cmds == a0.cmds + a1.cmds + a2.cmds)
      && (a0.api.Err? ==> x == Extraction(Err(a0.api.error), a0.cwd, a0.cmds))
      && (a0.api.Ok? && a1.api.Err? ==> x == Extraction(Err(a1.api.error), a1.cwd, a0.cmds + a1.cmds))
      && (a0.api.Ok? && a1.api.Ok? && a2.api.Err? ==>
            x == Extraction(Err(a2.api.error), a2.cwd, a0.cmds + a1.cmds + a2.cmds))
  {
    var a0 := Attempt(host, rev, root, name, dir, NoFeatures);
    var a1 := Attempt(host, rev, root, name, dir, Alloc);
    var a2 := Attempt(host, rev, root, name, dir, All);
    if a0.api.Ok? {
      var m0 := map[NoFeatures := a0.api.value];
      if a1.api.Ok? {
        var m1 := m0[Alloc := a1.api.value];
        if a2.api.Ok? {
          var m2 := m1[All := a2.api.value];
          assert ExtractFrom(host, rev, root, name, dir, 3, m2) == Extraction(Ok(m2), root, []);
          assert ExtractFrom(host, rev, root, name, dir, 2, m1).cmds == a2.cmds;
        }
        assert ExtractFrom(host, rev, root, name, dir, 1, m0)
          == var r := ExtractFrom(host, rev, root, name, dir, 2, m1); Extraction(r.apis, r.cwd, a1.cmds + r.cmds);
      }
    }
  }

  /**
   * A configuration's attempt issues rustdoc in the package directory, then,
   * only if rustdoc succeeded, `cargo metadata` at the root; a rustdoc failure
   * leaves the shell in the package directory, anything else at the root.
   */
  lemma AttemptSpec(host: Host, rev: string, root: Path, name: string, dir: Path, c: FeatureConfig)
    ensures var s := Attempt(host, rev, root, name, dir, c);
      var doc := RustdocCmd(ChangeDir(root, dir), c);
      (host.runs(rev, doc) ==> s.cmds == [doc, MetadataCmd(root)] && s.cwd == root)
      && (!host.runs(rev, doc) ==> s == Snapshot(Err(CommandFailed(doc)), ChangeDir(root, dir), [doc]))
      && (s.api.Ok? <==>
            host.runs(rev, doc) && host.targetDir(rev).Some?
            && host.build(rev, ChangeDir(root, dir), c, JsonPath(host.targetDir(rev).value, name)).Some?)
  {
  }

  // ---------------------------------------------------------------------------
  // Additive-features check (`check_apis`)
  // ---------------------------------------------------------------------------

  /** The snapshot files of the first `i` configurations of the catalog, written in catalog order. */
  function WriteUpTo(files: map<Path, string>, host: Host, root: Path, name: string, apis: PackageApis, i: nat)
    : map<Path, string>
    requires i <= |Catalog| && AllConfigs <= apis.Keys
  {
    if i == 0 then files
    else
      var c := Catalog[i - 1];
      WriteUpTo(files, host, root, name, apis, i - 1)[ApiFile(root, name, c) := host.render(apis[c])]
  }

  /**
   * The files after writing a package's snapshots: each configuration's file
   * under `api/<name>/` holds that configuration's rendered API, and no other
   * file changes. The three files are distinct, so the order of the writes
   * does not matter.
   */
  function WriteApis(files: map<Path, string>, host: Host, root: Path, name: string, apis: PackageApis)
    : (r: map<Path, string>)
    requires AllConfigs <= apis.Keys
    ensures ApiFile(root, name, NoFeatures) in r && r[ApiFile(root, name, NoFeatures)] == host.render(apis[NoFeatures])
    ensures ApiFile(root, name, Alloc) in r && r[ApiFile(root, name, Alloc)] == host.render(apis[Alloc])
    ensures ApiFile(root, name, All) in r && r[ApiFile(root, name, All)] == host.render(apis[All])
    ensures r.Keys == files.Keys + {ApiFile(root, name, NoFeatures), ApiFile(root, name, Alloc), ApiFile(root, name, All)}
    ensures forall p ::
      (p in files && p != ApiFile(root, name, NoFeatures) && p != ApiFile(root, name, Alloc)
       && p != ApiFile(root, name, All)) ==> r[p] == files[p]
  {
    ApiFilesDistinct(root, name);
    var w1 := WriteUpTo(files, host, root, name, apis, 1);
    var w2 := WriteUpTo(files, host, root, name, apis, 2);
    var w3 := WriteUpTo(files, host, root, name, apis, 3);
    assert WriteUpTo(files, host, root, name, apis, 0) == files;
    assert w1 == files[ApiFile(root, name, NoFeatures) := host.render(apis[NoFeatures])];
    assert w2 == w1[ApiFile(root, name, Alloc) := host.render(apis[Alloc])];
    assert w3 == w2[ApiFile(root, name, All) := host.render(apis[All])];
    assert w3[ApiFile(root, name, NoFeatures)] == host.render(apis[NoFeatures]);
    assert w3[ApiFile(root, name, Alloc)] == host.render(apis[Alloc]);
    w3
  }

  /** The outcome of the additive check, the files it leaves and the commands it issues. */
  datatype Outcome = Outcome(result: Result<(), ApiError>, cwd: Path, files: map<Path, string>, cmds: seq<Cmd>)

  /**
   * What one package contributes to the check: the error of its snapshots, a
   * non-additive diff between no-features and all-features, or success.
   */
  function Verdict(host: Host, rev: string, root: Path, p: Environment.Package): Result<(), ApiError> {
    var x := Extract(host, rev, root, p.name, p.dir);
    match x.apis
    case Err(e) => Err(e)
    case Ok(apis) =>
      var d := Between(apis[NoFeatures], apis[All]);
      if IsBreaking(d) then Err(NonAdditive(p.name, d.removed, d.changed)) else Ok(())
  }

  /** The drift check on `api/`: `git status`, and `git diff` for display when it is not clean. */
  function StatusCheck(host: Host, rev: string, root: Path, files: map<Path, string>): (o: Outcome)
    ensures o.cwd == root && o.files == files
  {
    var st := StatusCmd(root);
    match host.status(rev, files)
    case None => Outcome(Err(CommandFailed(st)), root, files, [st])
    case Some(out) =>
      if Trim(out) == [] then Outcome(Ok(()), root, files, [st])
      else
        var df := DiffCmd(root);
        if !host.runs(rev, df) then Outcome(Err(CommandFailed(df)), root, files, [st, df])
        else Outcome(Err(Uncommitted), root, files, [st, df])
  }

  /** `check_apis` from the package at position `i` on. */
  function CheckFrom(host: Host, rev: string, root: Path, pkgs: seq<Environment.Package>, i: nat, files: map<Path, string>)
    : Outcome
    requires i <= |pkgs|
    decreases |pkgs| - i
  {
    if i == |pkgs| then StatusCheck(host, rev, root, files)
    else
      var p := pkgs[i];
      var x := Extract(host, rev, root, p.name, p.dir);
      match x.apis
      case Err(e) => Outcome(Err(e), x.cwd, files, x.cmds)
      case Ok(apis) =>
        var written := WriteApis(files, host, root, p.name, apis);
        var d := Between(apis[NoFeatures], apis[All]);
        if IsBreaking(d) then Outcome(Err(NonAdditive(p.name, d.removed, d.changed)), root, written, x.cmds)
        else
          var rest := CheckFrom(host, rev, root, pkgs, i + 1, written);
          Outcome(rest.result, rest.cwd, rest.files, x.cmds + rest.cmds)
  }

  /** Every command of `cmds` is a cargo command. */
  predicate CargoOnly(cmds: seq<Cmd>) {
    forall k :: 0 <= k < |cmds| ==> cmds[k].words != [] && cmds[k].words[0] == "cargo"
  }

  /** Taking snapshots only ever runs cargo: never git. */
  lemma ExtractCargoOnly(host: Host, rev: string, root: Path, name: string, dir: Path)
    ensures CargoOnly(Extract(host, rev, root, name, dir).cmds)
  {
    ExtractSpec(host, rev, root, name, dir);
    forall c ensures CargoOnly(Attempt(host, rev, root, name, dir, c).cmds) {
      AttemptSpec(host, rev, root, name, dir, c);
    }
  }

  /** Every package from position `i` on passes. */
  predicate AllPass(host: Host, rev: string, root: Path, pkgs: seq<Environment.Package>, i: nat) {
    forall k :: i <= k < |pkgs| ==> Verdict(host, rev, root, pkgs[k]).Ok?
  }

  /** Unfolds one package of `CheckFrom` whose snapshots were taken and that passes. */
  lemma CheckFromStep(host: Host, rev: string, root: Path, pkgs: seq<Environment.Package>, i: nat,
                      files: map<Path, string>)
    requires i < |pkgs| && Verdict(host, rev, root, pkgs[i]).Ok?
    ensures var x := Extract(host, rev, root, pkgs[i].name, pkgs[i].dir);
      x.apis.Ok?
      && var rest := CheckFrom(host, rev, root, pkgs, i + 1, WriteApis(files, host, root, pkgs[i].name, x.apis.value));
      CheckFrom(host, rev, root, pkgs, i, files) == Outcome(rest.result, rest.cwd, rest.files, x.cmds + rest.cmds)
  {
  }

  /** A package that fails ends the additive check with its own error. */
  lemma CheckFromStop(host: Host, rev: string, root: Path, pkgs: seq<Environment.Package>, i: nat,
                      files: map<Path, string>)
    requires i < |pkgs| && Verdict(host, rev, root, pkgs[i]).Err?
    ensures CheckFrom(host, rev, root, pkgs, i, files).result == Verdict(host, rev, root, pkgs[i])
    ensures CheckFrom(host, rev, root, pkgs, i, files).cmds == Extract(host, rev, root, pkgs[i].name, pkgs[i].dir).cmds
  {
  }

  /**
   * The additive check succeeds only if every package passes, and `git status`
   * is issued only once every package has passed.
   */
  lemma {:induction false} CheckFromNeedsAllPass(host: Host, rev: string, root: Path,
                                                 pkgs: seq<Environment.Package>, i: nat, files: map<Path, string>)
    requires i <= |pkgs|
    ensures var o := CheckFrom(host, rev, root, pkgs, i, files);
      (o.result.Ok? || StatusCmd(root) in o.cmds) ==> AllPass(host, rev, root, pkgs, i)
    decreases |pkgs| - i
  {
    if i < |pkgs| {
      var p := pkgs[i];
      var x := Extract(host, rev, root, p.name, p.dir);
      ExtractCargoOnly(host, rev, root, p.name, p.dir);
      assert StatusCmd(root) !in x.cmds;
      if Verdict(host, rev, root, p).Ok? {
        var written := WriteApis(files, host, root, p.name, x.apis.value);
        CheckFromStep(host, rev, root, pkgs, i, files);
        CheckFromNeedsAllPass(host, rev, root, pkgs, i + 1, written);
      } else {
        CheckFromStop(host, rev, root, pkgs, i, files);
      }
    }
  }

  /**
   * Once every package passes, `git status` is issued on the files as written
   * and the check succeeds exactly when its trimmed output is empty.
   */
  lemma {:induction false} CheckFromStatus(host: Host, rev: string, root: Path,
                                           pkgs: seq<Environment.Package>, i: nat, files: map<Path, string>)
    requires i <= |pkgs| && AllPass(host, rev, root, pkgs, i)
    ensures var o := CheckFrom(host, rev, root, pkgs, i, files);
      StatusCmd(root) in o.cmds
      && (o.result.Ok? <==> host.status(rev, o.files).Some? && Trim(host.status(rev, o.files).value) == [])
    decreases |pkgs| - i
  {
    if i == |pkgs| {
      StatusCheckSpec(host, rev, root, files);
    } else {
      var p := pkgs[i];
      var x := Extract(host, rev, root, p.name, p.dir);
      CheckFromStep(host, rev, root, pkgs, i, files);
      var written := WriteApis(files, host, root, p.name, x.apis.value);
      CheckFromStatus(host, rev, root, pkgs, i + 1, written);
      var rest := CheckFrom(host, rev, root, pkgs, i + 1, written);
      assert StatusCmd(root) in x.cmds + rest.cmds;
    }
  }

  /** The drift check issues `git status` and passes exactly when its trimmed output is empty. */
  lemma StatusCheckSpec(host: Host, rev: string, root: Path, files: map<Path, string>)
    ensures var o := StatusCheck(host, rev, root, files);
      StatusCmd(root) in o.cmds && o.files == files
      && (o.result.Ok? <==> host.status(rev, files).Some? && Trim(host.status(rev, files).value) == [])
  {
    var st := StatusCmd(root);
    match host.status(rev, files)
    case None =>
    case Some(out) =>
      if Trim(out) != [] {
        var df := DiffCmd(root);
        assert [st, df][0] == st;
      }
  }

  /** The first package that fails decides the error of the additive check. */
  lemma {:induction false} CheckFromFirstFailure(host: Host, rev: string, root: Path,
                                                 pkgs: seq<Environment.Package>, i: nat, files: map<Path, string>, k: nat)
    requires i <= k < |pkgs| && Verdict(host, rev, root, pkgs[k]).Err?
    requires forall j :: i <= j < k ==> Verdict(host, rev, root, pkgs[j]).Ok?
    ensures CheckFrom(host, rev, root, pkgs, i, files).result == Verdict(host, rev, root, pkgs[k])
    decreases k - i
  {
    if i < k {
      var p := pkgs[i];
      var x := Extract(host, rev, root, p.name, p.dir);
      var written := WriteApis(files, host, root, p.name, x.apis.value);
      CheckFromStep(host, rev, root, pkgs, i, files);
      CheckFromFirstFailure(host, rev, root, pkgs, i + 1, written, k);
    } else {
      CheckFromStop(host, rev, root, pkgs, i, files);
    }
  }

  /**
   * A package passes the additive check exactly when its snapshots can be
   * taken and the all-features API extends the no-features API: additions are
   * allowed, removals and signature changes are not.
   */
  lemma VerdictSpec(host: Host, rev: string, root: Path, p: Environment.Package)
    ensures var x := Extract(host, rev, root, p.name, p.dir);
      Verdict(host, rev, root, p).Ok? <==>
        x.apis.Ok? && Extends(x.apis.value[All], x.apis.value[NoFeatures])
  {
    var x := Extract(host, rev, root, p.name, p.dir);
    if x.apis.Ok? {
      NonBreakingIffExtends(x.apis.value[NoFeatures], x.apis.value[All]);
    }
  }

  // ---------------------------------------------------------------------------
  // Baseline semver check (`check_semver`)
  // ---------------------------------------------------------------------------

  /** The snapshots of every package by name, where the shell is left and the commands issued. */
  datatype Collection = Collection(apis: Result<map<string, PackageApis>, ApiError>, cwd: Path, cmds: seq<Cmd>)

  /**
   * The snapshot loop over the packages from position `i` on, added to `acc`;
   * a name seen twice keeps its later snapshots.
   */
  function CollectFrom(host: Host, rev: string, root: Path, pkgs: seq<Environment.Package>, i: nat,
                       acc: map<string, PackageApis>): (x: Collection)
    requires i <= |pkgs|
    ensures x.apis.Ok? ==> x.cwd == root
    decreases |pkgs| - i
  {
    if i == |pkgs| then Collection(Ok(acc), root, [])
    else
      var p := pkgs[i];
      var e := Extract(host, rev, root, p.name, p.dir);
      match e.apis
      case Err(err) => Collection(Err(err), e.cwd, e.cmds)
      case Ok(a) =>
        var rest := CollectFrom(host, rev, root, pkgs, i + 1, acc[p.name := a]);
        Collection(rest.apis, rest.cwd, e.cmds + rest.cmds)
  }

  /** The snapshots of every package at revision `rev`, from the workspace root. */
  function Collect(host: Host, rev: string, root: Path, pkgs: seq<Environment.Package>): Collection {
    CollectFrom(host, rev, root, pkgs, 0, map[])
  }

  /** Every package has one snapshot per configuration. */
  predicate Complete(m: map<string, PackageApis>) {
    forall n :: n in m ==> m[n].Keys == AllConfigs
  }

  /** The snapshots of every package from position `i` on can be taken. */
  predicate AllExtract(host: Host, rev: string, root: Path, pkgs: seq<Environment.Package>, i: nat) {
    forall k :: i <= k < |pkgs| ==> Extract(host, rev, root, pkgs[k].name, pkgs[k].dir).apis.Ok?
  }

  /** Unfolds one package of `CollectFrom` whose snapshots were taken. */
  lemma CollectFromStep(host: Host, rev: string, root: Path, pkgs: seq<Environment.Package>, i: nat,
                        acc: map<string, PackageApis>)
    requires i < |pkgs| && Extract(host, rev, root, pkgs[i].name, pkgs[i].dir).apis.Ok?
    ensures var e := Extract(host, rev, root, pkgs[i].name, pkgs[i].dir);
      var rest := CollectFrom(host, rev, root, pkgs, i + 1, acc[pkgs[i].name := e.apis.value]);
      CollectFrom(host, rev, root, pkgs, i, acc) == Collection(rest.apis, rest.cwd, e.cmds + rest.cmds)
  {
  }

  /** A package whose snapshots fail ends the loop with its error. */
  lemma CollectFromStop(host: Host, rev: string, root: Path, pkgs: seq<Environment.Package>, i: nat,
                        acc: map<string, PackageApis>)
    requires i < |pkgs| && Extract(host, rev, root, pkgs[i].name, pkgs[i].dir).apis.Err?
    ensures var e := Extract(host, rev, root, pkgs[i].name, pkgs[i].dir);
      CollectFrom(host, rev, root, pkgs, i, acc) == Collection(Err(e.apis.error), e.cwd, e.cmds)
  {
  }

  /** The snapshot loop succeeds exactly when every remaining package's snapshots can be taken. */
  lemma {:induction false} CollectFromOk(host: Host, rev: string, root: Path, pkgs: seq<Environment.Package>,
                                         i: nat, acc: map<string, PackageApis>)
    requires i <= |pkgs|
    ensures CollectFrom(host, rev, root, pkgs, i, acc).apis.Ok? <==> AllExtract(host, rev, root, pkgs, i)
    decreases |pkgs| - i
  {
    if i < |pkgs| {
      var e := Extract(host, rev, root, pkgs[i].name, pkgs[i].dir);
      if e.apis.Ok? {
        var acc' := acc[pkgs[i].name := e.apis.value];
        CollectFromStep(host, rev, root, pkgs, i, acc);
        CollectFromOk(host, rev, root, pkgs, i + 1, acc');
        assert CollectFrom(host, rev, root, pkgs, i, acc).apis == CollectFrom(host, rev, root, pkgs, i + 1, acc').apis;
      } else {
        CollectFromStop(host, rev, root, pkgs, i, acc);
        assert CollectFrom(host, rev, root, pkgs, i, acc).apis.Err?;
      }
    }
  }

  /** A successful snapshot loop has a snapshot of every configuration for each package. */
  lemma {:induction false} CollectFromComplete(host: Host, rev: string, root: Path, pkgs: seq<Environment.Package>,
                                               i: nat, acc: map<string, PackageApis>)
    requires i <= |pkgs| && Complete(acc)
    ensures var x := CollectFrom(host, rev, root, pkgs, i, acc); x.apis.Ok? ==> Complete(x.apis.value)
    decreases |pkgs| - i
  {
    if i < |pkgs| {
      var p := pkgs[i];
      var e := Extract(host, rev, root, p.name, p.dir);
      if e.apis.Ok? {
        CollectFromStep(host, rev, root, pkgs, i, acc);
        CollectFromComplete(host, rev, root, pkgs, i + 1, acc[p.name := e.apis.value]);
      } else {
        CollectFromStop(host, rev, root, pkgs, i, acc);
      }
    }
  }

  /** The names of the packages from position `i` on. */
  function NamesFrom(pkgs: seq<Environment.Package>, i: nat): set<string> {
    set k | i <= k < |pkgs| :: pkgs[k].name
  }

  lemma NamesFromStep(pkgs: seq<Environment.Package>, i: nat)
    requires i < |pkgs|
    ensures NamesFrom(pkgs, i) == {pkgs[i].name} + NamesFrom(pkgs, i + 1)
  {
  }

  /** Adding the entry of package `i` then the names after it adds the names from `i` on. */
  lemma KeysStep(pkgs: seq<Environment.Package>, i: nat, acc: map<string, PackageApis>, a: PackageApis)
    requires i < |pkgs|
    ensures acc[pkgs[i].name := a].Keys + NamesFrom(pkgs, i + 1) == acc.Keys + NamesFrom(pkgs, i)
  {
    NamesFromStep(pkgs, i);
  }

  /** A successful snapshot loop holds an entry for every package name and nothing else. */
  lemma {:induction false} CollectFromKeys(host: Host, rev: string, root: Path, pkgs: seq<Environment.Package>,
                                           i: nat, acc: map<string, PackageApis>)
    requires i <= |pkgs|
    ensures var x := CollectFrom(host, rev, root, pkgs, i, acc);
      x.apis.Ok? ==> x.apis.value.Keys == acc.Keys + NamesFrom(pkgs, i)
    decreases |pkgs| - i
  {
    if i < |pkgs| {
      var p := pkgs[i];
      var e := Extract(host, rev, root, p.name, p.dir);
      if e.apis.Ok? {
        CollectFromStep(host, rev, root, pkgs, i, acc);
        var acc' := acc[p.name := e.apis.value];
        CollectFromKeys(host, rev, root, pkgs, i + 1, acc');
        KeysStep(pkgs, i, acc, e.apis.value);
      } else {
        CollectFromStop(host, rev, root, pkgs, i, acc);
      }
    }
  }

  lemma CargoOnlyAppend(a: seq<Cmd>, b: seq<Cmd>)
    requires CargoOnly(a) && CargoOnly(b)
    ensures CargoOnly(a + b)
  {
    forall k | 0 <= k < |a + b| ensures (a + b)[k].words != [] && (a + b)[k].words[0] == "cargo" {
      if k >= |a| {
        assert (a + b)[k] == b[k - |a|];
      }
    }
  }

  /** The snapshot loop only ever runs cargo, whether it succeeds or not. */
  lemma {:induction false} CollectFromCargoOnly(host: Host, rev: string, root: Path, pkgs: seq<Environment.Package>,
                                                i: nat, acc: map<string, PackageApis>)
    requires i <= |pkgs|
    ensures CargoOnly(CollectFrom(host, rev, root, pkgs, i, acc).cmds)
    decreases |pkgs| - i
  {
    if i < |pkgs| {
      var p := pkgs[i];
      var e := Extract(host, rev, root, p.name, p.dir);
      ExtractCargoOnly(host, rev, root, p.name, p.dir);
      if e.apis.Ok? {
        var acc' := acc[p.name := e.apis.value];
        CollectFromStep(host, rev, root, pkgs, i, acc);
        CollectFromCargoOnly(host, rev, root, pkgs, i + 1, acc');
        CargoOnlyAppend(e.cmds, CollectFrom(host, rev, root, pkgs, i + 1, acc').cmds);
      } else {
        CollectFromStop(host, rev, root, pkgs, i, acc);
      }
    }
  }

  /** The errors a snapshot can fail with. */
  predicate IsSnapshotError(e: ApiError) {
    e.CommandFailed? || e.NoTargetDir? || e.BuildFailed?
  }

  /** Taking snapshots fails only with a failed rustdoc, no target directory or an unreadable JSON file. */
  lemma ExtractErrors(host: Host, rev: string, root: Path, name: string, dir: Path)
    ensures var x := Extract(host, rev, root, name, dir); x.apis.Err? ==> IsSnapshotError(x.apis.error)
  {
    ExtractSpec(host, rev, root, name, dir);
  }

  lemma {:induction false} CollectFromErrors(host: Host, rev: string, root: Path, pkgs: seq<Environment.Package>,
                                             i: nat, acc: map<string, PackageApis>)
    requires i <= |pkgs|
    ensures var x := CollectFrom(host, rev, root, pkgs, i, acc); x.apis.Err? ==> IsSnapshotError(x.apis.error)
    decreases |pkgs| - i
  {
    if i < |pkgs| {
      var p := pkgs[i];
      var e := Extract(host, rev, root, p.name, p.dir);
      if e.apis.Ok? {
        CollectFromStep(host, rev, root, pkgs, i, acc);
        CollectFromErrors(host, rev, root, pkgs, i + 1, acc[p.name := e.apis.value]);
      } else {
        CollectFromStop(host, rev, root, pkgs, i, acc);
        ExtractErrors(host, rev, root, p.name, p.dir);
      }
    }
  }

  /** What `Collect` guarantees about its result, in one place. */
  lemma CollectSpec(host: Host, rev: string, root: Path, pkgs: seq<Environment.Package>)
    ensures var x := Collect(host, rev, root, pkgs);
      (x.apis.Ok? <==> AllExtract(host, rev, root, pkgs, 0))
      && (x.apis.Ok? ==> Complete(x.apis.value) && x.apis.value.Keys == NamesFrom(pkgs, 0))
      && CargoOnly(x.cmds)
  {
    CollectFromOk(host, rev, root, pkgs, 0, map[]);
    CollectFromComplete(host, rev, root, pkgs, 0, map[]);
    CollectFromKeys(host, rev, root, pkgs, 0, map[]);
    CollectFromCargoOnly(host, rev, root, pkgs, 0, map[]);
  }

  /** A warning printed for a package that is absent from one of the two snapshot maps. */
  datatype Warning = MissingFromBaseline(package: string) | MissingFromCurrent(package: string)

  /**
   * The comparison of one package's configurations, from position `j` of the
   * catalog on; the baseline side is looked up first.
   */
  function ConfigsFrom(name: string, current: PackageApis, baseline: PackageApis, j: nat): Result<(), ApiError>
    requires j <= |Catalog|
    decreases |Catalog| - j
  {
    if j == |Catalog| then Ok(())
    else
      var c := Catalog[j];
      if c !in baseline then Err(ConfigMissing(true))
      else if c !in current then Err(ConfigMissing(false))
      else if IsBreaking(Between(baseline[c], current[c])) then Err(Breaking(name, c))
      else ConfigsFrom(name, current, baseline, j + 1)
  }

  /**
   * With a snapshot of every configuration on both sides, a package is
   * compatible exactly when every current snapshot extends the baseline one;
   * otherwise the error names the first incompatible configuration in catalog
   * order.
   */
  lemma {:induction false} ConfigsFromSpec(name: string, current: PackageApis, baseline: PackageApis, j: nat)
    requires j <= |Catalog| && current.Keys == AllConfigs && baseline.Keys == AllConfigs
    ensures var r := ConfigsFrom(name, current, baseline, j);
      (r.Ok? <==> forall k :: j <= k < |Catalog| ==> Extends(current[Catalog[k]], baseline[Catalog[k]]))
      && (r.Err? ==>
            r.error.Breaking? && r.error.package == name && j <= Index(r.error.config)
            && !Extends(current[r.error.config], baseline[r.error.config])
            && forall k :: j <= k < Index(r.error.config) ==> Extends(current[Catalog[k]], baseline[Catalog[k]]))
    decreases |Catalog| - j
  {
    if j < |Catalog| {
      var c := Catalog[j];
      NonBreakingIffExtends(baseline[c], current[c]);
      ConfigsFromSpec(name, current, baseline, j + 1);
    }
  }

  /** The outcome of the comparison and the warnings printed on the way. */
  datatype Comparison = Comparison(result: Result<(), ApiError>, warnings: seq<Warning>)

  /**
   * The comparison loop from the package at position `i` on. Each package is
   * removed from the maps once it is looked up, so a name repeated later is
   * reported as missing.
   */
  function CompareFrom(names: seq<string>, i: nat, current: map<string, PackageApis>,
                       baseline: map<string, PackageApis>): Comparison
    requires i <= |names|
    decreases |names| - i
  {
    if i == |names| then Comparison(Ok(()), [])
    else
      var n := names[i];
      if n !in baseline then
        var rest := CompareFrom(names, i + 1, current, baseline);
        Comparison(rest.result, [MissingFromBaseline(n)] + rest.warnings)
      else if n !in current then
        var rest := CompareFrom(names, i + 1, current, baseline - {n});
        Comparison(rest.result, [MissingFromCurrent(n)] + rest.warnings)
      else
        match ConfigsFrom(n, current[n], baseline[n], 0)
        case Err(e) => Comparison(Err(e), [])
        case Ok(_) => CompareFrom(names, i + 1, current - {n}, baseline - {n})
  }

  /** The names from position `i` on are pairwise distinct. */
  predicate DistinctFrom(names: seq<string>, i: nat) {
    forall j, k :: i <= j < k < |names| ==> names[j] != names[k]
  }

  /** Package `n` is on both sides and one of its configurations is incompatible. */
  predicate PackageBreaks(n: string, current: map<string, PackageApis>, baseline: map<string, PackageApis>) {
    n in current && n in baseline
    && exists c :: c in current[n] && c in baseline[n] && !Extends(current[n][c], baseline[n][c])
  }

  /** Every warning names a package from position `i` on. */
  lemma {:induction false} WarningsNamePackages(names: seq<string>, i: nat, current: map<string, PackageApis>,
                                                baseline: map<string, PackageApis>)
    requires i <= |names|
    ensures forall w :: w in CompareFrom(names, i, current, baseline).warnings ==> w.package in names[i..]
    decreases |names| - i
  {
    if i < |names| {
      var n := names[i];
      WarningsNamePackages(names, i + 1, current, baseline);
      WarningsNamePackages(names, i + 1, current, baseline - {n});
      WarningsNamePackages(names, i + 1, current - {n}, baseline - {n});
    }
  }

  /** Removing the current package's entries does not affect the packages after it. */
  lemma RemoveOther(names: seq<string>, i: nat, current: map<string, PackageApis>, baseline: map<string, PackageApis>,
                    cur': map<string, PackageApis>, base': map<string, PackageApis>)
    requires i < |names| && DistinctFrom(names, i)
    requires cur' == current || cur' == current - {names[i]}
    requires base' == baseline || base' == baseline - {names[i]}
    ensures DistinctFrom(names, i + 1)
    ensures forall k :: i < k < |names| ==>
      PackageBreaks(names[k], cur', base') == PackageBreaks(names[k], current, baseline)
      && (names[k] in base' <==> names[k] in baseline) && (names[k] in cur' <==> names[k] in current)
  {
    forall k | i < k < |names|
      ensures PackageBreaks(names[k], cur', base') == PackageBreaks(names[k], current, baseline)
    {
      assert names[k] != names[i];
      if names[k] in current && names[k] in baseline {
        assert cur'[names[k]] == current[names[k]] && base'[names[k]] == baseline[names[k]];
      }
    }
  }

  /** No package from position `i` on breaks. */
  predicate NoneBreak(names: seq<string>, i: nat, current: map<string, PackageApis>, baseline: map<string, PackageApis>) {
    forall k :: i <= k < |names| ==> !PackageBreaks(names[k], current, baseline)
  }

  /** A package on both sides whose configurations all pass, then the comparison of the rest. */
  lemma CompareFromStep(names: seq<string>, i: nat, current: map<string, PackageApis>,
                        baseline: map<string, PackageApis>)
    requires i < |names| && names[i] in current && names[i] in baseline
    requires ConfigsFrom(names[i], current[names[i]], baseline[names[i]], 0).Ok?
    ensures CompareFrom(names, i, current, baseline)
      == CompareFrom(names, i + 1, current - {names[i]}, baseline - {names[i]})
  {
  }

  /**
   * With complete snapshots and distinct names, the comparison succeeds
   * exactly when no package on both sides has an incompatible configuration.
   */
  lemma {:induction false} CompareFromOk(names: seq<string>, i: nat, current: map<string, PackageApis>,
                                         baseline: map<string, PackageApis>)
    requires i <= |names| && DistinctFrom(names, i) && Complete(current) && Complete(baseline)
    ensures CompareFrom(names, i, current, baseline).result.Ok? <==> NoneBreak(names, i, current, baseline)
    decreases |names| - i
  {
    if i < |names| {
      var n := names[i];
      if n !in baseline {
        RemoveOther(names, i, current, baseline, current, baseline);
        CompareFromOk(names, i + 1, current, baseline);
      } else if n !in current {
        RemoveOther(names, i, current, baseline, current, baseline - {n});
        CompareFromOk(names, i + 1, current, baseline - {n});
      } else {
        CompareFromOk(names, i + 1, current - {n}, baseline - {n});
        CompareFromOkShared(names, i, current, baseline);
      }
    }
  }

  /** The step of `CompareFromOk` for a package present on both sides. */
  lemma CompareFromOkShared(names: seq<string>, i: nat, current: map<string, PackageApis>,
                            baseline: map<string, PackageApis>)
    requires i < |names| && DistinctFrom(names, i) && Complete(current) && Complete(baseline)
    requires names[i] in current && names[i] in baseline
    requires var n := names[i];
      CompareFrom(names, i + 1, current - {n}, baseline - {n}).result.Ok?
      <==> NoneBreak(names, i + 1, current - {n}, baseline - {n})
    ensures CompareFrom(names, i, current, baseline).result.Ok? <==> NoneBreak(names, i, current, baseline)
  {
    var n := names[i];
    SharedBreaks(n, current, baseline);
    NoneBreakStep(names, i, current, baseline);
    NoneBreakRemove(names, i, current, baseline, current - {n}, baseline - {n});
    if ConfigsFrom(n, current[n], baseline[n], 0).Ok? {
      CompareFromStep(names, i, current, baseline);
    }
  }

  /** A package present on both sides passes the configuration loop exactly when it does not break. */
  lemma SharedBreaks(n: string, current: map<string, PackageApis>, baseline: map<string, PackageApis>)
    requires n in current && n in baseline && Complete(current) && Complete(baseline)
    ensures ConfigsFrom(n, current[n], baseline[n], 0).Ok? <==> !PackageBreaks(n, current, baseline)
  {
    ConfigsFromSpec(n, current[n], baseline[n], 0);
    if ConfigsFrom(n, current[n], baseline[n], 0).Ok? {
      forall c | c in current[n] && c in baseline[n] ensures Extends(current[n][c], baseline[n][c]) {
        assert Catalog[Index(c)] == c;
      }
    }
  }

  /** `NoneBreak` from position `i` is the package at `i` and the rest. */
  lemma NoneBreakStep(names: seq<string>, i: nat, current: map<string, PackageApis>, baseline: map<string, PackageApis>)
    requires i < |names|
    ensures NoneBreak(names, i, current, baseline)
      <==> !PackageBreaks(names[i], current, baseline) && NoneBreak(names, i + 1, current, baseline)
  {
  }

  /** Removing the package at `i` from either map does not change whether a later package breaks. */
  lemma NoneBreakRemove(names: seq<string>, i: nat, current: map<string, PackageApis>, baseline: map<string, PackageApis>,
                        cur': map<string, PackageApis>, base': map<string, PackageApis>)
    requires i < |names| && DistinctFrom(names, i)
    requires cur' == current || cur' == current - {names[i]}
    requires base' == baseline || base' == baseline - {names[i]}
    ensures NoneBreak(names, i + 1, cur', base') == NoneBreak(names, i + 1, current, baseline)
  {
    RemoveOther(names, i, current, baseline, cur', base');
  }

  /** With complete snapshots on both sides, the only error reported is a breaking change. */
  lemma {:induction false} CompareFromBreaking(names: seq<string>, i: nat, current: map<string, PackageApis>,
                                               baseline: map<string, PackageApis>)
    requires i <= |names| && Complete(current) && Complete(baseline)
    ensures var r := CompareFrom(names, i, current, baseline).result; r.Err? ==> r.error.Breaking?
    decreases |names| - i
  {
    if i < |names| {
      var n := names[i];
      if n !in baseline {
        CompareFromBreaking(names, i + 1, current, baseline);
      } else if n !in current {
        CompareFromBreaking(names, i + 1, current, baseline - {n});
      } else {
        ConfigsFromSpec(n, current[n], baseline[n], 0);
        CompareFromBreaking(names, i + 1, current - {n}, baseline - {n});
      }
    }
  }

  /**
   * With distinct names, a completed comparison warns about a package exactly
   * when it is absent from the baseline, or in the baseline but absent from
   * the current snapshots.
   */
  lemma {:induction false} CompareFromWarnings(names: seq<string>, i: nat, current: map<string, PackageApis>,
                                               baseline: map<string, PackageApis>)
    requires i <= |names| && DistinctFrom(names, i)
    ensures var r := CompareFrom(names, i, current, baseline);
      r.result.Ok? ==> forall k :: i <= k < |names| ==>
        (MissingFromBaseline(names[k]) in r.warnings <==> names[k] !in baseline)
        && (MissingFromCurrent(names[k]) in r.warnings <==> names[k] in baseline && names[k] !in current)
    decreases |names| - i
  {
    if i < |names| {
      var n := names[i];
      if n !in baseline {
        RemoveOther(names, i, current, baseline, current, baseline);
        CompareFromWarnings(names, i + 1, current, baseline);
        WarningsNamePackages(names, i + 1, current, baseline);
      } else if n !in current {
        RemoveOther(names, i, current, baseline, current, baseline - {n});
        CompareFromWarnings(names, i + 1, current, baseline - {n});
        WarningsNamePackages(names, i + 1, current, baseline - {n});
      } else if ConfigsFrom(n, current[n], baseline[n], 0).Ok? {
        RemoveOther(names, i, current, baseline, current - {n}, baseline - {n});
        CompareFromStep(names, i, current, baseline);
        CompareFromWarnings(names, i + 1, current - {n}, baseline - {n});
        WarningsNamePackages(names, i + 1, current - {n}, baseline - {n});
      }
    }
  }

  /** How a semver run ended: its result, the checked-out revision, the shell's directory, commands and warnings. */
  datatype SemverRun = SemverRun(result: Result<(), ApiError>, head: string, cwd: Path, cmds: seq<Cmd>,
                                 warnings: seq<Warning>)

  /**
   * `check_semver` as written, given the two snapshot loops `cur` (at
   * `head0`) and `base` (at the baseline): read the current ref, snapshot
   * every package, detach to the baseline, snapshot every package again,
   * switch back, compare. `base` is only consulted once the detach has
   * succeeded. A failure while snapshotting the baseline returns before the
   * switch back.
   */
  function SemverWith(host: Host, head0: string, root: Path, names: seq<string>, baseline: string,
                      cur: Collection, base: Collection): SemverRun
  {
    var rp := RevParseCmd(root);
    match host.revParse(head0)
    case None => SemverRun(Err(CommandFailed(rp)), head0, root, [rp], [])
    case Some(out) =>
      var current := Trim(out);
      if cur.apis.Err? then SemverRun(Err(cur.apis.error), head0, cur.cwd, [rp] + cur.cmds, [])
      else
        var detach := DetachCmd(root, baseline);
        if !host.runs(head0, detach) then
          SemverRun(Err(CommandFailed(detach)), head0, root, [rp] + cur.cmds + [detach], [])
        else if base.apis.Err? then
          SemverRun(Err(base.apis.error), baseline, base.cwd, [rp] + cur.cmds + [detach] + base.cmds, [])
        else
          var back := SwitchCmd(root, current);
          var cmds := [rp] + cur.cmds + [detach] + base.cmds + [back];
          if !host.runs(baseline, back) then SemverRun(Err(CommandFailed(back)), baseline, root, cmds, [])
          else
            var cmp := CompareFrom(names, 0, cur.apis.value, base.apis.value);
            SemverRun(cmp.result, current, root, cmds, cmp.warnings)
  }

  function Semver(host: Host, head0: string, root: Path, pkgs: seq<Environment.Package>, baseline: string)
    : SemverRun
  {
    SemverWith(host, head0, root, Environment.Names(pkgs), baseline,
               Collect(host, head0, root, pkgs), Collect(host, baseline, root, pkgs))
  }

  /**
   * `check_semver` with the switch back made unconditional once the detach
   * has succeeded: a failure while snapshotting the baseline is reported only
   * after the switch back has been attempted, from wherever the shell was
   * left.
   */
  function SemverRestoringWith(host: Host, head0: string, root: Path, names: seq<string>, baseline: string,
                               cur: Collection, base: Collection): SemverRun
  {
    var rp := RevParseCmd(root);
    match host.revParse(head0)
    case None => SemverRun(Err(CommandFailed(rp)), head0, root, [rp], [])
    case Some(out) =>
      var current := Trim(out);
      if cur.apis.Err? then SemverRun(Err(cur.apis.error), head0, cur.cwd, [rp] + cur.cmds, [])
      else
        var detach := DetachCmd(root, baseline);
        if !host.runs(head0, detach) then
          SemverRun(Err(CommandFailed(detach)), head0, root, [rp] + cur.cmds + [detach], [])
        else
          var back := SwitchCmd(base.cwd, current);
          var cmds := [rp] + cur.cmds + [detach] + base.cmds + [back];
          var restored := host.runs(baseline, back);
          var head := if restored then current else baseline;
          if base.apis.Err? then SemverRun(Err(base.apis.error), head, base.cwd, cmds, [])
          else if !restored then SemverRun(Err(CommandFailed(back)), head, base.cwd, cmds, [])
          else
            var cmp := CompareFrom(names, 0, cur.apis.value, base.apis.value);
            SemverRun(cmp.result, current, base.cwd, cmds, cmp.warnings)
  }

  function SemverRestoring(host: Host, head0: string, root: Path, pkgs: seq<Environment.Package>, baseline: string)
    : SemverRun
  {
    SemverRestoringWith(host, head0, root, Environment.Names(pkgs), baseline,
                        Collect(host, head0, root, pkgs), Collect(host, baseline, root, pkgs))
  }

  /** `git switch` commands. */
  predicate IsSwitch(cmd: Cmd) {
    |cmd.words| >= 2 && cmd.words[0] == "git" && cmd.words[1] == "switch"
  }

  /** The `git switch` commands of `cmds`, in order. */
  function Switches(cmds: seq<Cmd>): (r: seq<Cmd>)
    ensures forall k :: 0 <= k < |r| ==> IsSwitch(r[k])
  {
    if cmds == [] then []
    else (if IsSwitch(cmds[0]) then [cmds[0]] else []) + Switches(cmds[1..])
  }

  lemma {:induction false} SwitchesAppend(a: seq<Cmd>, b: seq<Cmd>)
    ensures Switches(a + b) == Switches(a) + Switches(b)
  {
    if a == [] {
      assert a + b == b;
    } else {
      assert (a + b)[1..] == a[1..] + b;
      SwitchesAppend(a[1..], b);
      AppendAssoc(if IsSwitch(a[0]) then [a[0]] else [], Switches(a[1..]), Switches(b));
    }
  }

  lemma {:induction false} SwitchesCargoOnly(cmds: seq<Cmd>)
    requires CargoOnly(cmds)
    ensures Switches(cmds) == []
  {
    if cmds != [] {
      SwitchesCargoOnly(cmds[1..]);
    }
  }

  /** The switches of a run whose commands have the shape of a semver run past the detach. */
  lemma SwitchesOfRun(rp: Cmd, cur: seq<Cmd>, detach: Cmd, base: seq<Cmd>, back: seq<Cmd>)
    requires !IsSwitch(rp) && IsSwitch(detach) && CargoOnly(cur) && CargoOnly(base)
    ensures Switches([rp] + cur + [detach] + base + back) == [detach] + Switches(back)
  {
    SwitchesCargoOnly(cur);
    SwitchesCargoOnly(base);
    SwitchesAppend([rp], cur);
    SwitchesAppend([rp] + cur, [detach]);
    SwitchesAppend([rp] + cur + [detach], base);
    SwitchesAppend([rp] + cur + [detach] + base, back);
    assert Switches([rp]) == [];
    assert Switches([detach]) == [detach];
  }

  /** What every snapshot loop from `root` guarantees (see `CollectSpec`). */
  predicate Collected(x: Collection, root: Path, pkgs: seq<Environment.Package>) {
    CargoOnly(x.cmds)
    && (x.apis.Err? ==> IsSnapshotError(x.apis.error))
    && (x.apis.Ok? ==> x.cwd == root && Complete(x.apis.value) && x.apis.value.Keys == NamesFrom(pkgs, 0))
  }

  lemma Collects(host: Host, rev: string, root: Path, pkgs: seq<Environment.Package>)
    ensures Collected(Collect(host, rev, root, pkgs), root, pkgs)
  {
    CollectSpec(host, rev, root, pkgs);
    CollectFromErrors(host, rev, root, pkgs, 0, map[]);
  }

  /**
   * On success the checkout is back on the ref read at the start, and the run
   * consisted of the ref read, every current snapshot, exactly one detach to
   * the baseline, every baseline snapshot and exactly one switch back.
   */
  lemma SemverWithSuccess(host: Host, head0: string, root: Path, names: seq<string>, baseline: string,
                          cur: Collection, base: Collection)
    requires CargoOnly(cur.cmds) && CargoOnly(base.cmds)
    ensures var run := SemverWith(host, head0, root, names, baseline, cur, base);
      run.result.Ok? ==>
        host.revParse(head0).Some?
        && run.head == Trim(host.revParse(head0).value)
        && run.cmds == [RevParseCmd(root)] + cur.cmds + [DetachCmd(root, baseline)] + base.cmds + [SwitchCmd(root, run.head)]
        && Switches(run.cmds) == [DetachCmd(root, baseline), SwitchCmd(root, run.head)]
  {
    var run := SemverWith(host, head0, root, names, baseline, cur, base);
    if run.result.Ok? {
      var back := SwitchCmd(root, run.head);
      SwitchesOfRun(RevParseCmd(root), cur.cmds, DetachCmd(root, baseline), base.cmds, [back]);
      assert Switches([back]) == [back];
    }
  }

  lemma SemverSuccess(host: Host, head0: string, root: Path, pkgs: seq<Environment.Package>, baseline: string)
    ensures var run := Semver(host, head0, root, pkgs, baseline);
      run.result.Ok? ==>
        host.revParse(head0).Some?
        && run.head == Trim(host.revParse(head0).value)
        && run.cmds == [RevParseCmd(root)] + Collect(host, head0, root, pkgs).cmds + [DetachCmd(root, baseline)]
                       + Collect(host, baseline, root, pkgs).cmds + [SwitchCmd(root, run.head)]
        && Switches(run.cmds) == [DetachCmd(root, baseline), SwitchCmd(root, run.head)]
  {
    Collects(host, head0, root, pkgs);
    Collects(host, baseline, root, pkgs);
    SemverWithSuccess(host, head0, root, Environment.Names(pkgs), baseline,
                      Collect(host, head0, root, pkgs), Collect(host, baseline, root, pkgs));
  }

  /**
   * The gap in the code as written: when a baseline snapshot fails after the
   * detach, the run returns with the baseline still checked out, and the only
   * switch it issued is the detach.
   */
  lemma SemverBaselineFailureSkipsRestore(host: Host, head0: string, root: Path, pkgs: seq<Environment.Package>,
                                          baseline: string)
    requires host.revParse(head0).Some?
    requires Collect(host, head0, root, pkgs).apis.Ok?
    requires host.runs(head0, DetachCmd(root, baseline))
    requires Collect(host, baseline, root, pkgs).apis.Err?
    ensures var run := Semver(host, head0, root, pkgs, baseline);
      run.result.Err? && run.head == baseline && Switches(run.cmds) == [DetachCmd(root, baseline)]
  {
    var cur := Collect(host, head0, root, pkgs);
    var base := Collect(host, baseline, root, pkgs);
    Collects(host, head0, root, pkgs);
    Collects(host, baseline, root, pkgs);
    var run := SemverWith(host, head0, root, Environment.Names(pkgs), baseline, cur, base);
    SwitchesOfRun(RevParseCmd(root), cur.cmds, DetachCmd(root, baseline), base.cmds, []);
    assert run.cmds == [RevParseCmd(root)] + cur.cmds + [DetachCmd(root, baseline)] + base.cmds + [];
  }

  /**
   * The corrected check: once the detach has succeeded, exactly one switch
   * back to the ref read at the start is issued after it, and the checkout
   * ends on that ref whenever the switch back succeeds, whatever happened to
   * the baseline snapshots. On success it ends there too.
   */
  lemma SemverRestoringWithRestores(host: Host, head0: string, root: Path, names: seq<string>, baseline: string,
                                    cur: Collection, base: Collection)
    requires CargoOnly(cur.cmds) && CargoOnly(base.cmds)
    ensures var run := SemverRestoringWith(host, head0, root, names, baseline, cur, base);
      (run.result.Ok? ==> host.revParse(head0).Some? && run.head == Trim(host.revParse(head0).value))
      && (host.revParse(head0).Some? && cur.apis.Ok? && host.runs(head0, DetachCmd(root, baseline)) ==>
            var back := SwitchCmd(base.cwd, Trim(host.revParse(head0).value));
            Switches(run.cmds) == [DetachCmd(root, baseline), back]
            && (host.runs(baseline, back) ==> run.head == Trim(host.revParse(head0).value)))
  {
    if host.revParse(head0).Some? && cur.apis.Ok? && host.runs(head0, DetachCmd(root, baseline)) {
      var back := SwitchCmd(base.cwd, Trim(host.revParse(head0).value));
      SwitchesOfRun(RevParseCmd(root), cur.cmds, DetachCmd(root, baseline), base.cmds, [back]);
      assert Switches([back]) == [back];
    }
  }

  lemma SemverRestoringRestores(host: Host, head0: string, root: Path, pkgs: seq<Environment.Package>,
                                baseline: string)
    ensures var run := SemverRestoring(host, head0, root, pkgs, baseline);
      (run.result.Ok? ==> host.revParse(head0).Some? && run.head == Trim(host.revParse(head0).value))
      && (host.revParse(head0).Some? && Collect(host, head0, root, pkgs).apis.Ok?
          && host.runs(head0, DetachCmd(root, baseline)) ==>
            var back := SwitchCmd(Collect(host, baseline, root, pkgs).cwd, Trim(host.revParse(head0).value));
            Switches(run.cmds) == [DetachCmd(root, baseline), back]
            && (host.runs(baseline, back) ==> run.head == Trim(host.revParse(head0).value)))
  {
    Collects(host, head0, root, pkgs);
    Collects(host, baseline, root, pkgs);
    SemverRestoringWithRestores(host, head0, root, Environment.Names(pkgs), baseline,
                                Collect(host, head0, root, pkgs), Collect(host, baseline, root, pkgs));
  }

  /** The correction changes nothing when the baseline snapshots succeed from the root. */
  lemma SemverRestoringAgrees(host: Host, head0: string, root: Path, names: seq<string>, baseline: string,
                              cur: Collection, base: Collection)
    requires base.apis.Ok? && base.cwd == root
    ensures SemverRestoringWith(host, head0, root, names, baseline, cur, base)
      == SemverWith(host, head0, root, names, baseline, cur, base)
  {
  }

  /**
   * For snapshot loops that keep their guarantees and distinct names, the
   * semver check never reports a missing configuration, and it succeeds
   * exactly when the ref can be read, every snapshot can be taken, both
   * switches succeed and no package breaks.
   */
  lemma SemverWithVerdict(host: Host, head0: string, root: Path, pkgs: seq<Environment.Package>, baseline: string,
                          cur: Collection, base: Collection)
    requires DistinctFrom(Environment.Names(pkgs), 0) && Collected(cur, root, pkgs) && Collected(base, root, pkgs)
    ensures var run := SemverWith(host, head0, root, Environment.Names(pkgs), baseline, cur, base);
      (run.result.Err? ==> !run.result.error.ConfigMissing?)
      && (run.result.Ok? <==>
            host.revParse(head0).Some? && cur.apis.Ok? && host.runs(head0, DetachCmd(root, baseline))
            && base.apis.Ok? && host.runs(baseline, SwitchCmd(root, Trim(host.revParse(head0).value)))
            && NoneBreak(Environment.Names(pkgs), 0, cur.apis.value, base.apis.value))
  {
    if cur.apis.Ok? && base.apis.Ok? {
      CompareFromOk(Environment.Names(pkgs), 0, cur.apis.value, base.apis.value);
      CompareFromBreaking(Environment.Names(pkgs), 0, cur.apis.value, base.apis.value);
    }
  }

  lemma SemverVerdict(host: Host, head0: string, root: Path, pkgs: seq<Environment.Package>, baseline: string)
    requires DistinctFrom(Environment.Names(pkgs), 0)
    ensures var run := Semver(host, head0, root, pkgs, baseline);
      var cur := Collect(host, head0, root, pkgs);
      var base := Collect(host, baseline, root, pkgs);
      (run.result.Err? ==> !run.result.error.ConfigMissing?)
      && (run.result.Ok? <==>
            host.revParse(head0).Some? && cur.apis.Ok? && host.runs(head0, DetachCmd(root, baseline))
            && base.apis.Ok? && host.runs(baseline, SwitchCmd(root, Trim(host.revParse(head0).value)))
            && NoneBreak(Environment.Names(pkgs), 0, cur.apis.value, base.apis.value))
  {
    Collects(host, head0, root, pkgs);
    Collects(host, baseline, root, pkgs);
    SemverWithVerdict(host, head0, root, pkgs, baseline,
                      Collect(host, head0, root, pkgs), Collect(host, baseline, root, pkgs));
  }

  /**
   * Both snapshot maps hold every package, so the warnings of the comparison
   * loop are never printed on a run that reaches it.
   */
  lemma SemverWithNoWarnings(host: Host, head0: string, root: Path, pkgs: seq<Environment.Package>,
                             baseline: string, cur: Collection, base: Collection)
    requires DistinctFrom(Environment.Names(pkgs), 0) && Collected(cur, root, pkgs) && Collected(base, root, pkgs)
    ensures var run := SemverWith(host, head0, root, Environment.Names(pkgs), baseline, cur, base);
      run.result.Ok? ==> run.warnings == []
  {
    var names := Environment.Names(pkgs);
    if cur.apis.Ok? && base.apis.Ok? {
      NamesPresent(pkgs, cur.apis.value, base.apis.value);
      NoWarningsWhenPresent(names, 0, cur.apis.value, base.apis.value);
    }
  }

  lemma NamesPresent(pkgs: seq<Environment.Package>, current: map<string, PackageApis>,
                     baseline: map<string, PackageApis>)
    requires current.Keys == NamesFrom(pkgs, 0) && baseline.Keys == NamesFrom(pkgs, 0)
    ensures forall k :: 0 <= k < |pkgs| ==>
      Environment.Names(pkgs)[k] in current && Environment.Names(pkgs)[k] in baseline
  {
    forall k | 0 <= k < |pkgs|
      ensures Environment.Names(pkgs)[k] in current && Environment.Names(pkgs)[k] in baseline
    {
      assert pkgs[k].name in NamesFrom(pkgs, 0);
    }
  }

  /** When every remaining name is on both sides and the names are distinct, nothing is warned about. */
  lemma {:induction false} NoWarningsWhenPresent(names: seq<string>, i: nat, current: map<string, PackageApis>,
                                                 baseline: map<string, PackageApis>)
    requires i <= |names| && DistinctFrom(names, i)
    requires forall k :: i <= k < |names| ==> names[k] in current && names[k] in baseline
    ensures CompareFrom(names, i, current, baseline).warnings == []
    decreases |names| - i
  {
    if i < |names| {
      var n := names[i];
      if ConfigsFrom(n, current[n], baseline[n], 0).Ok? {
        RemoveOther(names, i, current, baseline, current - {n}, baseline - {n});
        CompareFromStep(names, i, current, baseline);
        NoWarningsWhenPresent(names, i + 1, current - {n}, baseline - {n});
      }
    }
  }

  lemma SemverNoWarnings(host: Host, head0: string, root: Path, pkgs: seq<Environment.Package>, baseline: string)
    requires DistinctFrom(Environment.Names(pkgs), 0)
    ensures var run := Semver(host, head0, root, pkgs, baseline);
      run.result.Ok? ==> run.warnings == []
  {
    Collects(host, head0, root, pkgs);
    Collects(host, baseline, root, pkgs);
    SemverWithNoWarnings(host, head0, root, pkgs, baseline,
                         Collect(host, head0, root, pkgs), Collect(host, baseline, root, pkgs));
  }

  /**
   * The configuration loop of the comparison for one package: each
   * configuration is taken out of both maps, baseline first, and compared.
   */
  method ComparePackage(name: string, current: PackageApis, baseline: PackageApis) returns (r: Result<(), ApiError>)
    ensures r == ConfigsFrom(name, current, baseline, 0)
  {
    var cur := current;
    var base := baseline;
    for j := 0 to |Catalog|
      invariant ConfigsFrom(name, current, baseline, 0) == ConfigsFrom(name, current, baseline, j)
      invariant forall k :: j <= k < |Catalog| ==>
        (Catalog[k] in base <==> Catalog[k] in baseline) && (Catalog[k] in cur <==> Catalog[k] in current)
      invariant forall k :: j <= k < |Catalog| && Catalog[k] in base ==> base[Catalog[k]] == baseline[Catalog[k]]
      invariant forall k :: j <= k < |Catalog| && Catalog[k] in cur ==> cur[Catalog[k]] == current[Catalog[k]]
    {
      var c := Catalog[j];
      CatalogDistinct();
      if c !in base {
        return Err(ConfigMissing(true));
      }
      var before := base[c];
      base := base - {c};
      if c !in cur {
        return Err(ConfigMissing(false));
      }
      var after := cur[c];
      cur := cur - {c};
      if IsBreaking(Between(before, after)) {
        return Err(Breaking(name, c));
      }
    }
    return Ok(());
  }

  /**
   * The package loop of the comparison: a package missing from the baseline,
   * or from the current snapshots, is skipped with a warning; otherwise both
   * entries are taken out of their maps and compared.
   */
  method CompareAll(names: seq<string>, current: map<string, PackageApis>, baseline: map<string, PackageApis>)
    returns (r: Result<(), ApiError>, warnings: seq<Warning>)
    ensures Comparison(r, warnings) == CompareFrom(names, 0, current, baseline)
  {
    var cur := current;
    var base := baseline;
    warnings := [];
    for i := 0 to |names|
      invariant var rest := CompareFrom(names, i, cur, base);
        CompareFrom(names, 0, current, baseline) == Comparison(rest.result, warnings + rest.warnings)
    {
      var n := names[i];
      ghost var rest := CompareFrom(names, i, cur, base);
      if n !in base {
        AppendAssoc(warnings, [MissingFromBaseline(n)], CompareFrom(names, i + 1, cur, base).warnings);
        warnings := warnings + [MissingFromBaseline(n)];
        continue;
      }
      var b := base[n];
      base := base - {n};
      if n !in cur {
        AppendAssoc(warnings, [MissingFromCurrent(n)], CompareFrom(names, i + 1, cur, base).warnings);
        warnings := warnings + [MissingFromCurrent(n)];
        continue;
      }
      var c := cur[n];
      cur := cur - {n};
      r := ComparePackage(n, c, b);
      if r.Err? {
        assert warnings + [] == warnings;
        return r, warnings;
      }
    }
    assert warnings + [] == warnings;
    r := Ok(());
  }

  // ---------------------------------------------------------------------------
  // The repository
  // ---------------------------------------------------------------------------

  class Workspace {
    /** The shell's current directory. */
    var cwd: Path
    /** The checked-out revision. */
    var head: string
    /** Files of the working tree that the check writes. */
    var files: map<Path, string>
    /** Every command issued, in order. */
    var trace: seq<Cmd>
    const host: Host

    constructor (cwd: Path, head: string, files: map<Path, string>, host: Host)
      ensures this.cwd == cwd && this.head == head && this.files == files && trace == []
      ensures this.host == host
    {
      this.cwd := cwd;
      this.head := head;
      this.files := files;
      this.trace := [];
      this.host := host;
    }

    /** One iteration of `get_package_apis`, from the workspace root: configuration `c` of one package. */
    method TakeSnapshot(name: string, dir: Path, c: FeatureConfig) returns (r: Result<PublicApi, ApiError>)
      modifies this`cwd, this`trace
      ensures var s := Attempt(host, head, old(cwd), name, dir, c);
        r == s.api && cwd == s.cwd && trace == old(trace) + s.cmds
    {
      var root := cwd;
      cwd := ChangeDir(cwd, dir);
      var doc := RustdocCmd(cwd, c);
      trace := trace + [doc];
      if !host.runs(head, doc) {
        return Err(CommandFailed(doc));
      }
      cwd := root;
      var meta := MetadataCmd(cwd);
      trace := trace + [meta];
      var target := host.targetDir(head);
      if target.None? {
        return Err(NoTargetDir);
      }
      var json := JsonPath(target.value, name);
      var api := host.build(head, ChangeDir(root, dir), c, json);
      if api.None? {
        return Err(BuildFailed(json));
      }
      return Ok(api.value);
    }

    /** `get_package_apis`: one snapshot per configuration, in catalog order. */
    method GetPackageApis(name: string, dir: Path) returns (r: Result<PackageApis, ApiError>)
      modifies this`cwd, this`trace
      ensures var x := Extract(host, head, old(cwd), name, dir);
        r == x.apis && cwd == x.cwd && trace == old(trace) + x.cmds
    {
      var root := cwd;
      var apis: PackageApis := map[];
      ghost var done: seq<Cmd> := [];
      for i := 0 to |Catalog|
        invariant cwd == root
        invariant trace == old(trace) + done
        invariant var rest := ExtractFrom(host, head, root, name, dir, i, apis);
          Extract(host, head, root, name, dir) == Extraction(rest.apis, rest.cwd, done + rest.cmds)
      {
        var c := Catalog[i];
        ghost var s := Attempt(host, head, root, name, dir, c);
        ghost var before := trace;
        var api := TakeSnapshot(name, dir, c);
        AppendAssoc(old(trace), done, s.cmds);
        if api.Err? {
          assert ExtractFrom(host, head, root, name, dir, i, apis) == Extraction(Err(api.error), s.cwd, s.cmds);
          return Err(api.error);
        }
        apis := apis[c := api.value];
        ghost var next := ExtractFrom(host, head, root, name, dir, i + 1, apis);
        AppendAssoc(done, s.cmds, next.cmds);
        done := done + s.cmds;
      }
      assert done + [] == done;
      return Ok(apis);
    }

    /** The snapshot loop of `check_semver`: every package's snapshots, by name. */
    method CollectApis(pkgs: seq<Environment.Package>) returns (r: Result<map<string, PackageApis>, ApiError>)
      modifies this`cwd, this`trace
      ensures var x := Collect(host, head, old(cwd), pkgs);
        r == x.apis && cwd == x.cwd && trace == old(trace) + x.cmds
    {
      var root := cwd;
      var acc: map<string, PackageApis> := map[];
      ghost var done: seq<Cmd> := [];
      for i := 0 to |pkgs|
        invariant cwd == root
        invariant trace == old(trace) + done
        invariant var rest := CollectFrom(host, head, root, pkgs, i, acc);
          Collect(host, head, root, pkgs) == Collection(rest.apis, rest.cwd, done + rest.cmds)
      {
        var p := pkgs[i];
        ghost var e := Extract(host, head, root, p.name, p.dir);
        var got := GetPackageApis(p.name, p.dir);
        AppendAssoc(old(trace), done, e.cmds);
        if got.Err? {
          CollectFromStop(host, head, root, pkgs, i, acc);
          return Err(got.error);
        }
        CollectFromStep(host, head, root, pkgs, i, acc);
        ghost var next := CollectFrom(host, head, root, pkgs, i + 1, acc[p.name := got.value]);
        AppendAssoc(done, e.cmds, next.cmds);
        acc := acc[p.name := got.value];
        done := done + e.cmds;
      }
      assert done + [] == done;
      return Ok(acc);
    }

    /** Writes a package's snapshots under `api/<name>/` of the current directory. */
    method WriteApiFiles(name: string, apis: PackageApis)
      requires AllConfigs <= apis.Keys
      modifies this`files
      ensures files == WriteApis(old(files), host, cwd, name, apis)
    {
      for i := 0 to |Catalog|
        invariant files == WriteUpTo(old(files), host, cwd, name, apis, i)
      {
        var c := Catalog[i];
        files := files[ApiFile(cwd, name, c) := host.render(apis[c])];
      }
    }

    /** The drift check on `api/` that ends `check_apis`. */
    method CheckStatus() returns (r: Result<(), ApiError>)
      modifies this`trace
      ensures var o := StatusCheck(host, head, cwd, files);
        r == o.result && trace == old(trace) + o.cmds
    {
      var st := StatusCmd(cwd);
      trace := trace + [st];
      var out := host.status(head, files);
      if out.None? {
        return Err(CommandFailed(st));
      }
      if Trim(out.value) != [] {
        var df := DiffCmd(cwd);
        trace := trace + [df];
        AppendAssoc(old(trace), [st], [df]);
        assert [st] + [df] == [st, df];
        if !host.runs(head, df) {
          return Err(CommandFailed(df));
        }
        return Err(Uncommitted);
      }
      return Ok(());
    }

    /** `check_apis`: snapshots, `api/` files and the additive check per package, then the drift check. */
    method CheckApis(pkgs: seq<Environment.Package>) returns (r: Result<(), ApiError>)
      modifies this`cwd, this`trace, this`files
      ensures var o := CheckFrom(host, head, old(cwd), pkgs, 0, old(files));
        r == o.result && cwd == o.cwd && files == o.files && trace == old(trace) + o.cmds
    {
      var root := cwd;
      ghost var done: seq<Cmd> := [];
      for i := 0 to |pkgs|
        invariant cwd == root
        invariant trace == old(trace) + done
        invariant var rest := CheckFrom(host, head, root, pkgs, i, files);
          CheckFrom(host, head, root, pkgs, 0, old(files)) == Outcome(rest.result, rest.cwd, rest.files, done + rest.cmds)
      {
        ghost var cmds;
        r, cmds := CheckPackage(pkgs, i);
        AppendAssoc(old(trace), done, cmds);
        if r.Err? {
          return;
        }
        ghost var next := CheckFrom(host, head, root, pkgs, i + 1, files);
        AppendAssoc(done, cmds, next.cmds);
        done := done + cmds;
      }
      ghost var last := StatusCheck(host, head, root, files);
      assert CheckFrom(host, head, root, pkgs, |pkgs|, files) == last;
      r := CheckStatus();
      AppendAssoc(old(trace), done, last.cmds);
    }

    /**
     * One package of `check_apis`: its snapshots, its `api/` files and its
     * additive check. An error ends the check where it stands; otherwise the
     * check goes on from the next package in the same directory.
     */
    method CheckPackage(pkgs: seq<Environment.Package>, i: nat) returns (r: Result<(), ApiError>, ghost cmds: seq<Cmd>)
      requires i < |pkgs|
      modifies this`cwd, this`trace, this`files
      ensures cmds == Extract(host, head, old(cwd), pkgs[i].name, pkgs[i].dir).cmds
      ensures trace == old(trace) + cmds
      ensures r.Err? ==> CheckFrom(host, head, old(cwd), pkgs, i, old(files)) == Outcome(r, cwd, files, cmds)
      ensures r.Ok? ==> cwd == old(cwd)
      ensures r.Ok? ==> (
        var rest := CheckFrom(host, head, old(cwd), pkgs, i + 1, files);
        CheckFrom(host, head, old(cwd), pkgs, i, old(files)) == Outcome(rest.result, rest.cwd, rest.files, cmds + rest.cmds))
    {
      var p := pkgs[i];
      ghost var x := Extract(host, head, cwd, p.name, p.dir);
      cmds := x.cmds;
      var got := GetPackageApis(p.name, p.dir);
      if got.Err? {
        return Err(got.error), cmds;
      }
      var apis := got.value;
      WriteApiFiles(p.name, apis);
      var d := Between(apis[NoFeatures], apis[All]);
      if IsBreaking(d) {
        return Err(NonAdditive(p.name, d.removed, d.changed)), cmds;
      }
      r := Ok(());
    }

    /**
     * `check_semver` as written: on success the checkout is back on the ref
     * read at the start (`SemverSuccess`); a failing baseline snapshot leaves
     * it on the baseline (`SemverBaselineFailureSkipsRestore`).
     */
    method CheckSemver(pkgs: seq<Environment.Package>, baseline: string) returns (r: Result<(), ApiError>, warnings: seq<Warning>)
      modifies this`cwd, this`trace, this`head
      ensures var run := Semver(host, old(head), old(cwd), pkgs, baseline);
        r == run.result && warnings == run.warnings && head == run.head && cwd == run.cwd
        && trace == old(trace) + run.cmds
    {
      var root := cwd;
      ghost var head0 := head;
      ghost var cur := Collect(host, head0, root, pkgs);
      ghost var base := Collect(host, baseline, root, pkgs);
      ghost var run := SemverWith(host, head0, root, Environment.Names(pkgs), baseline, cur, base);
      var rp := RevParseCmd(cwd);
      trace := trace + [rp];
      var out := host.revParse(head);
      if out.None? {
        return Err(CommandFailed(rp)), [];
      }
      var current := Trim(out.value);
      var curApis := CollectApis(pkgs);
      AppendAssoc(old(trace), [rp], cur.cmds);
      if curApis.Err? {
        return Err(curApis.error), [];
      }
      var detach := DetachCmd(cwd, baseline);
      trace := trace + [detach];
      AppendAssoc(old(trace), [rp] + cur.cmds, [detach]);
      if !host.runs(head, detach) {
        return Err(CommandFailed(detach)), [];
      }
      head := baseline;
      var baseApis := CollectApis(pkgs);
      AppendAssoc(old(trace), [rp] + cur.cmds + [detach], base.cmds);
      if baseApis.Err? {
        return Err(baseApis.error), [];
      }
      var back := SwitchCmd(cwd, current);
      trace := trace + [back];
      AppendAssoc(old(trace), [rp] + cur.cmds + [detach] + base.cmds, [back]);
      if !host.runs(head, back) {
        return Err(CommandFailed(back)), [];
      }
      head := current;
      r, warnings := CompareAll(Environment.Names(pkgs), curApis.value, baseApis.value);
    }

    /**
     * `check_semver` with the restore made unconditional: once the detach has
     * succeeded, the switch back is attempted whatever happened to the
     * baseline snapshots (`SemverRestoringRestores`).
     */
    method CheckSemverRestoring(pkgs: seq<Environment.Package>, baseline: string)
      returns (r: Result<(), ApiError>, warnings: seq<Warning>)
      modifies this`cwd, this`trace, this`head
      ensures var run := SemverRestoring(host, old(head), old(cwd), pkgs, baseline);
        r == run.result && warnings == run.warnings && head == run.head && cwd == run.cwd
        && trace == old(trace) + run.cmds
    {
      var root := cwd;
      ghost var head0 := head;
      ghost var cur := Collect(host, head0, root, pkgs);
      ghost var base := Collect(host, baseline, root, pkgs);
      ghost var run := SemverRestoringWith(host, head0, root, Environment.Names(pkgs), baseline, cur, base);
      var rp := RevParseCmd(cwd);
      trace := trace + [rp];
      var out := host.revParse(head);
      if out.None? {
        return Err(CommandFailed(rp)), [];
      }
      var current := Trim(out.value);
      var curApis := CollectApis(pkgs);
      AppendAssoc(old(trace), [rp], cur.cmds);
      if curApis.Err? {
        return Err(curApis.error), [];
      }
      var detach := DetachCmd(cwd, baseline);
      trace := trace + [detach];
      AppendAssoc(old(trace), [rp] + cur.cmds, [detach]);
      if !host.runs(head, detach) {
        return Err(CommandFailed(detach)), [];
      }
      head := baseline;
      var baseApis := CollectApis(pkgs);
      AppendAssoc(old(trace), [rp] + cur.cmds + [detach], base.cmds);
      var back := SwitchCmd(cwd, current);
      trace := trace + [back];
      AppendAssoc(old(trace), [rp] + cur.cmds + [detach] + base.cmds, [back]);
      var restored := host.runs(head, back);
      if restored {
        head := current;
      }
      if baseApis.Err? {
        return Err(baseApis.error), [];
      }
      if !restored {
        return Err(CommandFailed(back)), [];
      }
      r, warnings := CompareAll(Environment.Names(pkgs), curApis.value, baseApis.value);
    }

    /**
     * `run`: the toolchain check (its verdict `toolchainOk` is an input), the
     * package list from `cargo metadata`, then the semver check against
     * `baseline` when one is given, the additive check otherwise. The semver
     * check is the one with the unconditional restore.
     */
    method Run(requested: seq<string>, baseline: Option<string>, toolchainOk: bool)
      returns (r: Result<(), ApiError>, warnings: seq<Warning>)
      modifies this`cwd, this`trace, this`head, this`files
      ensures !toolchainOk ==>
        r == Err(WrongToolchain) && warnings == [] && trace == old(trace)
        && head == old(head) && cwd == old(cwd) && files == old(files)
      ensures toolchainOk ==>
        var pk := Environment.PackageList(host.metadata(old(head)), requested);
        var before := old(trace) + [MetadataCmd(old(cwd))];
        match pk
        case Err(e) =>
          r == Err(Packages(e)) && warnings == [] && trace == before
          && head == old(head) && cwd == old(cwd) && files == old(files)
        case Ok(pkgs) =>
          if baseline.Some? then
            var run := SemverRestoring(host, old(head), old(cwd), pkgs, baseline.value);
            r == run.result && warnings == run.warnings && head == run.head && cwd == run.cwd
            && files == old(files) && trace == before + run.cmds
          else
            var o := CheckFrom(host, old(head), old(cwd), pkgs, 0, old(files));
            r == o.result && warnings == [] && head == old(head) && cwd == o.cwd && files == o.files
            && trace == before + o.cmds
    {
      if !toolchainOk {
        return Err(WrongToolchain), [];
      }
      trace := trace + [MetadataCmd(cwd)];
      var pk := Environment.GetPackages(host.metadata(head), requested);
      if pk.Err? {
        return Err(Packages(pk.error)), [];
      }
      if baseline.Some? {
        r, warnings := CheckSemverRestoring(pk.value, baseline.value);
        AppendAssoc(old(trace), [MetadataCmd(old(cwd))], SemverRestoring(host, old(head), old(cwd), pk.value, baseline.value).cmds);
      } else {
        r := CheckApis(pk.value);
        warnings := [];
      }
    }
  }
}
