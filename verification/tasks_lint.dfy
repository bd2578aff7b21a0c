/**
 * The lint task of the `tasks` tool: clippy over the workspace and over each
 * crate directory, then the duplicate-dependency check. It filters the output
 * of `cargo tree` as cargo-rbmt does, but its configuration has no defaults:
 * a configuration file without the allow-list cannot be read.
 */
module TasksLint {
  import opened ShellModel
  import opened Strings
  import opened Environment
  import opened Lint

  /** `LintConfig::load`: a missing file allows nothing; the setting is required once the file exists. */
  function LoadTasksConfig(file: ConfigFile): (r: Result<seq<string>, LintError>)
    ensures r.Err? <==> file.Unreadable? || (file.Parsed? && file.allowedDuplicates.None?)
    ensures file.Missing? ==> r == Ok([])
  {
    match file
    case Missing => Ok([])
    case Unreadable => Err(ConfigUnreadable)
    case Parsed(allowed) => if allowed.Some? then Ok(allowed.value) else Err(ConfigUnreadable)
  }

  /** The two loaders agree except on a file without the setting, which only cargo-rbmt accepts. */
  lemma LoadersAgree(file: ConfigFile)
    ensures !(file.Parsed? && file.allowedDuplicates.None?) ==> LoadTasksConfig(file) == LoadConfig(file)
    ensures file.Parsed? && file.allowedDuplicates.None? ==>
      LoadTasksConfig(file).Err? && LoadConfig(file) == Ok([])
  {
  }

  const TasksTreeWords: seq<string> := ["cargo", "tree", "--target=all", "--all-features", "--duplicates"]

  /** `check_duplicate_deps`. */
  function TasksDuplicatesStep(sh: Shell, config: ConfigFile): Step<LintError>
    reads sh`cwd, sh`vars
  {
    match LoadTasksConfig(config)
    case Err(e) => Step(Err(e), [])
    case Ok(allowed) =>
      var tree := sh.CmdOf(TasksTreeWords);
      var dups := DuplicateLines(sh.output(tree), allowed);
      if dups == [] then Step(Ok(()), [tree])
      else Step(if sh.succeeds(tree) then Err(DuplicatesFound(dups)) else Err(CommandFailed), [tree, tree])
  }

  /**
   * With a loadable configuration the check fails exactly when some line of
   * the tree names a crate that is not allowed, and then reports every such
   * line; a crate line containing an allowed name is never reported.
   */
  lemma TasksDuplicatesStepSpec(sh: Shell, config: ConfigFile)
    requires LoadTasksConfig(config).Ok?
    ensures var allowed := LoadTasksConfig(config).value;
      var output := sh.output(sh.CmdOf(TasksTreeWords));
      var step := TasksDuplicatesStep(sh, config);
      (step.result.Ok? <==> forall x :: x in Lines(output) ==> !IsCrateLine(x) || IsAllowed(x, allowed))
      && (step.result.Err? && step.result.error.DuplicatesFound? ==>
        forall x :: x in step.result.error.lines <==> x in Lines(output) && IsCrateLine(x) && !IsAllowed(x, allowed))
  {
    var allowed := LoadTasksConfig(config).value;
    var output := sh.output(sh.CmdOf(TasksTreeWords));
    KeepDuplicatesMembers(Lines(output), allowed);
    var dups := KeepDuplicates(Lines(output), allowed);
    if dups != [] {
      assert dups[0] in dups;
    }
  }

  method CheckDuplicateDeps(sh: Shell, config: ConfigFile) returns (r: Result<(), LintError>)
    modifies sh`log
    ensures sh.log == old(sh.log) + TasksDuplicatesStep(sh, config).cmds
    ensures r == TasksDuplicatesStep(sh, config).result
  {
    var loaded := LoadTasksConfig(config);
    if loaded.Err? {
      return Err(loaded.error);
    }
    var output := sh.ReadIgnoringStatus(TasksTreeWords);
    var duplicates := DuplicateLines(output, loaded.value);
    if duplicates != [] {
      var ok := sh.Run(TasksTreeWords);
      if !ok {
        return Err(CommandFailed);
      }
      return Err(DuplicatesFound(duplicates));
    }
    return Ok(());
  }

  const TasksWorkspaceWords: seq<seq<string>> := [
    ["cargo", "clippy", "--workspace", "--all-targets", "--all-features", "--keep-going", "--", "-D", "warnings"],
    ["cargo", "clippy", "--workspace", "--all-targets", "--keep-going", "--", "-D", "warnings"]]

  const CrateWords: seq<string> :=
    ["cargo", "clippy", "--all-targets", "--no-default-features", "--keep-going", "--", "-D", "warnings"]

  function TasksWorkspaceStep(sh: Shell): Step<LintError>
    reads sh`cwd, sh`vars
  {
    CommandsStep(CmdsIn(sh.cwd, sh.vars, TasksWorkspaceWords), sh.succeeds)
  }

  method LintWorkspace(sh: Shell) returns (r: Result<(), LintError>)
    modifies sh`log
    ensures sh.log == old(sh.log) + TasksWorkspaceStep(sh).cmds && r == TasksWorkspaceStep(sh).result
  {
    var ok := sh.RunEach(TasksWorkspaceWords);
    r := if ok then Ok(()) else Err(CommandFailed);
  }

  /**
   * `get_crate_dirs`: the directory of every metadata entry with a manifest
   * path, whether or not it has a name.
   */
  function CrateDirs(meta: seq<MetaPackage>): (dirs: seq<Path>)
    ensures |dirs| <= |meta|
  {
    if meta == [] then []
    else
      (if meta[0].manifestPath.Some? then [TrimEndMatches(meta[0].manifestPath.value, ManifestSuffix)] else [])
      + CrateDirs(meta[1..])
  }

  /**
   * Every entry of the package list has its directory among the crate
   * directories: the crate list drops only entries without a manifest path.
   */
  lemma {:induction false} CrateDirsCoverPackages(meta: seq<MetaPackage>)
    ensures forall p :: p in WorkspacePackages(meta) ==> p.dir in CrateDirs(meta)
    ensures forall d :: d in CrateDirs(meta) <==>
      exists k :: 0 <= k < |meta| && meta[k].manifestPath.Some? && d == TrimEndMatches(meta[k].manifestPath.value, ManifestSuffix)
  {
    if meta != [] {
      CrateDirsCoverPackages(meta[1..]);
      forall d ensures d in CrateDirs(meta) <==>
        exists k :: 0 <= k < |meta| && meta[k].manifestPath.Some? && d == TrimEndMatches(meta[k].manifestPath.value, ManifestSuffix)
      {
        if exists k :: 0 <= k < |meta| && meta[k].manifestPath.Some? && d == TrimEndMatches(meta[k].manifestPath.value, ManifestSuffix) {
          var k :| 0 <= k < |meta| && meta[k].manifestPath.Some? && d == TrimEndMatches(meta[k].manifestPath.value, ManifestSuffix);
          if k > 0 {
            assert meta[1..][k - 1] == meta[k];
          }
        }
        if d in CrateDirs(meta[1..]) {
          var k :| 0 <= k < |meta[1..]| && meta[1..][k].manifestPath.Some?
            && d == TrimEndMatches(meta[1..][k].manifestPath.value, ManifestSuffix);
          assert meta[k + 1] == meta[1..][k];
        }
      }
    }
  }

  /** Clippy without default features in each crate directory, in list order. */
  function CrateCmds(cwd: Path, env: map<string, string>, dirs: seq<Path>): (cmds: seq<Cmd>)
    ensures |cmds| == |dirs|
    ensures forall k :: 0 <= k < |dirs| ==> cmds[k] == Cmd(ChangeDir(cwd, dirs[k]), env, CrateWords)
  {
    InDirs(cwd, env, dirs, CrateWords)
  }

  /** `lint_crates`: the crate directories from `cargo metadata`, then clippy in every one. */
  function CratesStep(sh: Shell, parse: string -> Option<seq<MetaPackage>>): Step<LintError>
    reads sh`cwd, sh`vars
  {
    var meta := sh.CmdOf(MetadataWords);
    var parsed := if sh.succeeds(meta) then parse(sh.output(meta)) else None;
    match parsed
    case None => Step(Err(Packages(MetadataUnavailable)), [meta])
    case Some(entries) =>
      var s := CommandsStep(CrateCmds(sh.cwd, sh.vars, CrateDirs(entries)), sh.succeeds);
      Step(s.result, [meta] + s.cmds)
  }

  method LintCrates(sh: Shell, parse: string -> Option<seq<MetaPackage>>) returns (r: Result<(), LintError>)
    modifies sh`log, sh`cwd
    ensures sh.cwd == old(sh.cwd)
    ensures var s := old(CratesStep(sh, parse));
      sh.log == old(sh.log) + s.cmds && r == s.result
  {
    ghost var L := sh.log;
    var root := sh.cwd;
    var out := sh.Read(MetadataWords);
    var parsed := if out.Some? then parse(out.value) else None;
    if parsed.None? {
      return Err(Packages(MetadataUnavailable));
    }
    var dirs := CrateDirs(parsed.value);
    var ok := sh.RunInEachDir(dirs, CrateWords);
    AppendAssoc(L, [MetadataCmdAt(root, sh.vars)], Ran(CrateCmds(root, sh.vars, dirs), sh.succeeds));
    r := if ok then Ok(()) else Err(CommandFailed);
  }

  /**
   * `run`: the toolchain must be nightly (`toolchainOk`); then the workspace
   * lint, the crate lint and the duplicate check, in that order.
   */
  function TasksLintRun(sh: Shell, toolchainOk: bool, parse: string -> Option<seq<MetaPackage>>, config: ConfigFile)
    : Step<LintError>
    reads sh`cwd, sh`vars
  {
    if !toolchainOk then Step(Err(WrongToolchain), [])
    else Then(TasksWorkspaceStep(sh), Then(CratesStep(sh, parse), TasksDuplicatesStep(sh, config)))
  }

  /**
   * The task stops at the first error: the crate lint runs only after the
   * workspace lint succeeded, the duplicate check only after both; the task
   * succeeds exactly when all three do.
   */
  lemma TasksLintRunOrder(sh: Shell, toolchainOk: bool, parse: string -> Option<seq<MetaPackage>>, config: ConfigFile)
    requires toolchainOk
    ensures var w, c, d := TasksWorkspaceStep(sh), CratesStep(sh, parse), TasksDuplicatesStep(sh, config);
      var run := TasksLintRun(sh, toolchainOk, parse, config);
      (w.result.Err? ==> run == w)
      && (w.result.Ok? && c.result.Err? ==> run == Step(c.result, w.cmds + c.cmds))
      && (w.result.Ok? && c.result.Ok? ==> run == Step(d.result, w.cmds + (c.cmds + d.cmds)))
      && (run.result.Ok? <==> w.result.Ok? && c.result.Ok? && d.result.Ok?)
  {
  }

  method Run(sh: Shell, toolchainOk: bool, parse: string -> Option<seq<MetaPackage>>, config: ConfigFile)
    returns (r: Result<(), LintError>)
    modifies sh`log, sh`cwd
    ensures sh.cwd == old(sh.cwd)
    ensures var run := old(TasksLintRun(sh, toolchainOk, parse, config));
      sh.log == old(sh.log) + run.cmds && r == run.result
  {
    if !toolchainOk {
      return Err(WrongToolchain);
    }
    ghost var L := sh.log;
    ghost var s0, s1, s2 := TasksWorkspaceStep(sh), CratesStep(sh, parse), TasksDuplicatesStep(sh, config);
    r := LintWorkspace(sh);
    if r.Err? {
      return;
    }
    r := LintCrates(sh, parse);
    AppendAssoc(L, s0.cmds, s1.cmds);
    if r.Err? {
      return;
    }
    r := CheckDuplicateDeps(sh, config);
    AppendAssoc(s0.cmds, s1.cmds, s2.cmds);
    AppendAssoc(L, s0.cmds + s1.cmds, s2.cmds);
    AppendAssoc(L, s0.cmds, s1.cmds + s2.cmds);
  }
}
