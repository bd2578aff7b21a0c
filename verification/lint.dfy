/**
 * The lint task of cargo-rbmt: clippy over the workspace and over each
 * package, the duplicate-dependency check on the output of `cargo tree`, and
 * the check that no `clippy.toml` still carries an `msrv` setting. Each step
 * ends the task at its first error.
 */
module Lint {
  import opened ShellModel
  import opened Strings
  import opened Environment

  /** `rbmt.toml` as the lint task reads it; `allowedDuplicates` is `None` when the key is absent. */
  datatype ConfigFile = Missing | Unreadable | Parsed(allowedDuplicates: Option<seq<string>>)

  datatype LintError =
    | WrongToolchain
    | CommandFailed
    | ConfigUnreadable
    | Packages(error: PackageError)
    | DuplicatesFound(lines: seq<string>)
    | ClippyUnreadable(path: Path)
    | MsrvInClippyToml(files: seq<Path>)

  /**
   * `LintConfig::load`: the allow-list of crates that may appear in several
   * versions. A missing file, and a file without the setting, allow nothing.
   */
  function LoadConfig(file: ConfigFile): (r: Result<seq<string>, LintError>)
    ensures r.Err? <==> file.Unreadable?
    ensures file.Missing? || (file.Parsed? && file.allowedDuplicates.None?) ==> r == Ok([])
  {
    match file
    case Missing => Ok([])
    case Unreadable => Err(ConfigUnreadable)
    case Parsed(allowed) => if allowed.Some? then Ok(allowed.value) else Ok([])
  }

  // ---------------------------------------------------------------------------
  // Duplicate dependencies
  // ---------------------------------------------------------------------------

  /** A line of `cargo tree --duplicates` that names a crate: it starts with a letter or digit. */
  predicate IsCrateLine(line: string) {
    line != [] && IsAlphanumeric(line[0])
  }

  /** Some allowed name occurs in the line. */
  predicate IsAllowed(line: string, allowed: seq<string>) {
    exists k :: 0 <= k < |allowed| && Contains(line, allowed[k])
  }

  /** The crate lines that no allowed name covers, in output order. */
  function KeepDuplicates(lines: seq<string>, allowed: seq<string>): (r: seq<string>)
    ensures |r| <= |lines|
  {
    if lines == [] then []
    else
      (if IsCrateLine(lines[0]) && !IsAllowed(lines[0], allowed) then [lines[0]] else [])
      + KeepDuplicates(lines[1..], allowed)
  }

  /** The duplicates reported for the output of `cargo tree`. */
  function DuplicateLines(output: string, allowed: seq<string>): seq<string> {
    KeepDuplicates(Lines(output), allowed)
  }

  /** A line is reported exactly when it names a crate and contains no allowed name. */
  lemma {:induction false} KeepDuplicatesMembers(lines: seq<string>, allowed: seq<string>)
    ensures forall x :: x in KeepDuplicates(lines, allowed) <==>
      x in lines && IsCrateLine(x) && !IsAllowed(x, allowed)
  {
    if lines != [] {
      KeepDuplicatesMembers(lines[1..], allowed);
      assert lines == [lines[0]] + lines[1..];
    }
  }

  /** The filter works line by line: it keeps the output order. */
  lemma {:induction false} KeepDuplicatesAppend(a: seq<string>, b: seq<string>, allowed: seq<string>)
    ensures KeepDuplicates(a + b, allowed) == KeepDuplicates(a, allowed) + KeepDuplicates(b, allowed)
  {
    if a == [] {
      assert a + b == b;
    } else {
      assert (a + b)[1..] == a[1..] + b;
      KeepDuplicatesAppend(a[1..], b, allowed);
    }
  }

  /** Allowing more crates never reports more lines. */
  lemma AllowMore(lines: seq<string>, allowed: seq<string>, more: seq<string>)
    ensures forall x :: x in KeepDuplicates(lines, allowed + more) ==> x in KeepDuplicates(lines, allowed)
  {
    KeepDuplicatesMembers(lines, allowed);
    KeepDuplicatesMembers(lines, allowed + more);
    forall x | IsAllowed(x, allowed) ensures IsAllowed(x, allowed + more) {
      var k :| 0 <= k < |allowed| && Contains(x, allowed[k]);
      assert (allowed + more)[k] == allowed[k];
    }
  }

  /** An empty allowed name occurs in every line, so it silences the check. */
  lemma EmptyNameAllowsAll(lines: seq<string>, allowed: seq<string>)
    requires "" in allowed
    ensures KeepDuplicates(lines, allowed) == []
  {
    KeepDuplicatesMembers(lines, allowed);
    forall x | x in lines ensures IsAllowed(x, allowed) {
      var k :| 0 <= k < |allowed| && allowed[k] == "";
      assert Contains(x, allowed[k]);
    }
    if KeepDuplicates(lines, allowed) != [] {
      assert KeepDuplicates(lines, allowed)[0] in KeepDuplicates(lines, allowed);
    }
  }

  const TreeWords: seq<string> := ["cargo", "--locked", "tree", "--target=all", "--all-features", "--duplicates"]

  /**
   * `check_duplicate_deps`: reads `cargo tree` whatever its exit status; any
   * reported line makes the check fail, after the tree is shown again.
   */
  function DuplicatesStep(sh: Shell, config: ConfigFile): Step<LintError>
    reads sh`cwd, sh`vars
  {
    match LoadConfig(config)
    case Err(e) => Step(Err(e), [])
    case Ok(allowed) =>
      var tree := sh.CmdOf(TreeWords);
      var dups := DuplicateLines(sh.output(tree), allowed);
      if dups == [] then Step(Ok(()), [tree])
      else Step(if sh.succeeds(tree) then Err(DuplicatesFound(dups)) else Err(CommandFailed), [tree, tree])
  }

  /**
   * With a readable configuration the check fails exactly when some line of
   * the tree names a crate that is not allowed, and then reports every such
   * line.
   */
  lemma DuplicatesStepSpec(sh: Shell, config: ConfigFile)
    requires !config.Unreadable?
    ensures var allowed := LoadConfig(config).value;
      var output := sh.output(sh.CmdOf(TreeWords));
      (DuplicatesStep(sh, config).result.Ok? <==>
        forall x :: x in Lines(output) ==> !IsCrateLine(x) || IsAllowed(x, allowed))
      && (DuplicatesStep(sh, config).result.Err? && DuplicatesStep(sh, config).result.error.DuplicatesFound? ==>
        forall x :: x in DuplicatesStep(sh, config).result.error.lines <==>
          x in Lines(output) && IsCrateLine(x) && !IsAllowed(x, allowed))
  {
    var allowed := LoadConfig(config).value;
    var output := sh.output(sh.CmdOf(TreeWords));
    KeepDuplicatesMembers(Lines(output), allowed);
    var dups := KeepDuplicates(Lines(output), allowed);
    if dups != [] {
      assert dups[0] in dups;
    }
  }

  method CheckDuplicateDeps(sh: Shell, config: ConfigFile) returns (r: Result<(), LintError>)
    modifies sh`log
    ensures sh.log == old(sh.log) + DuplicatesStep(sh, config).cmds
    ensures r == DuplicatesStep(sh, config).result
  {
    var loaded := LoadConfig(config);
    if loaded.Err? {
      return Err(loaded.error);
    }
    var output := sh.ReadIgnoringStatus(TreeWords);
    var duplicates := DuplicateLines(output, loaded.value);
    if duplicates != [] {
      var ok := sh.Run(TreeWords);
      if !ok {
        return Err(CommandFailed);
      }
      return Err(DuplicatesFound(duplicates));
    }
    return Ok(());
  }

  // ---------------------------------------------------------------------------
  // Clippy
  // ---------------------------------------------------------------------------

  const WorkspaceWords: seq<seq<string>> := [
    ["cargo", "--locked", "clippy", "--workspace", "--all-targets", "--all-features", "--keep-going", "--", "-D", "warnings"],
    ["cargo", "--locked", "clippy", "--workspace", "--all-targets", "--keep-going", "--", "-D", "warnings"]]

  const PackageWords: seq<string> :=
    ["cargo", "--locked", "clippy", "--all-targets", "--no-default-features", "--keep-going", "--", "-D", "warnings"]

  /** Commands run in order, each with `?`. */
  function CommandsStep(cmds: seq<Cmd>, succeeds: Cmd -> bool): Step<LintError> {
    Step(if AllSucceed(cmds, succeeds) then Ok(()) else Err(CommandFailed), Ran(cmds, succeeds))
  }

  /** `lint_workspace`: clippy with all features, then without features. */
  function WorkspaceStep(sh: Shell): Step<LintError>
    reads sh`cwd, sh`vars
  {
    CommandsStep(CmdsIn(sh.cwd, sh.vars, WorkspaceWords), sh.succeeds)
  }

  method LintWorkspace(sh: Shell) returns (r: Result<(), LintError>)
    modifies sh`log
    ensures sh.log == old(sh.log) + WorkspaceStep(sh).cmds && r == WorkspaceStep(sh).result
  {
    var ok := sh.RunEach(WorkspaceWords);
    r := if ok then Ok(()) else Err(CommandFailed);
  }

  /** Clippy without default features in each package directory, in list order. */
  function PackageCmds(cwd: Path, env: map<string, string>, pkgs: seq<Package>): (cmds: seq<Cmd>)
    ensures |cmds| == |pkgs|
    ensures forall k :: 0 <= k < |pkgs| ==> cmds[k] == Cmd(ChangeDir(cwd, pkgs[k].dir), env, PackageWords)
  {
    InDirs(cwd, env, Dirs(pkgs), PackageWords)
  }

  /** The directories of the packages, in order. */
  function Dirs(pkgs: seq<Package>): (dirs: seq<Path>)
    ensures |dirs| == |pkgs| && forall k :: 0 <= k < |pkgs| ==> dirs[k] == pkgs[k].dir
  {
    seq(|pkgs|, k requires 0 <= k < |pkgs| => pkgs[k].dir)
  }

  /** `lint_packages`: the package list, then clippy in every package. */
  function PackagesStep(sh: Shell, parse: string -> Option<seq<MetaPackage>>, requested: seq<string>): Step<LintError>
    reads sh`cwd, sh`vars
  {
    var meta := sh.CmdOf(MetadataWords);
    match LoadedPackages(sh, parse, requested)
    case Err(e) => Step(Err(Packages(e)), [meta])
    case Ok(pkgs) =>
      var s := CommandsStep(PackageCmds(sh.cwd, sh.vars, pkgs), sh.succeeds);
      Step(s.result, [meta] + s.cmds)
  }

  method LintPackages(sh: Shell, parse: string -> Option<seq<MetaPackage>>, requested: seq<string>)
    returns (r: Result<(), LintError>)
    modifies sh`log, sh`cwd
    ensures sh.cwd == old(sh.cwd)
    ensures var s := old(PackagesStep(sh, parse, requested));
      sh.log == old(sh.log) + s.cmds && r == s.result
  {
    ghost var L := sh.log;
    var root := sh.cwd;
    var found := LoadPackages(sh, parse, requested);
    if found.Err? {
      return Err(Packages(found.error));
    }
    var pkgs := found.value;
    var ok := sh.RunInEachDir(Dirs(pkgs), PackageWords);
    AppendAssoc(L, [MetadataCmdAt(root, sh.vars)], Ran(PackageCmds(root, sh.vars, pkgs), sh.succeeds));
    r := if ok then Ok(()) else Err(CommandFailed);
  }

  function MetadataCmdAt(dir: Path, env: map<string, string>): Cmd {
    Cmd(dir, env, MetadataWords)
  }

  // ---------------------------------------------------------------------------
  // clippy.toml and msrv
  // ---------------------------------------------------------------------------

  const ClippyConfigFiles: seq<string> := ["clippy.toml", ".clippy.toml"]

  /** A clippy configuration file: its top-level keys, or unparsable. */
  datatype TomlFile = Unparsable | Table(keys: set<string>)

  /** The files named `names` that exist in `dir`, in name order. */
  function ExistingIn(dir: Path, names: seq<string>, files: map<Path, TomlFile>): seq<Path> {
    if names == [] then []
    else
      var last := JoinPath(dir, names[|names| - 1]);
      ExistingIn(dir, names[..|names| - 1], files) + (if last in files then [last] else [])
  }

  /** The clippy files that exist in the package directories, package by package. */
  function PackageClippyFiles(pkgs: seq<Package>, files: map<Path, TomlFile>): seq<Path> {
    if pkgs == [] then []
    else PackageClippyFiles(pkgs[..|pkgs| - 1], files) + ExistingIn(pkgs[|pkgs| - 1].dir, ClippyConfigFiles, files)
  }

  /** The clippy files checked: those at the workspace root first, then those of each package. */
  function ClippyFiles(root: Path, pkgs: seq<Package>, files: map<Path, TomlFile>): seq<Path> {
    ExistingIn(root, ClippyConfigFiles, files) + PackageClippyFiles(pkgs, files)
  }

  /** `path` is one of the clippy configuration files of `dir`. */
  predicate IsClippyFileOf(path: Path, dir: Path) {
    path == JoinPath(dir, "clippy.toml") || path == JoinPath(dir, ".clippy.toml")
  }

  lemma ExistingInClippy(dir: Path, files: map<Path, TomlFile>)
    ensures forall p :: p in ExistingIn(dir, ClippyConfigFiles, files) <==> p in files && IsClippyFileOf(p, dir)
  {
    var names := ClippyConfigFiles;
    assert names[..1] == ["clippy.toml"] && names[..1][..0] == [];
    assert ExistingIn(dir, names[..1], files)
      == if JoinPath(dir, "clippy.toml") in files then [JoinPath(dir, "clippy.toml")] else [];
    assert ExistingIn(dir, names, files) == ExistingIn(dir, names[..1], files)
      + if JoinPath(dir, ".clippy.toml") in files then [JoinPath(dir, ".clippy.toml")] else [];
  }

  lemma {:induction false} PackageClippyFilesMembers(pkgs: seq<Package>, files: map<Path, TomlFile>)
    ensures forall p :: p in PackageClippyFiles(pkgs, files) <==>
      p in files && exists k :: 0 <= k < |pkgs| && IsClippyFileOf(p, pkgs[k].dir)
  {
    if pkgs != [] {
      var init := pkgs[..|pkgs| - 1];
      var last := pkgs[|pkgs| - 1];
      PackageClippyFilesMembers(init, files);
      ExistingInClippy(last.dir, files);
      forall p ensures p in PackageClippyFiles(pkgs, files) <==>
        p in files && exists k :: 0 <= k < |pkgs| && IsClippyFileOf(p, pkgs[k].dir)
      {
        if p in files && exists k :: 0 <= k < |pkgs| && IsClippyFileOf(p, pkgs[k].dir) {
          var k :| 0 <= k < |pkgs| && IsClippyFileOf(p, pkgs[k].dir);
          if k < |pkgs| - 1 {
            assert init[k] == pkgs[k];
          }
        }
        if p in PackageClippyFiles(init, files) {
          var k :| 0 <= k < |init| && IsClippyFileOf(p, init[k].dir);
          assert pkgs[k] == init[k];
        }
      }
    }
  }

  /**
   * A file is checked exactly when it exists and is `clippy.toml` or
   * `.clippy.toml` at the workspace root or in a package directory.
   */
  lemma ClippyFilesMembers(root: Path, pkgs: seq<Package>, files: map<Path, TomlFile>)
    ensures forall p :: p in ClippyFiles(root, pkgs, files) <==>
      p in files && (IsClippyFileOf(p, root) || exists k :: 0 <= k < |pkgs| && IsClippyFileOf(p, pkgs[k].dir))
  {
    ExistingInClippy(root, files);
    PackageClippyFilesMembers(pkgs, files);
  }

  /** The checked files that set `msrv`, in order, or the first file that cannot be read. */
  function MsrvFiles(paths: seq<Path>, files: map<Path, TomlFile>): Result<seq<Path>, Path> {
    if paths == [] then Ok([])
    else
      match MsrvFiles(paths[..|paths| - 1], files)
      case Err(q) => Err(q)
      case Ok(found) =>
        var p := paths[|paths| - 1];
        if p !in files || files[p].Unparsable? then Err(p)
        else Ok(found + (if "msrv" in files[p].keys then [p] else []))
  }

  /** The path can be read as a table. */
  predicate Readable(p: Path, files: map<Path, TomlFile>) {
    p in files && files[p].Table?
  }

  /** The file is a table with a top-level `msrv` key. */
  predicate SetsMsrv(p: Path, files: map<Path, TomlFile>) {
    Readable(p, files) && "msrv" in files[p].keys
  }

  /**
   * Every file is read in order: the scan fails at the first file that cannot
   * be read, and otherwise lists exactly the files with a top-level `msrv`.
   */
  lemma {:induction false} MsrvFilesSpec(paths: seq<Path>, files: map<Path, TomlFile>)
    ensures MsrvFiles(paths, files).Ok? <==> forall k :: 0 <= k < |paths| ==> Readable(paths[k], files)
    ensures MsrvFiles(paths, files).Ok? ==> forall p :: p in MsrvFiles(paths, files).value <==>
      p in paths && SetsMsrv(p, files)
    ensures MsrvFiles(paths, files).Err? ==> var q := MsrvFiles(paths, files).error;
      q in paths && !Readable(q, files)
  {
    if paths != [] {
      var init := paths[..|paths| - 1];
      MsrvFilesSpec(init, files);
      assert paths == init + [paths[|paths| - 1]];
      assert forall k :: 0 <= k < |init| ==> init[k] == paths[k];
    }
  }

  /** `check_clippy_toml_msrv` once the package list is known. */
  function MsrvOutcome(root: Path, pkgs: seq<Package>, files: map<Path, TomlFile>): Result<(), LintError> {
    match MsrvFiles(ClippyFiles(root, pkgs, files), files)
    case Err(p) => Err(ClippyUnreadable(p))
    case Ok(found) => if found == [] then Ok(()) else Err(MsrvInClippyToml(found))
  }

  /**
   * When every checked file can be read, the check fails exactly when some
   * checked file sets `msrv`, and then lists every such file.
   */
  lemma MsrvOutcomeSpec(root: Path, pkgs: seq<Package>, files: map<Path, TomlFile>)
    requires MsrvFiles(ClippyFiles(root, pkgs, files), files).Ok?
    ensures var checked := ClippyFiles(root, pkgs, files);
      (MsrvOutcome(root, pkgs, files).Ok? <==> forall p :: p in checked ==> !SetsMsrv(p, files))
      && (MsrvOutcome(root, pkgs, files).Err? ==>
        MsrvOutcome(root, pkgs, files) == Err(MsrvInClippyToml(MsrvFiles(checked, files).value))
        && forall p :: p in MsrvOutcome(root, pkgs, files).error.files <==> p in checked && SetsMsrv(p, files))
  {
    var checked := ClippyFiles(root, pkgs, files);
    MsrvFilesSpec(checked, files);
    var found := MsrvFiles(checked, files).value;
    if found != [] {
      assert found[0] in found;
    }
  }

  function MsrvStep(sh: Shell, parse: string -> Option<seq<MetaPackage>>, requested: seq<string>,
                    files: map<Path, TomlFile>): Step<LintError>
    reads sh`cwd, sh`vars
  {
    var meta := sh.CmdOf(MetadataWords);
    match LoadedPackages(sh, parse, requested)
    case Err(e) => Step(Err(Packages(e)), [meta])
    case Ok(pkgs) => Step(MsrvOutcome(sh.cwd, pkgs, files), [meta])
  }

  /** The clippy configuration files that exist in `dir`. */
  method ExistingClippyFiles(dir: Path, files: map<Path, TomlFile>) returns (found: seq<Path>)
    ensures found == ExistingIn(dir, ClippyConfigFiles, files)
  {
    found := [];
    for n := 0 to |ClippyConfigFiles|
      invariant found == ExistingIn(dir, ClippyConfigFiles[..n], files)
    {
      assert ClippyConfigFiles[..n + 1][..n] == ClippyConfigFiles[..n];
      var path := JoinPath(dir, ClippyConfigFiles[n]);
      if path in files {
        found := found + [path];
      }
    }
    assert ClippyConfigFiles[..|ClippyConfigFiles|] == ClippyConfigFiles;
  }

  /** The clippy configuration files of every package, package by package. */
  method PackagesClippyFiles(pkgs: seq<Package>, files: map<Path, TomlFile>) returns (found: seq<Path>)
    ensures found == PackageClippyFiles(pkgs, files)
  {
    found := [];
    for k := 0 to |pkgs|
      invariant found == PackageClippyFiles(pkgs[..k], files)
    {
      assert pkgs[..k + 1][..k] == pkgs[..k];
      var more := ExistingClippyFiles(pkgs[k].dir, files);
      found := found + more;
    }
    assert pkgs[..|pkgs|] == pkgs;
  }

  /** Reads every file in order, collecting those that set `msrv`, or the first that cannot be read. */
  method ScanMsrv(clippyFiles: seq<Path>, files: map<Path, TomlFile>) returns (r: Result<seq<Path>, Path>)
    ensures r == MsrvFiles(clippyFiles, files)
  {
    var problematic: seq<Path> := [];
    for k := 0 to |clippyFiles|
      invariant MsrvFiles(clippyFiles[..k], files) == Ok(problematic)
    {
      assert clippyFiles[..k + 1][..k] == clippyFiles[..k];
      var path := clippyFiles[k];
      assert clippyFiles[..k + 1][k] == path;
      if path !in files || files[path].Unparsable? {
        assert MsrvFiles(clippyFiles[..k + 1], files) == Err(path);
        MsrvFilesPrefix(clippyFiles, k + 1, files);
        return Err(path);
      }
      ghost var prefix := clippyFiles[..k + 1];
      assert MsrvFiles(prefix, files)
        == Ok(problematic + (if "msrv" in files[path].keys then [path] else []));
      if "msrv" in files[path].keys {
        problematic := problematic + [path];
      } else {
        assert problematic + [] == problematic;
      }
    }
    assert clippyFiles[..|clippyFiles|] == clippyFiles;
    return Ok(problematic);
  }

  /** `check_clippy_toml_msrv`: collects the existing clippy files, then reads each one. */
  method CheckClippyTomlMsrv(sh: Shell, parse: string -> Option<seq<MetaPackage>>, requested: seq<string>,
                             files: map<Path, TomlFile>) returns (r: Result<(), LintError>)
    modifies sh`log
    ensures sh.log == old(sh.log) + MsrvStep(sh, parse, requested, files).cmds
    ensures r == MsrvStep(sh, parse, requested, files).result
  {
    var root := sh.cwd;
    var clippyFiles := ExistingClippyFiles(root, files);
    var found := LoadPackages(sh, parse, requested);
    if found.Err? {
      return Err(Packages(found.error));
    }
    var more := PackagesClippyFiles(found.value, files);
    clippyFiles := clippyFiles + more;
    var scan := ScanMsrv(clippyFiles, files);
    if scan.Err? {
      return Err(ClippyUnreadable(scan.error));
    }
    if scan.value != [] {
      return Err(MsrvInClippyToml(scan.value));
    }
    return Ok(());
  }

  /** Once a prefix of the files fails to read, the whole scan fails with that file. */
  lemma {:induction false} MsrvFilesPrefix(paths: seq<Path>, n: nat, files: map<Path, TomlFile>)
    requires n <= |paths| && MsrvFiles(paths[..n], files).Err?
    ensures MsrvFiles(paths, files) == MsrvFiles(paths[..n], files)
    decreases |paths| - n
  {
    if n < |paths| {
      assert paths[..n + 1][..n] == paths[..n];
      MsrvFilesPrefix(paths, n + 1, files);
    } else {
      assert paths[..n] == paths;
    }
  }

  // ---------------------------------------------------------------------------
  // The task
  // ---------------------------------------------------------------------------

  /**
   * `run`: the toolchain must be nightly (`toolchainOk`); then clippy on the
   * workspace, clippy per package, the duplicate check and the msrv check.
   */
  function LintRun(sh: Shell, toolchainOk: bool, parse: string -> Option<seq<MetaPackage>>, requested: seq<string>,
                   config: ConfigFile, files: map<Path, TomlFile>): Step<LintError>
    reads sh`cwd, sh`vars
  {
    if !toolchainOk then Step(Err(WrongToolchain), [])
    else Then(WorkspaceStep(sh), Then(PackagesStep(sh, parse, requested),
           Then(DuplicatesStep(sh, config), MsrvStep(sh, parse, requested, files))))
  }

  method Run(sh: Shell, toolchainOk: bool, parse: string -> Option<seq<MetaPackage>>, requested: seq<string>,
             config: ConfigFile, files: map<Path, TomlFile>) returns (r: Result<(), LintError>)
    modifies sh`log, sh`cwd
    ensures sh.cwd == old(sh.cwd)
    ensures var run := old(LintRun(sh, toolchainOk, parse, requested, config, files));
      sh.log == old(sh.log) + run.cmds && r == run.result
  {
    if !toolchainOk {
      return Err(WrongToolchain);
    }
    ghost var L := sh.log;
    ghost var s0, s1 := WorkspaceStep(sh), PackagesStep(sh, parse, requested);
    ghost var rest := Then(DuplicatesStep(sh, config), MsrvStep(sh, parse, requested, files));
    ThenAssoc(s0, s1, rest);
    r := LintCode(sh, parse, requested);
    if r.Err? {
      return;
    }
    r := LintConfig(sh, parse, requested, config, files);
    AppendAssoc(L, Then(s0, s1).cmds, rest.cmds);
  }

  /** The clippy half of `run`: the workspace, then each package. */
  method LintCode(sh: Shell, parse: string -> Option<seq<MetaPackage>>, requested: seq<string>)
    returns (r: Result<(), LintError>)
    modifies sh`log, sh`cwd
    ensures sh.cwd == old(sh.cwd)
    ensures var s := old(Then(WorkspaceStep(sh), PackagesStep(sh, parse, requested)));
      sh.log == old(sh.log) + s.cmds && r == s.result
  {
    ghost var L := sh.log;
    ghost var s0, s1 := WorkspaceStep(sh), PackagesStep(sh, parse, requested);
    r := LintWorkspace(sh);
    if r.Err? {
      return;
    }
    r := LintPackages(sh, parse, requested);
    AppendAssoc(L, s0.cmds, s1.cmds);
  }

  /** The configuration half of `run`: duplicate dependencies, then the `clippy.toml` msrv. */
  method LintConfig(sh: Shell, parse: string -> Option<seq<MetaPackage>>, requested: seq<string>,
                    config: ConfigFile, files: map<Path, TomlFile>) returns (r: Result<(), LintError>)
    modifies sh`log
    ensures var s := old(Then(DuplicatesStep(sh, config), MsrvStep(sh, parse, requested, files)));
      sh.log == old(sh.log) + s.cmds && r == s.result
  {
    ghost var L := sh.log;
    ghost var s2, s3 := DuplicatesStep(sh, config), MsrvStep(sh, parse, requested, files);
    r := CheckDuplicateDeps(sh, config);
    if r.Err? {
      return;
    }
    r := CheckClippyTomlMsrv(sh, parse, requested, files);
    AppendAssoc(L, s2.cmds, s3.cmds);
  }

}
