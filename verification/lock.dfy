/**
 * The `lock` task of cargo-rbmt: regenerate `Cargo-minimal.lock` and
 * `Cargo-recent.lock` in the current directory.
 *
 * The directory's files are a map from path to contents. What `cargo check`
 * writes into `Cargo.lock` is an oracle (`resolve`): given the command and
 * the lock file before it, the lock file it leaves behind when it succeeds.
 */
module Lock {
  import opened ShellModel

  /** The kinds of managed lock file; `Recent` is the default. */
  datatype LockFile = Minimal | Recent | Existing

  const DefaultLockFile: LockFile := Recent

  const CargoLock := "Cargo.lock"

  /** `LockFile::filename`. */
  function FileName(t: LockFile): (name: string)
    ensures name == CargoLock <==> t == Existing
  {
    match t
    case Minimal => "Cargo-minimal.lock"
    case Recent => "Cargo-recent.lock"
    case Existing => CargoLock
  }

  /** Distinct kinds name distinct files. */
  lemma FileNamesDistinct(s: LockFile, t: LockFile)
    ensures FileName(s) == FileName(t) <==> s == t
  {
    if s != t && s != Existing && t != Existing {
      assert FileName(s)[6] != FileName(t)[6];
    }
  }

  /** `Path::join` of a name in directory `dir`. */
  function In(dir: Path, name: string): Path {
    JoinPath(dir, name)
  }

  /** Why the task stopped. */
  datatype LockError = WrongToolchain | CommandFailed | Missing(path: Path)

  /** Every file other than `p` is as it was. */
  ghost predicate OthersUnchanged(before: map<Path, string>, after: map<Path, string>, p: Path) {
    forall q :: q != p ==> (q in after <==> q in before) && (q in after ==> after[q] == before[q])
  }

  // ---------------------------------------------------------------------------
  // The three file operations
  // ---------------------------------------------------------------------------

  /** `remove_lock_file`: `Cargo.lock` is gone, whether or not it was there. */
  function Removed(dir: Path, files: map<Path, string>): (r: map<Path, string>)
    ensures In(dir, CargoLock) !in r
    ensures OthersUnchanged(files, r, In(dir, CargoLock))
  {
    files - {In(dir, CargoLock)}
  }

  /** Removing twice is removing once. */
  lemma RemoveIdempotent(dir: Path, files: map<Path, string>)
    ensures Removed(dir, Removed(dir, files)) == Removed(dir, files)
  {
    var once := Removed(dir, files);
    assert In(dir, CargoLock) !in once;
  }

  /** `fs::copy(from, to)`: fails when `from` is missing, otherwise `to` holds the same contents. */
  function Copied(files: map<Path, string>, from: Path, to: Path): (r: Result<map<Path, string>, LockError>)
    ensures r.Err? <==> from !in files
    ensures r.Err? ==> r.error == Missing(from)
    ensures r.Ok? ==> to in r.value && r.value[to] == files[from] && OthersUnchanged(files, r.value, to)
  {
    if from in files then Ok(files[to := files[from]]) else Err(Missing(from))
  }

  /** `copy_lock_file(t)`: `Cargo.lock` copied onto the file of kind `t`. */
  function CopyLock(dir: Path, files: map<Path, string>, t: LockFile): Result<map<Path, string>, LockError> {
    Copied(files, In(dir, CargoLock), In(dir, FileName(t)))
  }

  /** `restore_lock_file(t)`: the file of kind `t` copied onto `Cargo.lock`; nothing to do for `Existing`. */
  function RestoreLock(dir: Path, files: map<Path, string>, t: LockFile): Result<map<Path, string>, LockError> {
    if t == Existing then Ok(files) else Copied(files, In(dir, FileName(t)), In(dir, CargoLock))
  }

  /**
   * Copying makes the chosen file equal `Cargo.lock` and changes nothing else;
   * restoring `Existing` changes nothing; restoring another kind makes
   * `Cargo.lock` equal to that file and fails exactly when the file is missing.
   */
  lemma CopyRestoreSpec(dir: Path, files: map<Path, string>, t: LockFile)
    ensures CopyLock(dir, files, t).Ok? <==> In(dir, CargoLock) in files
    ensures CopyLock(dir, files, t).Ok? ==>
      var after := CopyLock(dir, files, t).value;
      after[In(dir, FileName(t))] == after[In(dir, CargoLock)] == files[In(dir, CargoLock)]
      && OthersUnchanged(files, after, In(dir, FileName(t)))
    ensures t == Existing ==> RestoreLock(dir, files, t) == Ok(files)
    ensures t != Existing ==>
      (RestoreLock(dir, files, t).Err? <==> In(dir, FileName(t)) !in files)
      && (RestoreLock(dir, files, t).Ok? ==>
            var after := RestoreLock(dir, files, t).value;
            after[In(dir, CargoLock)] == files[In(dir, FileName(t))]
            && OthersUnchanged(files, after, In(dir, CargoLock)))
  {
  }

  /** What a successful `cargo check` leaves in the directory. */
  function Checked(dir: Path, files: map<Path, string>, cmd: Cmd, resolve: (Cmd, Option<string>) -> string)
    : map<Path, string>
  {
    var lock := In(dir, CargoLock);
    files[lock := resolve(cmd, if lock in files then Some(files[lock]) else None)]
  }

  // ---------------------------------------------------------------------------
  // run
  // ---------------------------------------------------------------------------

  const DirectMinimalWords: seq<string> := ["cargo", "check", "--all-features", "-Z", "direct-minimal-versions"]
  const MinimalWords: seq<string> := ["cargo", "check", "--all-features", "-Z", "minimal-versions"]
  const RecentWords: seq<string> := ["cargo", "check", "--all-features"]

  /** How the task ended, the commands it issued and the files it left. */
  datatype Outcome = Outcome(result: Result<(), LockError>, cmds: seq<Cmd>, files: map<Path, string>)

  /** `run` in directory `dir`; `toolchainOk` is the nightly check. */
  function LockRun(dir: Path, env: map<string, string>, succeeds: Cmd -> bool,
                   resolve: (Cmd, Option<string>) -> string, toolchainOk: bool, files: map<Path, string>): Outcome
  {
    if !toolchainOk then Outcome(Err(WrongToolchain), [], files)
    else
      var direct := Cmd(dir, env, DirectMinimalWords);
      var f1 := Removed(dir, files);
      if !succeeds(direct) then Outcome(Err(CommandFailed), [direct], f1)
      else
        var minimal := Cmd(dir, env, MinimalWords);
        var f2 := Removed(dir, Checked(dir, f1, direct, resolve));
        if !succeeds(minimal) then Outcome(Err(CommandFailed), [direct, minimal], f2)
        else
          var rest := SaveLocks(dir, env, succeeds, resolve, Checked(dir, f2, minimal, resolve));
          Outcome(rest.result, [direct, minimal] + rest.cmds, rest.files)
  }

  /** The end of `run`, once `Cargo.lock` holds the minimal versions. */
  function SaveLocks(dir: Path, env: map<string, string>, succeeds: Cmd -> bool,
                     resolve: (Cmd, Option<string>) -> string, files: map<Path, string>): Outcome
  {
    match CopyLock(dir, files, Minimal)
    case Err(e) => Outcome(Err(e), [], files)
    case Ok(f4) =>
      match RestoreLock(dir, f4, Recent)
      case Err(e) => Outcome(Err(e), [], f4)
      case Ok(f5) =>
        var recent := Cmd(dir, env, RecentWords);
        if !succeeds(recent) then Outcome(Err(CommandFailed), [recent], f5)
        else
          var f6 := Checked(dir, f5, recent, resolve);
          match CopyLock(dir, f6, Recent)
          case Err(e) => Outcome(Err(e), [recent], f6)
          case Ok(f7) => Outcome(Ok(()), [recent], f7)
  }

  /**
   * On success the three checks ran in order in `dir`; `Cargo-minimal.lock` is
   * what the minimal-versions check resolved from no lock file at all;
   * `Cargo-recent.lock` equals the final `Cargo.lock`, which the plain check
   * resolved starting from the previous `Cargo-recent.lock`.
   */
  lemma LockRunSuccess(dir: Path, env: map<string, string>, succeeds: Cmd -> bool,
                       resolve: (Cmd, Option<string>) -> string, toolchainOk: bool, files: map<Path, string>)
    requires LockRun(dir, env, succeeds, resolve, toolchainOk, files).result.Ok?
    ensures var o := LockRun(dir, env, succeeds, resolve, toolchainOk, files);
      var minimal := Cmd(dir, env, MinimalWords);
      var recent := Cmd(dir, env, RecentWords);
      && toolchainOk
      && o.cmds == [Cmd(dir, env, DirectMinimalWords), minimal, recent]
      && In(dir, "Cargo-recent.lock") in files
      && o.files[In(dir, "Cargo-minimal.lock")] == resolve(minimal, None)
      && o.files[In(dir, "Cargo-recent.lock")] == o.files[In(dir, CargoLock)]
      && o.files[In(dir, CargoLock)] == resolve(recent, Some(files[In(dir, "Cargo-recent.lock")]))
  {
    var direct := Cmd(dir, env, DirectMinimalWords);
    var minimal := Cmd(dir, env, MinimalWords);
    var lock := In(dir, CargoLock);
    var minimalLock := In(dir, FileName(Minimal));
    var recentLock := In(dir, FileName(Recent));
    assert lock != minimalLock && lock != recentLock && minimalLock != recentLock by {
      assert FileName(Minimal)[6] != FileName(Recent)[6];
      assert JoinPath(dir, FileName(Minimal))[|JoinPath(dir, FileName(Minimal))| - 12] == 'm';
    }
    var f2 := Removed(dir, Checked(dir, Removed(dir, files), direct, resolve));
    assert lock !in f2;
    assert recentLock in f2 <==> recentLock in files;
  }

  /** Any failure stops the task: nothing after it runs, and a failing command is the last one issued. */
  lemma LockRunFailure(dir: Path, env: map<string, string>, succeeds: Cmd -> bool,
                       resolve: (Cmd, Option<string>) -> string, toolchainOk: bool, files: map<Path, string>)
    ensures var o := LockRun(dir, env, succeeds, resolve, toolchainOk, files);
      (o.result == Err(WrongToolchain) <==> !toolchainOk)
      && (o.result == Err(WrongToolchain) ==> o.cmds == [] && o.files == files)
      && (o.result == Err(CommandFailed) ==> o.cmds != [] && !succeeds(o.cmds[|o.cmds| - 1]))
      && (forall k :: 0 <= k < |o.cmds| - 1 ==> succeeds(o.cmds[k]))
  {
    if toolchainOk {
      var direct := Cmd(dir, env, DirectMinimalWords);
      var minimal := Cmd(dir, env, MinimalWords);
      if succeeds(direct) && succeeds(minimal) {
        var f2 := Removed(dir, Checked(dir, Removed(dir, files), direct, resolve));
        var rest := SaveLocks(dir, env, succeeds, resolve, Checked(dir, f2, minimal, resolve));
        SaveLocksFailure(dir, env, succeeds, resolve, Checked(dir, f2, minimal, resolve));
        LockRunSaves(dir, env, succeeds, resolve, files);
        PrefixTwoSucceed(direct, minimal, rest.cmds, succeeds);
      }
    }
  }

  /** The saving steps never report a wrong toolchain, and issue at most one command. */
  lemma SaveLocksFailure(dir: Path, env: map<string, string>, succeeds: Cmd -> bool,
                         resolve: (Cmd, Option<string>) -> string, files: map<Path, string>)
    ensures var o := SaveLocks(dir, env, succeeds, resolve, files);
      o.result != Err(WrongToolchain)
      && (o.result == Err(CommandFailed) ==>
            o.cmds == [Cmd(dir, env, RecentWords)] && !succeeds(Cmd(dir, env, RecentWords)))
      && |o.cmds| <= 1
  {
  }

  /** Two successful commands in front keep every command but the last one successful. */
  lemma PrefixTwoSucceed(a: Cmd, b: Cmd, rest: seq<Cmd>, succeeds: Cmd -> bool)
    requires succeeds(a) && succeeds(b) && |rest| <= 1
    ensures var cmds := [a, b] + rest; forall k :: 0 <= k < |cmds| - 1 ==> succeeds(cmds[k])
  {
  }

  /** The directory's files. */
  class FileSystem {
    var files: map<Path, string>

    constructor (files: map<Path, string>)
      ensures this.files == files
    {
      this.files := files;
    }
  }

  /** `remove_lock_file` on the shell's current directory. */
  method RemoveLockFile(sh: Shell, fs: FileSystem)
    modifies fs
    ensures fs.files == Removed(sh.cwd, old(fs.files))
  {
    var lock := In(sh.cwd, CargoLock);
    if lock in fs.files {
      fs.files := fs.files - {lock};
    }
  }

  /** `copy_lock_file`. */
  method CopyLockFile(sh: Shell, fs: FileSystem, t: LockFile) returns (r: Result<(), LockError>)
    modifies fs
    ensures var c := CopyLock(sh.cwd, old(fs.files), t);
      r == (if c.Ok? then Ok(()) else Err(c.error))
      && fs.files == (if c.Ok? then c.value else old(fs.files))
  {
    var from := In(sh.cwd, CargoLock);
    var to := In(sh.cwd, FileName(t));
    if from !in fs.files {
      return Err(Missing(from));
    }
    fs.files := fs.files[to := fs.files[from]];
    r := Ok(());
  }

  /** `restore_lock_file`. */
  method RestoreLockFile(sh: Shell, fs: FileSystem, t: LockFile) returns (r: Result<(), LockError>)
    modifies fs
    ensures var c := RestoreLock(sh.cwd, old(fs.files), t);
      r == (if c.Ok? then Ok(()) else Err(c.error))
      && fs.files == (if c.Ok? then c.value else old(fs.files))
  {
    if t == Existing {
      return Ok(());
    }
    var from := In(sh.cwd, FileName(t));
    var to := In(sh.cwd, CargoLock);
    if from !in fs.files {
      return Err(Missing(from));
    }
    fs.files := fs.files[to := fs.files[from]];
    r := Ok(());
  }

  /** One `cargo check`: it rewrites `Cargo.lock` when it succeeds. */
  method CargoCheck(sh: Shell, fs: FileSystem, words: seq<string>, resolve: (Cmd, Option<string>) -> string)
    returns (ok: bool)
    modifies sh`log, fs
    ensures sh.log == old(sh.log) + [sh.CmdOf(words)]
    ensures ok == sh.succeeds(sh.CmdOf(words))
    ensures fs.files == if ok then Checked(sh.cwd, old(fs.files), sh.CmdOf(words), resolve) else old(fs.files)
  {
    ok := sh.Run(words);
    if ok {
      fs.files := Checked(sh.cwd, fs.files, sh.CmdOf(words), resolve);
    }
  }

  /** `run`: the task through the shell and the file system. */
  method Run(sh: Shell, fs: FileSystem, resolve: (Cmd, Option<string>) -> string, toolchainOk: bool)
    returns (r: Result<(), LockError>)
    modifies sh`log, fs
    ensures var o := LockRun(sh.cwd, sh.vars, sh.succeeds, resolve, toolchainOk, old(fs.files));
      sh.log == old(sh.log) + o.cmds && r == o.result && fs.files == o.files
  {
    if !toolchainOk {
      return Err(WrongToolchain);
    }
    RemoveLockFile(sh, fs);
    var ok := CargoCheck(sh, fs, DirectMinimalWords, resolve);
    if !ok {
      return Err(CommandFailed);
    }
    RemoveLockFile(sh, fs);
    ok := CargoCheck(sh, fs, MinimalWords, resolve);
    if !ok {
      return Err(CommandFailed);
    }
    ghost var checked := [sh.CmdOf(DirectMinimalWords), sh.CmdOf(MinimalWords)];
    assert sh.log == old(sh.log) + checked;
    ghost var saved := SaveLocks(sh.cwd, sh.vars, sh.succeeds, resolve, fs.files);
    LockRunSaves(sh.cwd, sh.vars, sh.succeeds, resolve, old(fs.files));
    r := SaveLockFiles(sh, fs, resolve);
    AppendAssoc(old(sh.log), checked, saved.cmds);
  }

  /** Once both minimal-versions checks pass, `run` ends as the saving of the lock files does. */
  lemma LockRunSaves(dir: Path, env: map<string, string>, succeeds: Cmd -> bool,
                     resolve: (Cmd, Option<string>) -> string, files: map<Path, string>)
    requires succeeds(Cmd(dir, env, DirectMinimalWords)) && succeeds(Cmd(dir, env, MinimalWords))
    ensures var direct := Cmd(dir, env, DirectMinimalWords);
      var minimal := Cmd(dir, env, MinimalWords);
      var f2 := Removed(dir, Checked(dir, Removed(dir, files), direct, resolve));
      var rest := SaveLocks(dir, env, succeeds, resolve, Checked(dir, f2, minimal, resolve));
      LockRun(dir, env, succeeds, resolve, true, files) == Outcome(rest.result, [direct, minimal] + rest.cmds, rest.files)
  {
  }

  /** The end of `run`: save the minimal lock file, then refresh and save the recent one. */
  method SaveLockFiles(sh: Shell, fs: FileSystem, resolve: (Cmd, Option<string>) -> string)
    returns (r: Result<(), LockError>)
    modifies sh`log, fs
    ensures var o := SaveLocks(sh.cwd, sh.vars, sh.succeeds, resolve, old(fs.files));
      sh.log == old(sh.log) + o.cmds && r == o.result && fs.files == o.files
  {
    r := CopyLockFile(sh, fs, Minimal);
    if r.Err? {
      assert old(sh.log) + [] == old(sh.log);
      return;
    }
    r := RestoreLockFile(sh, fs, Recent);
    if r.Err? {
      assert old(sh.log) + [] == old(sh.log);
      return;
    }
    var ok := CargoCheck(sh, fs, RecentWords, resolve);
    if !ok {
      return Err(CommandFailed);
    }
    r := CopyLockFile(sh, fs, Recent);
  }
}
