/**
 * The `prerelease` task of cargo-rbmt: for every package that does not opt
 * out, grep its `src` tree for markers that must not ship, then check that
 * the package can be published and that the packaged copy builds and tests.
 *
 * The file system below `src` is a tree value (`Node`): the walk in
 * `check_todos` reads it through a worklist, and the tree's own recursive
 * structure gives the independent definition of what the walk must find.
 */
module Prerelease {
  import opened ShellModel
  import opened Strings
  import opened Environment

  // ---------------------------------------------------------------------------
  // Configuration
  // ---------------------------------------------------------------------------

  /** A package's `rbmt.toml` as the pre-release task reads it; a missing `skip` key parses as `false`. */
  datatype ConfigFile = Missing | Unreadable | Parsed(skip: bool)

  /** `PrereleaseConfig::load`: whether the package opts out; an absent file means it does not. */
  function LoadSkip(file: ConfigFile): (r: Result<bool, ()>)
    ensures r.Err? <==> file.Unreadable?
    ensures r == Ok(true) <==> file == Parsed(true)
    ensures file.Missing? ==> r == Ok(false)
  {
    match file
    case Missing => Ok(false)
    case Unreadable => Err(())
    case Parsed(skip) => Ok(skip)
  }

  /** Why the task stopped. */
  datatype PrereleaseError =
    | NoPackageDirs
    | ConfigUnreadable(dir: Path)
    | ReadFailed(path: Path)
    | IssuesFound(count: nat)
    | CommandFailed
    | NoTargetDir
    | NoMetadata
    | MissingManifestPath
    | MissingName
    | MissingVersion
    | PackageNotFound

  // ---------------------------------------------------------------------------
  // Lines that must not be released
  // ---------------------------------------------------------------------------

  /** Markers of work left to do before a release. */
  const TodoMarkers: seq<string> := ["// TODO", "/* TODO", "// FIXME", "/* FIXME", "\"TBD\""]

  /** Markers that can never be released. */
  const BannedMarkers: seq<string> := ["doc_auto_cfg"]

  /** A line is reported when it contains any marker. */
  predicate Flagged(line: string) {
    (exists m :: m in TodoMarkers && Contains(line, m))
    || (exists m :: m in BannedMarkers && Contains(line, m))
  }

  /** The six markers, spelled out. */
  lemma FlaggedSpec(line: string)
    ensures Flagged(line) <==>
      Contains(line, "// TODO") || Contains(line, "/* TODO") || Contains(line, "// FIXME")
      || Contains(line, "/* FIXME") || Contains(line, "\"TBD\"") || Contains(line, "doc_auto_cfg")
  {
    assert TodoMarkers[0] == "// TODO" && TodoMarkers[1] == "/* TODO" && TodoMarkers[2] == "// FIXME";
    assert TodoMarkers[3] == "/* FIXME" && TodoMarkers[4] == "\"TBD\"" && BannedMarkers[0] == "doc_auto_cfg";
  }

  /** One report: the file, the zero-based line number and the line. */
  datatype Issue = Issue(path: Path, line: nat, text: string)

  /** The reports for one file, in line order. */
  function FileIssues(path: Path, lines: seq<string>): seq<Issue>
    decreases |lines|
  {
    if lines == [] then []
    else
      var n := |lines| - 1;
      FileIssues(path, lines[..n]) + (if Flagged(lines[n]) then [Issue(path, n, lines[n])] else [])
  }

  /**
   * A file's reports are exactly its flagged lines, each under its zero-based
   * number, and they come in line order.
   */
  lemma {:induction false} FileIssuesSpec(path: Path, lines: seq<string>)
    ensures forall i :: i in FileIssues(path, lines) <==>
      i.path == path && i.line < |lines| && i.text == lines[i.line] && Flagged(i.text)
    ensures forall j, k :: 0 <= j < k < |FileIssues(path, lines)| ==>
      FileIssues(path, lines)[j].line < FileIssues(path, lines)[k].line
  {
    if lines != [] {
      var n := |lines| - 1;
      FileIssuesSpec(path, lines[..n]);
      forall i
        ensures i in FileIssues(path, lines) <==>
          i.path == path && i.line < |lines| && i.text == lines[i.line] && Flagged(i.text)
      {
        if i.line < n {
          assert lines[..n][i.line] == lines[i.line];
        }
      }
    }
  }

  /** Reading one Rust file: its lines numbered from zero, the flagged ones kept. */
  method ScanFile(path: Path, lines: seq<string>) returns (found: seq<Issue>)
    ensures found == FileIssues(path, lines)
  {
    found := [];
    for k := 0 to |lines|
      invariant found == FileIssues(path, lines[..k])
    {
      assert lines[..k + 1][..k] == lines[..k];
      if Flagged(lines[k]) {
        found := found + [Issue(path, k, lines[k])];
      }
    }
    assert lines[..|lines|] == lines;
  }

  // ---------------------------------------------------------------------------
  // File names
  // ---------------------------------------------------------------------------

  /** The position of the last `.` in `s`. */
  function LastDot(s: string): (r: Option<nat>)
    ensures r.Some? ==> r.value < |s| && s[r.value] == '.' && forall k :: r.value < k < |s| ==> s[k] != '.'
    ensures r.None? ==> forall k :: 0 <= k < |s| ==> s[k] != '.'
  {
    if s == [] then None
    else if s[|s| - 1] == '.' then Some(|s| - 1)
    else LastDot(s[..|s| - 1])
  }

  /**
   * `Path::extension` of a file name: the text after the last `.`, absent when
   * there is none, when the only `.` starts the name, and for `..`.
   */
  function Extension(name: string): Option<string> {
    if name == ".." then None
    else match LastDot(name)
      case None => None
      case Some(i) => if i == 0 then None else Some(name[i + 1..])
  }

  /** A file is scanned exactly when its name is longer than `.rs` and ends with it. */
  lemma RustFileSpec(name: string)
    ensures Extension(name) == Some("rs") <==> |name| > 3 && EndsWith(name, ".rs")
  {
    if |name| > 3 && EndsWith(name, ".rs") {
      var n := |name|;
      assert name[n - 3] == '.' && name[n - 2] == 'r' && name[n - 1] == 's' by {
        assert name[n - 3..] == ".rs";
      }
      var d := LastDot(name);
      assert d == Some(n - 3);
      assert name[n - 2..] == "rs";
    }
    if Extension(name) == Some("rs") {
      var i := LastDot(name).value;
      assert name[i + 1..] == "rs";
      assert name[|name| - 3..] == ".rs" by {
        assert |name| == i + 3;
      }
    }
  }

  /** The files whose lines `check_todos` reads. */
  predicate IsRustFile(name: string) {
    Extension(name) == Some("rs")
  }

  // ---------------------------------------------------------------------------
  // The source tree
  // ---------------------------------------------------------------------------

  /** An entry of a directory: a subdirectory or a file whose lines are `None` when reading fails. */
  datatype Node =
    | Dir(name: string, entries: seq<Node>)
    | File(name: string, lines: Option<seq<string>>)

  function Size(n: Node): nat {
    match n
    case File(_, _) => 1
    case Dir(_, es) => 1 + EntriesSize(es)
  }

  function EntriesSize(es: seq<Node>): nat {
    if es == [] then 0 else Size(es[0]) + EntriesSize(es[1..])
  }

  lemma {:induction false} EntriesSizeSnoc(es: seq<Node>, e: Node)
    ensures EntriesSize(es + [e]) == EntriesSize(es) + Size(e)
  {
    if es == [] {
      assert [] + [e] == [e];
      assert [e][1..] == [];
    } else {
      assert (es + [e])[1..] == es[1..] + [e];
      EntriesSizeSnoc(es[1..], e);
    }
  }

  /** A directory waiting on the worklist, with the entries `read_dir` will list. */
  datatype Pending = Pending(dir: Path, entries: seq<Node>)

  /** The size of what is left to walk. */
  function Weight(stack: seq<Pending>): nat {
    if stack == [] then 0 else 1 + EntriesSize(stack[0].entries) + Weight(stack[1..])
  }

  lemma {:induction false} WeightAppend(a: seq<Pending>, b: seq<Pending>)
    ensures Weight(a + b) == Weight(a) + Weight(b)
  {
    if a == [] {
      assert a + b == b;
    } else {
      assert (a + b)[1..] == a[1..] + b;
      WeightAppend(a[1..], b);
    }
  }

  /** Reading one directory: the reports of its Rust files and the subdirectories it pushes. */
  datatype Visited = Visited(issues: seq<Issue>, pending: seq<Pending>)

  /**
   * One directory of the walk, entry by entry: a subdirectory is pushed, a Rust
   * file is scanned, anything else is passed over; a Rust file that cannot be
   * read ends the walk with its path.
   */
  function Visit(dir: Path, es: seq<Node>): Result<Visited, Path>
    decreases |es|
  {
    if es == [] then Ok(Visited([], []))
    else
      match Visit(dir, es[..|es| - 1])
      case Err(p) => Err(p)
      case Ok(v) => VisitEntry(dir, v, es[|es| - 1])
  }

  /** One entry of a directory, after the entries before it gave `v`. */
  function VisitEntry(dir: Path, v: Visited, e: Node): Result<Visited, Path> {
    var path := JoinPath(dir, e.name);
    match e
    case Dir(_, sub) => Ok(Visited(v.issues, v.pending + [Pending(path, sub)]))
    case File(_, lines) =>
      if !IsRustFile(e.name) then Ok(v)
      else match lines
        case None => Err(path)
        case Some(ls) => Ok(Visited(v.issues + FileIssues(path, ls), v.pending))
  }

  lemma VisitEntryShrinks(dir: Path, v: Visited, e: Node)
    requires VisitEntry(dir, v, e).Ok?
    ensures Weight(VisitEntry(dir, v, e).value.pending) <= Weight(v.pending) + Size(e)
  {
    if e.Dir? {
      var top := Pending(JoinPath(dir, e.name), e.entries);
      WeightAppend(v.pending, [top]);
      assert Weight([top]) == 1 + EntriesSize(e.entries);
    }
  }

  /** What a directory pushes is smaller than the directory. */
  lemma {:induction false} VisitShrinks(dir: Path, es: seq<Node>)
    requires Visit(dir, es).Ok?
    ensures Weight(Visit(dir, es).value.pending) <= EntriesSize(es)
  {
    if es != [] {
      var n := |es| - 1;
      var e := es[n];
      EntriesSizeSnoc(es[..n], e);
      assert es[..n] + [e] == es;
      VisitShrinks(dir, es[..n]);
      VisitEntryShrinks(dir, Visit(dir, es[..n]).value, e);
    }
  }

  /** `Ok(issues + rest)` when the rest of the walk succeeds. */
  function Prepend(issues: seq<Issue>, r: Result<seq<Issue>, Path>): Result<seq<Issue>, Path> {
    match r
    case Err(p) => Err(p)
    case Ok(rest) => Ok(issues + rest)
  }

  /** The worklist walk of `check_todos`: pop the last directory, read it, push its subdirectories. */
  function Walk(stack: seq<Pending>): Result<seq<Issue>, Path>
    decreases Weight(stack)
  {
    if stack == [] then Ok([])
    else
      var top := stack[|stack| - 1];
      var rest := stack[..|stack| - 1];
      match Visit(top.dir, top.entries)
      case Err(p) => Err(p)
      case Ok(v) =>
        WalkShrinks(stack);
        Prepend(v.issues, Walk(rest + v.pending))
  }

  lemma {:induction false} WalkShrinks(stack: seq<Pending>)
    requires stack != []
    requires Visit(stack[|stack| - 1].dir, stack[|stack| - 1].entries).Ok?
    ensures var top := stack[|stack| - 1];
      Weight(stack[..|stack| - 1] + Visit(top.dir, top.entries).value.pending) < Weight(stack)
  {
    var n := |stack| - 1;
    var top := stack[n];
    VisitShrinks(top.dir, top.entries);
    assert stack == stack[..n] + [top];
    WeightAppend(stack[..n], [top]);
    WeightAppend(stack[..n], Visit(top.dir, top.entries).value.pending);
  }

  // ---------------------------------------------------------------------------
  // What the walk must find, by the tree's own structure
  // ---------------------------------------------------------------------------

  /** Every report under one entry. */
  function EntryIssues(dir: Path, e: Node): set<Issue>
    decreases e
  {
    match e
    case Dir(name, sub) => EntriesIssues(JoinPath(dir, name), sub)
    case File(name, lines) =>
      if IsRustFile(name) && lines.Some? then set i | i in FileIssues(JoinPath(dir, name), lines.value) else {}
  }

  /** Every report under a directory whose entries are `es`. */
  function EntriesIssues(dir: Path, es: seq<Node>): set<Issue>
    decreases es
  {
    if es == [] then {} else EntriesIssues(dir, es[..|es| - 1]) + EntryIssues(dir, es[|es| - 1])
  }

  /** Some Rust file under the entry cannot be read. */
  predicate EntryBroken(dir: Path, e: Node)
    decreases e
  {
    match e
    case Dir(name, sub) => EntriesBroken(JoinPath(dir, name), sub)
    case File(name, lines) => IsRustFile(name) && lines.None?
  }

  predicate EntriesBroken(dir: Path, es: seq<Node>)
    decreases es
  {
    es != [] && (EntriesBroken(dir, es[..|es| - 1]) || EntryBroken(dir, es[|es| - 1]))
  }

  function StackIssues(stack: seq<Pending>): set<Issue> {
    if stack == [] then {}
    else StackIssues(stack[..|stack| - 1]) + EntriesIssues(stack[|stack| - 1].dir, stack[|stack| - 1].entries)
  }

  predicate StackBroken(stack: seq<Pending>) {
    stack != [] && (StackBroken(stack[..|stack| - 1])
      || EntriesBroken(stack[|stack| - 1].dir, stack[|stack| - 1].entries))
  }

  lemma {:induction false} StackAppend(a: seq<Pending>, b: seq<Pending>)
    ensures StackIssues(a + b) == StackIssues(a) + StackIssues(b)
    ensures StackBroken(a + b) <==> StackBroken(a) || StackBroken(b)
  {
    if b == [] {
      assert a + b == a;
    } else {
      var n := |b| - 1;
      assert (a + b)[..|a + b| - 1] == a + b[..n];
      assert (a + b)[|a + b| - 1] == b[n];
      StackAppend(a, b[..n]);
    }
  }

  /**
   * Reading one directory reports its own Rust files, and what is left under
   * it is exactly what it pushes; it fails only when a Rust file under it
   * cannot be read.
   */
  lemma {:induction false} VisitSpec(dir: Path, es: seq<Node>)
    ensures Visit(dir, es).Err? ==> EntriesBroken(dir, es)
    ensures Visit(dir, es).Ok? ==>
      var v := Visit(dir, es).value;
      (EntriesBroken(dir, es) <==> StackBroken(v.pending))
      && EntriesIssues(dir, es) == (set i | i in v.issues) + StackIssues(v.pending)
  {
    if es != [] {
      var n := |es| - 1;
      var e := es[n];
      var path := JoinPath(dir, e.name);
      VisitSpec(dir, es[..n]);
      if Visit(dir, es[..n]).Ok? {
        var v := Visit(dir, es[..n]).value;
        match e
        case Dir(_, sub) =>
          var top := Pending(path, sub);
          assert (v.pending + [top])[..|v.pending|] == v.pending;
          assert StackIssues([top]) == EntriesIssues(path, sub) by {
            assert [top][..0] == [];
          }
        case File(_, lines) =>
          if IsRustFile(e.name) && lines.Some? {
            var found := FileIssues(path, lines.value);
            assert (set i | i in v.issues + found) == (set i | i in v.issues) + (set i | i in found);
          }
      }
    }
  }

  /**
   * The worklist visits the whole tree: it fails exactly when some Rust file
   * below a pending directory cannot be read, and otherwise reports exactly
   * the flagged lines of every Rust file below them.
   */
  lemma {:induction false} WalkSpec(stack: seq<Pending>)
    ensures Walk(stack).Ok? <==> !StackBroken(stack)
    ensures Walk(stack).Ok? ==> (set i | i in Walk(stack).value) == StackIssues(stack)
    decreases Weight(stack)
  {
    if stack != [] {
      var n := |stack| - 1;
      var top := stack[n];
      var rest := stack[..n];
      VisitSpec(top.dir, top.entries);
      if Visit(top.dir, top.entries).Ok? {
        var v := Visit(top.dir, top.entries).value;
        WalkShrinks(stack);
        WalkSpec(rest + v.pending);
        StackAppend(rest, v.pending);
        if Walk(rest + v.pending).Ok? {
          var more := Walk(rest + v.pending).value;
          assert (set i | i in v.issues + more) == (set i | i in v.issues) + (set i | i in more);
        }
      }
    }
  }

  // ---------------------------------------------------------------------------
  // check_todos
  // ---------------------------------------------------------------------------

  /** The walk from `src`, whose entries are `None` when it cannot be listed. */
  function Todos(src: Path, tree: Option<seq<Node>>): Result<seq<Issue>, Path> {
    match tree
    case None => Err(src)
    case Some(es) => Walk([Pending(src, es)])
  }

  /** The task's verdict on a walk: a read failure, the number of reports, or success. */
  function TodosOutcome(walk: Result<seq<Issue>, Path>): Result<(), PrereleaseError> {
    match walk
    case Err(p) => Err(ReadFailed(p))
    case Ok(issues) => if issues == [] then Ok(()) else Err(IssuesFound(|issues|))
  }

  /**
   * `check_todos` passes exactly when `src` can be listed, every Rust file
   * below it can be read, and none of their lines is flagged; when the files
   * can be read but some lines are flagged, the error carries how many.
   */
  lemma TodosSpec(src: Path, tree: Option<seq<Node>>)
    ensures TodosOutcome(Todos(src, tree)).Ok? <==>
      tree.Some? && !EntriesBroken(src, tree.value) && EntriesIssues(src, tree.value) == {}
    ensures Todos(src, tree).Ok? ==>
      tree.Some? && (set i | i in Todos(src, tree).value) == EntriesIssues(src, tree.value)
    ensures TodosOutcome(Todos(src, tree)).Err? && TodosOutcome(Todos(src, tree)).error.IssuesFound? ==>
      Todos(src, tree).Ok? && TodosOutcome(Todos(src, tree)).error.count == |Todos(src, tree).value| > 0
  {
    if tree.Some? {
      var stack := [Pending(src, tree.value)];
      WalkSpec(stack);
      assert stack[..0] == [];
      assert StackIssues(stack) == EntriesIssues(src, tree.value);
      assert StackBroken(stack) == EntriesBroken(src, tree.value);
      if Walk(stack).Ok? {
        var found := Walk(stack).value;
        assert Todos(src, tree) == Ok(found);
        if found != [] {
          assert found[0] in (set j | j in found);
          assert found[0] in EntriesIssues(src, tree.value);
          assert TodosOutcome(Ok(found)).Err?;
        } else {
          assert (set j | j in found) == {};
        }
      }
    }
  }

  /** Reading one directory of the worklist: entries in `read_dir` order. */
  method ReadDir(dir: Path, es: seq<Node>) returns (r: Result<Visited, Path>)
    ensures r == Visit(dir, es)
  {
    var issues: seq<Issue> := [];
    var pushed: seq<Pending> := [];
    for k := 0 to |es|
      invariant Visit(dir, es[..k]) == Ok(Visited(issues, pushed))
    {
      assert es[..k + 1][..k] == es[..k];
      var e := es[k];
      var path := JoinPath(dir, e.name);
      match e
      case Dir(_, sub) =>
        pushed := pushed + [Pending(path, sub)];
      case File(name, lines) =>
        if IsRustFile(name) {
          if lines.None? {
            ghost var m := k + 1;
            assert es[..k + 1][..m - 1] == es[..k];
            VisitStops(dir, es, m);
            return Err(path);
          }
          var found := ScanFile(path, lines.value);
          issues := issues + found;
        }
    }
    assert es[..|es|] == es;
    r := Ok(Visited(issues, pushed));
  }

  /** Once a prefix of a directory fails, the whole directory fails the same way. */
  lemma {:induction false} VisitStops(dir: Path, es: seq<Node>, m: nat)
    requires m <= |es|
    requires Visit(dir, es[..m]).Err?
    ensures Visit(dir, es) == Visit(dir, es[..m])
    decreases |es|
  {
    if m < |es| {
      var n := |es| - 1;
      assert es[..n][..m] == es[..m];
      VisitStops(dir, es[..n], m);
    } else {
      assert es[..m] == es;
    }
  }

  /**
   * `check_todos`: walk `src` with a worklist, collecting the reports; they
   * are the walk's reports in its order, and the result is the walk's verdict.
   */
  method CheckTodos(src: Path, tree: Option<seq<Node>>) returns (r: Result<(), PrereleaseError>, issues: seq<Issue>)
    ensures r == TodosOutcome(Todos(src, tree))
    ensures Todos(src, tree).Ok? ==> issues == Todos(src, tree).value
  {
    issues := [];
    if tree.None? {
      return Err(ReadFailed(src)), issues;
    }
    var start := [Pending(src, tree.value)];
    var stack := start;
    if Walk(start).Ok? {
      assert [] + Walk(start).value == Walk(start).value;
    }
    while stack != []
      invariant Walk(start) == Prepend(issues, Walk(stack))
      decreases Weight(stack)
    {
      var top := stack[|stack| - 1];
      var rest := stack[..|stack| - 1];
      var visited := ReadDir(top.dir, top.entries);
      if visited.Err? {
        return Err(ReadFailed(visited.error)), issues;
      }
      WalkShrinks(stack);
      ghost var w := Walk(rest + visited.value.pending);
      assert Walk(stack) == Prepend(visited.value.issues, w);
      if w.Ok? {
        AppendAssoc(issues, visited.value.issues, w.value);
      }
      issues := issues + visited.value.issues;
      stack := rest + visited.value.pending;
    }
    assert issues + [] == issues;
    r := if issues == [] then Ok(()) else Err(IssuesFound(|issues|));
  }

  // ---------------------------------------------------------------------------
  // check_publish
  // ---------------------------------------------------------------------------

  const PublishWords: seq<string> := ["cargo", "publish", "--dry-run"]
  const PackagedTestWords: seq<string> := ["cargo", "test", "--all-features", "--all-targets"]

  /** Where `cargo package` leaves the package whose manifest is `manifest`. */
  function PublishDir(pkgs: seq<MetaPackage>, manifest: Path, target: Path): Result<Path, PrereleaseError> {
    if pkgs == [] then Err(PackageNotFound)
    else match pkgs[0].manifestPath
      case None => Err(MissingManifestPath)
      case Some(m) =>
        if m != manifest then PublishDir(pkgs[1..], manifest, target)
        else match (pkgs[0].name, pkgs[0].version)
          case (None, _) => Err(MissingName)
          case (Some(_), None) => Err(MissingVersion)
          case (Some(name), Some(version)) => Ok(target + "/package/" + name + "-" + version)
  }

  /** No entry before `k` has the manifest, and all of them name one. */
  predicate OthersBefore(pkgs: seq<MetaPackage>, manifest: Path, k: nat)
    requires k <= |pkgs|
  {
    forall j :: 0 <= j < k ==> pkgs[j].manifestPath.Some? && pkgs[j].manifestPath.value != manifest
  }

  /**
   * `get_publish_dir` answers `<target>/package/<name>-<version>` for the first
   * entry whose manifest is the current one, provided every entry before it
   * names a manifest; it reports a missing package exactly when every entry
   * names a manifest and none is the current one.
   */
  lemma {:induction false} PublishDirSpec(pkgs: seq<MetaPackage>, manifest: Path, target: Path)
    ensures PublishDir(pkgs, manifest, target).Ok? ==>
      exists k :: 0 <= k < |pkgs| && OthersBefore(pkgs, manifest, k)
        && pkgs[k].manifestPath == Some(manifest) && pkgs[k].name.Some? && pkgs[k].version.Some?
        && PublishDir(pkgs, manifest, target).value
          == target + "/package/" + pkgs[k].name.value + "-" + pkgs[k].version.value
    ensures PublishDir(pkgs, manifest, target) == Err(PackageNotFound) <==> OthersBefore(pkgs, manifest, |pkgs|)
  {
    if pkgs != [] {
      var tail := pkgs[1..];
      PublishDirSpec(tail, manifest, target);
      assert OthersBefore(pkgs, manifest, |pkgs|) <==>
        (pkgs[0].manifestPath.Some? && pkgs[0].manifestPath.value != manifest && OthersBefore(tail, manifest, |tail|)) by {
        forall j | 1 <= j < |pkgs| ensures pkgs[j] == tail[j - 1] { }
      }
      if PublishDir(pkgs, manifest, target).Ok? && pkgs[0].manifestPath != Some(manifest) {
        var k :| 0 <= k < |tail| && OthersBefore(tail, manifest, k)
          && tail[k].manifestPath == Some(manifest) && tail[k].name.Some? && tail[k].version.Some?
          && PublishDir(tail, manifest, target).value == target + "/package/" + tail[k].name.value + "-" + tail[k].version.value;
        assert OthersBefore(pkgs, manifest, k + 1) by {
          forall j | 1 <= j < k + 1 ensures pkgs[j] == tail[j - 1] { }
        }
      }
      if PublishDir(pkgs, manifest, target).Ok? && pkgs[0].manifestPath == Some(manifest) {
        assert OthersBefore(pkgs, manifest, 0);
      }
    }
  }

  /** The search of `get_publish_dir` over the `packages` array. */
  method FindPublishDir(pkgs: seq<MetaPackage>, manifest: Path, target: Path) returns (r: Result<Path, PrereleaseError>)
    ensures r == PublishDir(pkgs, manifest, target)
  {
    for k := 0 to |pkgs|
      invariant PublishDir(pkgs, manifest, target) == PublishDir(pkgs[k..], manifest, target)
    {
      assert pkgs[k..][1..] == pkgs[k + 1..];
      var p := pkgs[k];
      if p.manifestPath.None? {
        return Err(MissingManifestPath);
      }
      if p.manifestPath.value == manifest {
        if p.name.None? {
          return Err(MissingName);
        }
        if p.version.None? {
          return Err(MissingVersion);
        }
        return Ok(target + "/package/" + p.name.value + "-" + p.version.value);
      }
    }
    return Err(PackageNotFound);
  }

  /** What the task reads from outside the shell. */
  datatype Host = Host(
    config: Path -> ConfigFile,
    tree: Path -> Option<seq<Node>>,
    targetDir: Path -> Option<Path>,
    parse: string -> Option<seq<MetaPackage>>)

  /**
   * `check_publish` in directory `dir`: a dry-run publish, the packaged
   * directory from `cargo metadata`, then a full test run inside it.
   */
  function PublishStep(dir: Path, env: map<string, string>, succeeds: Cmd -> bool, output: Cmd -> string, host: Host)
    : Step<PrereleaseError>
  {
    var publish := Cmd(dir, env, PublishWords);
    if !succeeds(publish) then Step(Err(CommandFailed), [publish])
    else match host.targetDir(dir)
      case None => Step(Err(NoTargetDir), [publish])
      case Some(target) =>
        var metadata := Cmd(dir, env, MetadataWords);
        if !succeeds(metadata) then Step(Err(CommandFailed), [publish, metadata])
        else match host.parse(output(metadata))
          case None => Step(Err(NoMetadata), [publish, metadata])
          case Some(pkgs) =>
            match PublishDir(pkgs, JoinPath(dir, "Cargo.toml"), target)
            case Err(e) => Step(Err(e), [publish, metadata])
            case Ok(packaged) =>
              var test := Cmd(ChangeDir(dir, packaged), env, PackagedTestWords);
              Step(if succeeds(test) then Ok(()) else Err(CommandFailed), [publish, metadata, test])
  }

  /**
   * The packaged copy is tested only after the dry run succeeded and the
   * package was found, and the test runs in `<target>/package/<name>-<version>`.
   */
  lemma PublishStepSpec(dir: Path, env: map<string, string>, succeeds: Cmd -> bool, output: Cmd -> string, host: Host)
    ensures var s := PublishStep(dir, env, succeeds, output, host);
      1 <= |s.cmds| <= 3 && s.cmds[0] == Cmd(dir, env, PublishWords)
      && (|s.cmds| == 3 <==>
            (succeeds(s.cmds[0]) && host.targetDir(dir).Some? && succeeds(s.cmds[1])
             && host.parse(output(s.cmds[1])).Some?
             && PublishDir(host.parse(output(s.cmds[1])).value, JoinPath(dir, "Cargo.toml"), host.targetDir(dir).value).Ok?))
      && (|s.cmds| == 3 ==>
            (s.cmds[2].words == PackagedTestWords
             && s.cmds[2].dir == ChangeDir(dir, PublishDir(host.parse(output(s.cmds[1])).value,
                  JoinPath(dir, "Cargo.toml"), host.targetDir(dir).value).value)))
      && (s.result.Ok? ==> |s.cmds| == 3 && AllSucceed(s.cmds, succeeds))
  {
    var s := PublishStep(dir, env, succeeds, output, host);
    if s.result.Ok? {
      assert s.cmds[..1] == [s.cmds[0]] && s.cmds[..2] == [s.cmds[0], s.cmds[1]];
      assert forall k :: 0 <= k < |s.cmds| ==> succeeds(s.cmds[k]);
    }
  }

  /** `check_publish` through the shell; the directory is restored afterwards. */
  method CheckPublish(sh: Shell, host: Host) returns (r: Result<(), PrereleaseError>)
    modifies sh`log, sh`cwd
    ensures sh.cwd == old(sh.cwd)
    ensures sh.log == old(sh.log) + PublishStep(old(sh.cwd), sh.vars, sh.succeeds, sh.output, host).cmds
    ensures r == PublishStep(old(sh.cwd), sh.vars, sh.succeeds, sh.output, host).result
  {
    var dir := sh.cwd;
    var ok := sh.Run(PublishWords);
    if !ok {
      return Err(CommandFailed);
    }
    var target := host.targetDir(dir);
    if target.None? {
      return Err(NoTargetDir);
    }
    var out := sh.Read(MetadataWords);
    if out.None? {
      return Err(CommandFailed);
    }
    var pkgs := host.parse(out.value);
    if pkgs.None? {
      return Err(NoMetadata);
    }
    var packaged := FindPublishDir(pkgs.value, JoinPath(dir, "Cargo.toml"), target.value);
    if packaged.Err? {
      return Err(packaged.error);
    }
    sh.cwd := ChangeDir(dir, packaged.value);
    ok := sh.Run(PackagedTestWords);
    sh.cwd := dir;
    r := if ok then Ok(()) else Err(CommandFailed);
  }

  // ---------------------------------------------------------------------------
  // run
  // ---------------------------------------------------------------------------

  /** One package: skipped when its configuration says so, else `check_todos` then `check_publish` in its directory. */
  function PackageStep(root: Path, env: map<string, string>, succeeds: Cmd -> bool, output: Cmd -> string,
                       host: Host, pkg: Path): Step<PrereleaseError>
  {
    match LoadSkip(host.config(pkg))
    case Err(_) => Step(Err(ConfigUnreadable(pkg)), [])
    case Ok(skip) =>
      if skip then Step(Ok(()), [])
      else
        var dir := ChangeDir(root, pkg);
        var src := JoinPath(dir, "src");
        Then(Step(TodosOutcome(Todos(src, host.tree(src))), []), PublishStep(dir, env, succeeds, output, host))
  }

  /**
   * A package that opts out issues nothing and does not stop the run; for any
   * other, a failing `check_todos` stops it before `check_publish` issues a command.
   */
  lemma PackageStepSpec(root: Path, env: map<string, string>, succeeds: Cmd -> bool, output: Cmd -> string,
                        host: Host, pkg: Path)
    ensures var s := PackageStep(root, env, succeeds, output, host, pkg);
      var dir := ChangeDir(root, pkg);
      var src := JoinPath(dir, "src");
      (host.config(pkg) == Parsed(true) ==> s == Step(Ok(()), []))
      && (host.config(pkg).Unreadable? ==> s == Step(Err(ConfigUnreadable(pkg)), []))
      && ((host.config(pkg).Missing? || host.config(pkg) == Parsed(false)) ==>
            if TodosOutcome(Todos(src, host.tree(src))).Err?
            then s == Step(TodosOutcome(Todos(src, host.tree(src))), [])
            else s == PublishStep(dir, env, succeeds, output, host))
  {
    var dir := ChangeDir(root, pkg);
    var s := PublishStep(dir, env, succeeds, output, host);
    assert [] + s.cmds == s.cmds;
  }

  /** The packages in order, each ending with `?`. */
  function PackagesFrom(root: Path, env: map<string, string>, succeeds: Cmd -> bool, output: Cmd -> string,
                        host: Host, dirs: seq<Path>): Step<PrereleaseError>
  {
    if dirs == [] then Step(Ok(()), [])
    else Then(PackagesFrom(root, env, succeeds, output, host, dirs[..|dirs| - 1]),
              PackageStep(root, env, succeeds, output, host, dirs[|dirs| - 1]))
  }

  /** The loop is the chain of its packages' steps. */
  lemma {:induction false} PackagesFromChain(root: Path, env: map<string, string>, succeeds: Cmd -> bool,
                                             output: Cmd -> string, host: Host, dirs: seq<Path>)
    ensures PackagesFrom(root, env, succeeds, output, host, dirs)
         == Chain(MapSteps(dirs, d => PackageStep(root, env, succeeds, output, host, d)))
  {
    if dirs != [] {
      var n := |dirs| - 1;
      PackagesFromChain(root, env, succeeds, output, host, dirs[..n]);
      var steps := MapSteps(dirs, d => PackageStep(root, env, succeeds, output, host, d));
      var front := MapSteps(dirs[..n], d => PackageStep(root, env, succeeds, output, host, d));
      assert steps == front + [steps[n]];
      ChainSnoc(front, steps[n]);
    }
  }

  /**
   * The run succeeds exactly when every package's step does; otherwise it ends
   * at the first failing package, after the commands of the packages before it.
   */
  lemma PackagesFromSpec(root: Path, env: map<string, string>, succeeds: Cmd -> bool, output: Cmd -> string,
                         host: Host, dirs: seq<Path>)
    ensures var steps := MapSteps(dirs, d => PackageStep(root, env, succeeds, output, host, d));
      var run := PackagesFrom(root, env, succeeds, output, host, dirs);
      (run.result.Ok? <==> StepsOk(steps, |steps|))
      && (run.result.Ok? ==> run.cmds == AllCmds(steps))
      && (run.result.Err? ==>
            exists k :: (0 <= k < |steps| && StepsOk(steps, k) && steps[k].result.Err?
              && run == Step(steps[k].result, AllCmds(steps[..k]) + steps[k].cmds)))
  {
    PackagesFromChain(root, env, succeeds, output, host, dirs);
    ChainSpec(MapSteps(dirs, d => PackageStep(root, env, succeeds, output, host, d)));
  }

  /** Once a package has failed, later packages change nothing. */
  lemma {:induction false} PackagesFromStops(root: Path, env: map<string, string>, succeeds: Cmd -> bool,
                                             output: Cmd -> string, host: Host, dirs: seq<Path>, m: nat)
    requires m <= |dirs|
    requires PackagesFrom(root, env, succeeds, output, host, dirs[..m]).result.Err?
    ensures PackagesFrom(root, env, succeeds, output, host, dirs) == PackagesFrom(root, env, succeeds, output, host, dirs[..m])
    decreases |dirs|
  {
    if m < |dirs| {
      var n := |dirs| - 1;
      assert dirs[..n][..m] == dirs[..m];
      PackagesFromStops(root, env, succeeds, output, host, dirs[..n], m);
    } else {
      assert dirs[..m] == dirs;
    }
  }

  /** The packages that opted out, in order. */
  function Skipped(host: Host, dirs: seq<Path>): (r: seq<Path>)
    ensures forall d :: d in r <==> d in dirs && host.config(d) == Parsed(true)
  {
    if dirs == [] then []
    else
      var n := |dirs| - 1;
      assert forall d :: d in dirs <==> d in dirs[..n] || d == dirs[n] by {
        assert dirs == dirs[..n] + [dirs[n]];
      }
      Skipped(host, dirs[..n]) + (if host.config(dirs[n]) == Parsed(true) then [dirs[n]] else [])
  }

  /** The whole task; `dirs` is what `get_crate_dirs` returned. */
  function PrereleaseRun(root: Path, env: map<string, string>, succeeds: Cmd -> bool, output: Cmd -> string,
                         host: Host, dirs: Option<seq<Path>>): Step<PrereleaseError>
  {
    match dirs
    case None => Step(Err(NoPackageDirs), [])
    case Some(ds) => PackagesFrom(root, env, succeeds, output, host, ds)
  }

  /** One iteration of the loop in `run`. */
  method CheckPackage(sh: Shell, host: Host, pkg: Path) returns (r: Result<(), PrereleaseError>)
    modifies sh`log, sh`cwd
    ensures sh.cwd == old(sh.cwd)
    ensures sh.log == old(sh.log) + PackageStep(old(sh.cwd), sh.vars, sh.succeeds, sh.output, host, pkg).cmds
    ensures r == PackageStep(old(sh.cwd), sh.vars, sh.succeeds, sh.output, host, pkg).result
  {
    var skip := LoadSkip(host.config(pkg));
    if skip.Err? {
      return Err(ConfigUnreadable(pkg));
    }
    if skip.value {
      return Ok(());
    }
    var root := sh.cwd;
    sh.cwd := ChangeDir(root, pkg);
    var src := JoinPath(sh.cwd, "src");
    var todos, _ := CheckTodos(src, host.tree(src));
    if todos.Err? {
      sh.cwd := root;
      return todos;
    }
    r := CheckPublish(sh, host);
    sh.cwd := root;
    ghost var p := PublishStep(ChangeDir(root, pkg), sh.vars, sh.succeeds, sh.output, host);
    assert [] + p.cmds == p.cmds;
  }

  /**
   * `run`: every package in turn, stopping at the first failure; on success
   * also the packages that were skipped.
   */
  method Run(sh: Shell, host: Host, dirs: Option<seq<Path>>) returns (r: Result<(), PrereleaseError>, skipped: seq<Path>)
    modifies sh`log, sh`cwd
    ensures sh.cwd == old(sh.cwd)
    ensures sh.log == old(sh.log) + PrereleaseRun(old(sh.cwd), sh.vars, sh.succeeds, sh.output, host, dirs).cmds
    ensures r == PrereleaseRun(old(sh.cwd), sh.vars, sh.succeeds, sh.output, host, dirs).result
    ensures r.Ok? ==> skipped == Skipped(host, dirs.value)
  {
    if dirs.None? {
      return Err(NoPackageDirs), [];
    }
    r, skipped := RunPackages(sh, host, dirs.value);
  }

  /** The loop of `run` over the package directories. */
  method RunPackages(sh: Shell, host: Host, ds: seq<Path>) returns (r: Result<(), PrereleaseError>, skipped: seq<Path>)
    modifies sh`log, sh`cwd
    ensures sh.cwd == old(sh.cwd)
    ensures sh.log == old(sh.log) + PackagesFrom(old(sh.cwd), sh.vars, sh.succeeds, sh.output, host, ds).cmds
    ensures r == PackagesFrom(old(sh.cwd), sh.vars, sh.succeeds, sh.output, host, ds).result
    ensures r.Ok? ==> skipped == Skipped(host, ds)
  {
    skipped := [];
    var root := sh.cwd;
    ghost var env, succeeds, output := sh.vars, sh.succeeds, sh.output;
    for i := 0 to |ds|
      invariant sh.cwd == root && sh.vars == env
      invariant PackagesFrom(root, env, succeeds, output, host, ds[..i]).result == Ok(())
      invariant sh.log == old(sh.log) + PackagesFrom(root, env, succeeds, output, host, ds[..i]).cmds
      invariant skipped == Skipped(host, ds[..i])
    {
      RunNext(old(sh.log), root, env, succeeds, output, host, ds, i);
      r := CheckPackage(sh, host, ds[i]);
      if r.Err? {
        PackagesFromStops(root, env, succeeds, output, host, ds, i + 1);
        return r, skipped;
      }
      OkUnit(r);
      if host.config(ds[i]) == Parsed(true) {
        skipped := skipped + [ds[i]];
      }
    }
    assert ds[..|ds|] == ds;
    r := Ok(());
  }

  /** One iteration of `run` extends the log and the result by the package's own step. */
  lemma RunNext(L: seq<Cmd>, root: Path, env: map<string, string>, succeeds: Cmd -> bool, output: Cmd -> string,
                host: Host, ds: seq<Path>, i: nat)
    requires i < |ds| && PackagesFrom(root, env, succeeds, output, host, ds[..i]).result.Ok?
    ensures var before := PackagesFrom(root, env, succeeds, output, host, ds[..i]);
      var step := PackageStep(root, env, succeeds, output, host, ds[i]);
      var after := PackagesFrom(root, env, succeeds, output, host, ds[..i + 1]);
      after.result == step.result && (L + before.cmds) + step.cmds == L + after.cmds
    ensures Skipped(host, ds[..i + 1]) == Skipped(host, ds[..i]) + (if host.config(ds[i]) == Parsed(true) then [ds[i]] else [])
  {
    var before := PackagesFrom(root, env, succeeds, output, host, ds[..i]);
    var step := PackageStep(root, env, succeeds, output, host, ds[i]);
    PackagesNext(root, env, succeeds, output, host, ds, i);
    AppendAssoc(L, before.cmds, step.cmds);
  }

  lemma PackagesNext(root: Path, env: map<string, string>, succeeds: Cmd -> bool, output: Cmd -> string,
                     host: Host, ds: seq<Path>, i: nat)
    requires i < |ds|
    ensures PackagesFrom(root, env, succeeds, output, host, ds[..i + 1])
      == Then(PackagesFrom(root, env, succeeds, output, host, ds[..i]), PackageStep(root, env, succeeds, output, host, ds[i]))
    ensures Skipped(host, ds[..i + 1]) == Skipped(host, ds[..i]) + (if host.config(ds[i]) == Parsed(true) then [ds[i]] else [])
  {
    assert ds[..i + 1][..i] == ds[..i];
  }
}
