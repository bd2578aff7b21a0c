/**
 * The `fuzz` task of cargo-rbmt: find the binary targets of the workspace's
 * fuzz package (by default `fuzz`) in `cargo metadata` and list them.
 */
module Fuzz {
  import opened ShellModel
  import opened Strings
  import opened Environment

  const FuzzPackage := "fuzz"

  /** The workspace's `rbmt.toml` as this task reads it: the `[fuzz]` table's `package` key. */
  datatype ConfigFile = Missing | Unreadable | Parsed(package: Option<string>)

  /** `FuzzConfig::load` followed by `package_name`: an absent file or key gives `fuzz`. */
  function FuzzPackageName(file: ConfigFile): (r: Result<string, ()>)
    ensures r.Err? <==> file.Unreadable?
    ensures file.Missing? || file == Parsed(None) ==> r == Ok(FuzzPackage)
    ensures file.Parsed? && file.package.Some? ==> r == Ok(file.package.value)
  {
    match file
    case Missing => Ok(FuzzPackage)
    case Unreadable => Err(())
    case Parsed(p) => Ok(if p.Some? then p.value else FuzzPackage)
  }

  /** One entry of a package's `targets`: its `kind` array (elements that are not strings are `None`) and `name`. */
  datatype Target = Target(kind: Option<seq<Option<string>>>, name: Option<string>)

  /** One entry of `packages`: its `name` and its `targets` array. */
  datatype MetaTargets = MetaTargets(name: Option<string>, targets: Option<seq<Target>>)

  /** The output of `cargo metadata`: not JSON, or JSON whose `packages` may be absent. */
  datatype TargetMetadata = NotJson | Json(packages: Option<seq<MetaTargets>>)

  /** Why the task stopped. */
  datatype FuzzError = ConfigUnreadable | CommandFailed | MetadataUnreadable

  /** A target is kept when it has a `kind` array holding the string `bin` and a string `name`. */
  predicate IsBinTarget(t: Target) {
    t.kind.Some? && Some("bin") in t.kind.value && t.name.Some?
  }

  /** The names of the binary targets, in order. */
  function BinTargets(ts: seq<Target>): seq<string>
    decreases |ts|
  {
    if ts == [] then []
    else
      var t := ts[|ts| - 1];
      BinTargets(ts[..|ts| - 1]) + (if IsBinTarget(t) then [t.name.value] else [])
  }

  /** The binary targets of the first package named `name`; none when there is no such package. */
  function NamedTargets(ps: seq<MetaTargets>, name: string): seq<string> {
    if ps == [] then []
    else if ps[0].name == Some(name) then
      (if ps[0].targets.Some? then BinTargets(ps[0].targets.value) else [])
    else NamedTargets(ps[1..], name)
  }

  /** `discover_fuzz_targets` on the metadata it reads. */
  function FuzzTargets(meta: TargetMetadata, name: string): Result<seq<string>, FuzzError> {
    match meta
    case NotJson => Err(MetadataUnreadable)
    case Json(ps) => Ok(Sort(if ps.Some? then NamedTargets(ps.value, name) else []))
  }

  /** A name is listed exactly when some target with that name is a binary target. */
  lemma {:induction false} BinTargetsSpec(ts: seq<Target>)
    ensures forall n :: n in BinTargets(ts) <==> exists k :: 0 <= k < |ts| && IsBinTarget(ts[k]) && ts[k].name == Some(n)
  {
    if ts != [] {
      var m := |ts| - 1;
      BinTargetsSpec(ts[..m]);
      forall n ensures n in BinTargets(ts) <==> exists k :: 0 <= k < |ts| && IsBinTarget(ts[k]) && ts[k].name == Some(n) {
        if n in BinTargets(ts[..m]) {
          var k :| 0 <= k < m && IsBinTarget(ts[..m][k]) && ts[..m][k].name == Some(n);
          assert ts[k] == ts[..m][k];
        }
        if exists k :: 0 <= k < |ts| && IsBinTarget(ts[k]) && ts[k].name == Some(n) {
          var k :| 0 <= k < |ts| && IsBinTarget(ts[k]) && ts[k].name == Some(n);
          if k < m {
            assert ts[..m][k] == ts[k];
          }
        }
      }
    }
  }

  /** No package with the name: no targets. */
  lemma {:induction false} NamedTargetsAbsent(ps: seq<MetaTargets>, name: string)
    requires forall k :: 0 <= k < |ps| ==> ps[k].name != Some(name)
    ensures NamedTargets(ps, name) == []
  {
    if ps != [] {
      NamedTargetsAbsent(ps[1..], name);
    }
  }

  /** The package at `k` is the first with the name: its binary targets are the result. */
  lemma {:induction false} NamedTargetsFirst(ps: seq<MetaTargets>, name: string, k: nat)
    requires k < |ps| && ps[k].name == Some(name)
    requires forall j :: 0 <= j < k ==> ps[j].name != Some(name)
    ensures NamedTargets(ps, name) == if ps[k].targets.Some? then BinTargets(ps[k].targets.value) else []
  {
    if k > 0 {
      assert ps[0].name != Some(name);
      NamedTargetsFirst(ps[1..], name, k - 1);
    }
  }

  /** The package examined is the first with the name: every earlier package has another name. */
  lemma NamedTargetsSpec(ps: seq<MetaTargets>, name: string)
    ensures (forall k :: 0 <= k < |ps| ==> ps[k].name != Some(name)) ==> NamedTargets(ps, name) == []
    ensures forall k :: 0 <= k < |ps| && ps[k].name == Some(name) && (forall j :: 0 <= j < k ==> ps[j].name != Some(name)) ==>
      NamedTargets(ps, name) == if ps[k].targets.Some? then BinTargets(ps[k].targets.value) else []
  {
    if forall k :: 0 <= k < |ps| ==> ps[k].name != Some(name) {
      NamedTargetsAbsent(ps, name);
    }
    forall k | 0 <= k < |ps| && ps[k].name == Some(name) && (forall j :: 0 <= j < k ==> ps[j].name != Some(name))
      ensures NamedTargets(ps, name) == if ps[k].targets.Some? then BinTargets(ps[k].targets.value) else []
    {
      NamedTargetsFirst(ps, name, k);
    }
  }

  /** The discovered list is sorted and holds the same names as the matching package's binary targets. */
  lemma FuzzTargetsSorted(meta: TargetMetadata, name: string)
    ensures FuzzTargets(meta, name).Err? <==> meta.NotJson?
    ensures FuzzTargets(meta, name).Ok? ==>
      Sorted(FuzzTargets(meta, name).value)
      && multiset(FuzzTargets(meta, name).value)
         == multiset(if meta.packages.Some? then NamedTargets(meta.packages.value, name) else [])
  {
  }

  /** The search loop of `discover_fuzz_targets`, before sorting. */
  method CollectTargets(ps: seq<MetaTargets>, name: string) returns (targets: seq<string>)
    ensures targets == NamedTargets(ps, name)
  {
    targets := [];
    var i := 0;
    while i < |ps|
      invariant 0 <= i <= |ps|
      invariant targets == []
      invariant NamedTargets(ps, name) == NamedTargets(ps[i..], name)
    {
      assert ps[i..][1..] == ps[i + 1..];
      if ps[i].name == Some(name) {
        if ps[i].targets.Some? {
          var ts := ps[i].targets.value;
          for j := 0 to |ts|
            invariant targets == BinTargets(ts[..j])
          {
            assert ts[..j + 1][..j] == ts[..j];
            var t := ts[j];
            if t.kind.None? {
              continue;
            }
            if t.name.None? {
              continue;
            }
            if Some("bin") in t.kind.value {
              targets := targets + [t.name.value];
            }
          }
          assert ts[..|ts|] == ts;
        }
        return;
      }
      i := i + 1;
    }
    assert ps[i..] == [];
  }

  const TargetMetadataWords: seq<string> := ["cargo", "metadata", "--format-version", "1", "--no-deps"]

  /** `discover_fuzz_targets` through the shell. */
  method DiscoverFuzzTargets(sh: Shell, parse: string -> TargetMetadata, name: string)
    returns (r: Result<seq<string>, FuzzError>)
    modifies sh`log
    ensures sh.log == old(sh.log) + [sh.CmdOf(TargetMetadataWords)]
    ensures var c := sh.CmdOf(TargetMetadataWords);
      r == if sh.succeeds(c) then FuzzTargets(parse(sh.output(c)), name) else Err(CommandFailed)
  {
    var out := sh.Read(TargetMetadataWords);
    if out.None? {
      return Err(CommandFailed);
    }
    var meta := parse(out.value);
    if meta.NotJson? {
      return Err(MetadataUnreadable);
    }
    var targets: seq<string> := [];
    if meta.packages.Some? {
      targets := CollectTargets(meta.packages.value, name);
    }
    r := Ok(Sort(targets));
  }

  const NoTargetsMessage := "No fuzz targets found"

  /** What `list` prints for the discovered targets; the message goes through the quiet-mode filter. */
  function ListOutput(targets: seq<string>, env: map<string, string>): (lines: seq<string>)
    ensures targets != [] ==> lines == targets
    ensures targets == [] ==> lines == (if IsQuietMode(env) then [] else [NoTargetsMessage])
  {
    if targets == [] then (if IsQuietMode(env) then [] else [NoTargetsMessage]) else targets
  }

  /** `list`: the lines printed on success; `env` is the process environment. */
  method List(sh: Shell, config: ConfigFile, parse: string -> TargetMetadata, env: map<string, string>)
    returns (r: Result<(), FuzzError>, lines: seq<string>)
    modifies sh`log
    ensures config.Unreadable? ==> r == Err(ConfigUnreadable) && sh.log == old(sh.log)
    ensures !config.Unreadable? ==>
      var c := sh.CmdOf(TargetMetadataWords);
      var found := if sh.succeeds(c) then FuzzTargets(parse(sh.output(c)), FuzzPackageName(config).value)
                   else Err(CommandFailed);
      sh.log == old(sh.log) + [c]
      && (found.Err? ==> r == Err(found.error))
      && (found.Ok? ==> r.Ok? && lines == ListOutput(found.value, env))
  {
    lines := [];
    var name := FuzzPackageName(config);
    if name.Err? {
      return Err(ConfigUnreadable), lines;
    }
    var targets := DiscoverFuzzTargets(sh, parse, name.value);
    if targets.Err? {
      return Err(targets.error), lines;
    }
    if targets.value == [] {
      if !IsQuietMode(env) {
        lines := [NoTargetsMessage];
      }
    } else {
      for k := 0 to |targets.value|
        invariant lines == targets.value[..k]
      {
        lines := lines + [targets.value[k]];
      }
      assert targets.value[..|targets.value|] == targets.value;
    }
    r := Ok(());
  }
}
