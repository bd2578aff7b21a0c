/**
 * The build-and-test task of cargo-rbmt: the basic build, test and example
 * runs of `do_test`, and the feature matrix of `do_feature_matrix` with the
 * combinations generated by `loop_features`. Commands go through a `Shell`,
 * whose log records what ran; every step ends with `?`, so a failing command
 * ends the task.
 */
module TestTask {
  import opened ShellModel
  import opened Strings

  // ---------------------------------------------------------------------------
  // Example specs (`do_test`)
  // ---------------------------------------------------------------------------

  /** How an example of the `examples` list is run. */
  datatype Example =
    | Default(name: string)
    | NoDefault(name: string)
    | WithFeatures(name: string, features: string)

  /** Reads an example spec `name`, `name:-` or `name:<features>`; any other spec is returned as the error. */
  function ParseExample(spec: string): Result<Example, string> {
    var parts := Split(spec, ':');
    if |parts| == 1 then Ok(Default(parts[0]))
    else if |parts| == 2 then
      if parts[1] == "-" then Ok(NoDefault(parts[0])) else Ok(WithFeatures(parts[0], parts[1]))
    else Err(spec)
  }

  /** The spec that describes an example. */
  function ExampleSpec(e: Example): string {
    match e
    case Default(name) => name
    case NoDefault(name) => name + ":-"
    case WithFeatures(name, features) => name + ":" + features
  }

  /** An example whose spec reads back as itself: no `:` in its parts, and features other than `-`. */
  predicate WellFormed(e: Example) {
    ':' !in e.name && (e.WithFeatures? ==> ':' !in e.features && e.features != "-")
  }

  /**
   * A spec without `:` runs the example of that name with default features,
   * `name:-` runs it without default features and `name:<features>` with
   * those features.
   */
  lemma ParseExampleSpec(e: Example)
    requires WellFormed(e)
    ensures ParseExample(ExampleSpec(e)) == Ok(e)
  {
    match e
    case Default(name) =>
      SplitWithoutSeparator(name, ':');
    case NoDefault(name) =>
      assert name + ":-" == name + [':'] + "-";
      SplitAtFirst(name, "-", ':');
      SplitWithoutSeparator("-", ':');
    case WithFeatures(name, features) =>
      assert name + ":" + features == name + [':'] + features;
      SplitAtFirst(name, features, ':');
      SplitWithoutSeparator(features, ':');
  }

  /**
   * Every accepted spec is the spec of the example it reads as, and a spec is
   * rejected exactly when it holds two or more `:`; the error names the spec.
   */
  lemma ExampleSpecOfParse(spec: string)
    ensures ParseExample(spec).Ok? ==>
      WellFormed(ParseExample(spec).value) && ExampleSpec(ParseExample(spec).value) == spec
    ensures ParseExample(spec).Err? <==> Occurrences(spec, ':') >= 2
    ensures ParseExample(spec).Err? ==> ParseExample(spec).error == spec
  {
    var parts := Split(spec, ':');
    SplitJoin(spec, ':');
    if |parts| == 2 {
      assert parts[1..] == [parts[1]];
      assert JoinWith(parts, [':']) == parts[0] + [':'] + parts[1];
    }
  }

  /** The command that runs an example. */
  function ExampleWords(e: Example): seq<string> {
    match e
    case Default(name) => ["cargo", "run", "--locked", "--example", name]
    case NoDefault(name) => ["cargo", "run", "--locked", "--no-default-features", "--example", name]
    case WithFeatures(name, features) => ["cargo", "run", "--locked", "--example", name, "--features=" + features]
  }

  /**
   * The example loop: the commands of the examples before the first invalid
   * spec, and that spec when there is one.
   */
  function ExampleSteps(examples: seq<string>): (seq<seq<string>>, Option<string>) {
    if examples == [] then ([], None)
    else
      match ParseExample(examples[0])
      case Err(spec) => ([], Some(spec))
      case Ok(e) =>
        var rest := ExampleSteps(examples[1..]);
        ([ExampleWords(e)] + rest.0, rest.1)
  }

  /**
   * The example loop stops at the first invalid spec: it runs one command per
   * example before it, and reports that spec; without one, it runs one
   * command per example.
   */
  lemma {:induction false} ExampleStepsSpec(examples: seq<string>)
    ensures ExampleSteps(examples).1.None? <==> forall k :: 0 <= k < |examples| ==> ParseExample(examples[k]).Ok?
    ensures ExampleSteps(examples).1.None? ==>
      |ExampleSteps(examples).0| == |examples|
      && forall k :: 0 <= k < |examples| ==> ExampleSteps(examples).0[k] == ExampleWords(ParseExample(examples[k]).value)
    ensures ExampleSteps(examples).1.Some? ==>
      exists k :: 0 <= k < |examples| && ExampleSteps(examples).1.value == examples[k]
        && Occurrences(examples[k], ':') >= 2 && |ExampleSteps(examples).0| == k
  {
    if examples != [] {
      var tail := examples[1..];
      ExampleSpecOfParse(examples[0]);
      ExampleStepsSpec(tail);
      if ParseExample(examples[0]).Ok? {
        var rest := ExampleSteps(tail);
        assert forall k :: 1 <= k < |examples| ==> examples[k] == tail[k - 1];
        if rest.1.Some? {
          var k :| 0 <= k < |tail| && rest.1.value == tail[k] && Occurrences(tail[k], ':') >= 2 && |rest.0| == k;
          assert examples[k + 1] == tail[k];
        }
      }
    }
  }

  datatype TestError = CommandFailed | InvalidExample(spec: string)

  /** The commands of `do_test` up to the first invalid spec. */
  function TestWords(examples: seq<string>): seq<seq<string>> {
    [["cargo", "build"], ["cargo", "test"]] + ExampleSteps(examples).0
  }

  /** `do_test`: build, test, then run every example in list order. */
  method DoTest(sh: Shell, examples: seq<string>) returns (r: Result<(), TestError>)
    modifies sh`log
    ensures var cmds := CmdsIn(sh.cwd, sh.vars, TestWords(examples));
      sh.log == old(sh.log) + Ran(cmds, sh.succeeds)
      && r == if !AllSucceed(cmds, sh.succeeds) then Err(CommandFailed)
              else if ExampleSteps(examples).1.Some? then Err(InvalidExample(ExampleSteps(examples).1.value))
              else Ok(())
  {
    ghost var dir, env, L := sh.cwd, sh.vars, sh.log;
    ghost var done: seq<seq<string>> := [];
    ghost var rest := TestWords(examples);
    var ok := sh.Run(["cargo", "build"]);
    Advance(L, dir, env, done, ["cargo", "build"], rest[1..], sh.succeeds);
    if !ok {
      return Err(CommandFailed);
    }
    done := [["cargo", "build"]];
    ok := sh.Run(["cargo", "test"]);
    Advance(L, dir, env, done, ["cargo", "test"], ExampleSteps(examples).0, sh.succeeds);
    if !ok {
      return Err(CommandFailed);
    }
    done := done + [["cargo", "test"]];
    for k := 0 to |examples|
      invariant sh.cwd == dir && sh.vars == env
      invariant sh.log == L + CmdsIn(dir, env, done) && AllSucceed(CmdsIn(dir, env, done), sh.succeeds)
      invariant TestWords(examples) == done + ExampleSteps(examples[k..]).0
      invariant ExampleSteps(examples).1 == ExampleSteps(examples[k..]).1
    {
      assert examples[k..][1..] == examples[k + 1..];
      var parsed := ParseExample(examples[k]);
      if parsed.Err? {
        assert ExampleSteps(examples[k..]) == ([], Some(examples[k]));
        assert done + [] == done;
        RanSpec(CmdsIn(dir, env, done), sh.succeeds);
        return Err(InvalidExample(examples[k]));
      }
      var words := ExampleWords(parsed.value);
      ghost var later := ExampleSteps(examples[k + 1..]).0;
      AppendAssoc(done, [words], later);
      ok := sh.Run(words);
      Advance(L, dir, env, done, words, later, sh.succeeds);
      if !ok {
        return Err(CommandFailed);
      }
      done := done + [words];
    }
    assert examples[|examples|..] == [];
    assert done + [] == done;
    RanSpec(CmdsIn(dir, env, done), sh.succeeds);
    return Ok(());
  }

  /**
   * One more command after commands that all succeeded: when it succeeds the
   * log covers one more command, when it fails the log ends there whatever
   * was to follow.
   */
  lemma Advance(L: seq<Cmd>, dir: Path, env: map<string, string>, done: seq<seq<string>>, w: seq<string>,
                rest: seq<seq<string>>, succeeds: Cmd -> bool)
    requires AllSucceed(CmdsIn(dir, env, done), succeeds)
    ensures succeeds(Cmd(dir, env, w)) ==>
      (L + CmdsIn(dir, env, done)) + [Cmd(dir, env, w)] == L + CmdsIn(dir, env, done + [w])
      && AllSucceed(CmdsIn(dir, env, done + [w]), succeeds)
    ensures !succeeds(Cmd(dir, env, w)) ==>
      (L + CmdsIn(dir, env, done)) + [Cmd(dir, env, w)] == L + Ran(CmdsIn(dir, env, done + ([w] + rest)), succeeds)
      && !AllSucceed(CmdsIn(dir, env, done + ([w] + rest)), succeeds)
  {
    var a := CmdsIn(dir, env, done);
    var c := Cmd(dir, env, w);
    CmdsInAppend(dir, env, done, [w]);
    CmdsInAppend(dir, env, done, [w] + rest);
    CmdsInAppend(dir, env, [w], rest);
    assert CmdsIn(dir, env, [w]) == [c];
    AllSucceedAppend(a, [c], succeeds);
    RanSeq(L, a, [c] + CmdsIn(dir, env, rest), succeeds);
    RanSpec(a, succeeds);
    AppendAssoc(L, a, [c]);
  }

  // ---------------------------------------------------------------------------
  // Feature combinations (`loop_features`)
  // ---------------------------------------------------------------------------

  /** The prefix of every combination: nothing for an empty base, otherwise the base and a space. */
  function BaseFlag(base: string): string {
    if base == [] then "" else base + " "
  }

  /** The pairs of feature `i` with every feature from position `j` on. */
  function PairsFrom(flag: string, features: seq<string>, i: nat, j: nat): seq<string>
    requires i < |features|
    decreases |features| - j
  {
    if j >= |features| then []
    else [flag + features[i] + " " + features[j]] + PairsFrom(flag, features, i, j + 1)
  }

  /** Feature `i` alone, then paired with each later feature. */
  function Row(flag: string, features: seq<string>, i: nat): seq<string>
    requires i < |features|
  {
    [flag + features[i]] + PairsFrom(flag, features, i, i + 1)
  }

  /** The rows of the features from position `i` on. */
  function RowsFrom(flag: string, features: seq<string>, i: nat): seq<string>
    decreases |features| - i
  {
    if i >= |features| then [] else Row(flag, features, i) + RowsFrom(flag, features, i + 1)
  }

  /**
   * The feature strings `loop_features` tests, in order: all features
   * together, then, with more than one feature, each feature alone followed
   * by its pairs with every later feature.
   */
  function Combos(base: string, features: seq<string>): seq<string> {
    var flag := BaseFlag(base);
    [flag + JoinWith(features, " ")] + (if |features| > 1 then RowsFrom(flag, features, 0) else [])
  }

  lemma {:induction false} PairsFromLength(flag: string, features: seq<string>, i: nat, j: nat)
    requires i < |features| && j <= |features|
    ensures |PairsFrom(flag, features, i, j)| == |features| - j
    decreases |features| - j
  {
    if j < |features| {
      PairsFromLength(flag, features, i, j + 1);
    }
  }

  lemma {:induction false} RowsFromLength(flag: string, features: seq<string>, i: nat)
    requires i <= |features|
    ensures |RowsFrom(flag, features, i)| == (|features| - i) * (|features| - i + 1) / 2
    decreases |features| - i
  {
    if i < |features| {
      PairsFromLength(flag, features, i, i + 1);
      RowsFromLength(flag, features, i + 1);
      var m := |features| - i;
      assert (m - 1) * m / 2 + m == m * (m + 1) / 2 by {
        assert (m - 1) * m + 2 * m == m * (m + 1);
      }
    }
  }

  /** With n > 1 features there are 1 + n + n(n-1)/2 combinations; otherwise only the one with all features. */
  lemma CombosCount(base: string, features: seq<string>)
    ensures var n := |features|;
      |Combos(base, features)| == if n > 1 then 1 + n + n * (n - 1) / 2 else 1
  {
    var n := |features|;
    if n > 1 {
      RowsFromLength(BaseFlag(base), features, 0);
      assert n * (n + 1) / 2 == n + n * (n - 1) / 2 by {
        assert n * (n + 1) == 2 * n + n * (n - 1);
      }
    }
  }

  lemma {:induction false} PairsFromMembers(flag: string, features: seq<string>, i: nat, j: nat)
    requires i < |features|
    ensures forall c :: c in PairsFrom(flag, features, i, j) <==>
      exists k :: j <= k < |features| && c == flag + features[i] + " " + features[k]
    decreases |features| - j
  {
    if j < |features| {
      PairsFromMembers(flag, features, i, j + 1);
    }
  }

  /** Feature `i` alone with the flag in front. */
  predicate IsSingle(c: string, flag: string, features: seq<string>, from: nat) {
    exists i :: from <= i < |features| && c == flag + features[i]
  }

  /** Features `i` and `j`, `i` before `j`, with the flag in front. */
  predicate IsPair(c: string, flag: string, features: seq<string>, from: nat) {
    exists i, j :: from <= i < j < |features| && c == flag + features[i] + " " + features[j]
  }

  lemma {:induction false} RowsFromMembers(flag: string, features: seq<string>, from: nat)
    ensures forall c :: c in RowsFrom(flag, features, from) <==>
      IsSingle(c, flag, features, from) || IsPair(c, flag, features, from)
    decreases |features| - from
  {
    if from < |features| {
      RowsFromMembers(flag, features, from + 1);
      forall c ensures c in RowsFrom(flag, features, from) <==>
        IsSingle(c, flag, features, from) || IsPair(c, flag, features, from)
      {
        RowsFromStep(flag, features, from, c);
      }
    }
  }

  /** One row more: feature `from` alone and its pairs join the later rows. */
  lemma RowsFromStep(flag: string, features: seq<string>, from: nat, c: string)
    requires from < |features|
    requires c in RowsFrom(flag, features, from + 1) <==>
      IsSingle(c, flag, features, from + 1) || IsPair(c, flag, features, from + 1)
    ensures c in RowsFrom(flag, features, from) <==>
      IsSingle(c, flag, features, from) || IsPair(c, flag, features, from)
  {
    PairsFromMembers(flag, features, from, from + 1);
    assert RowsFrom(flag, features, from)
        == [flag + features[from]] + PairsFrom(flag, features, from, from + 1) + RowsFrom(flag, features, from + 1);
    if IsSingle(c, flag, features, from) {
      var i :| from <= i < |features| && c == flag + features[i];
      if i > from { assert IsSingle(c, flag, features, from + 1); }
    }
    if IsPair(c, flag, features, from) {
      var i, j :| from <= i < j < |features| && c == flag + features[i] + " " + features[j];
      if i > from { assert IsPair(c, flag, features, from + 1); }
    }
    if c in PairsFrom(flag, features, from, from + 1) {
      var k :| from + 1 <= k < |features| && c == flag + features[from] + " " + features[k];
      assert IsPair(c, flag, features, from);
    }
  }

  /**
   * A string is tested exactly when it is all features together or, with
   * more than one feature, one feature alone or two features in list order,
   * always behind the base flag.
   */
  lemma CombosMembers(base: string, features: seq<string>)
    ensures var flag := BaseFlag(base);
      forall c :: c in Combos(base, features) <==>
        c == flag + JoinWith(features, " ")
        || (|features| > 1 && (IsSingle(c, flag, features, 0) || IsPair(c, flag, features, 0)))
  {
    RowsFromMembers(BaseFlag(base), features, 0);
  }

  /** Build then test one combination without default features. */
  function FeatureWords(combo: string): seq<seq<string>> {
    [["cargo", "build", "--no-default-features", "--features=" + combo],
     ["cargo", "test", "--no-default-features", "--features=" + combo]]
  }

  /** The commands testing each combination in order. */
  function ComboWords(combos: seq<string>): (words: seq<seq<string>>)
    ensures |words| == 2 * |combos|
  {
    if combos == [] then [] else FeatureWords(combos[0]) + ComboWords(combos[1..])
  }

  lemma {:induction false} ComboWordsAppend(a: seq<string>, b: seq<string>)
    ensures ComboWords(a + b) == ComboWords(a) + ComboWords(b)
  {
    if a == [] {
      assert a + b == b;
    } else {
      assert (a + b)[1..] == a[1..] + b;
      ComboWordsAppend(a[1..], b);
      AppendAssoc(FeatureWords(a[0]), ComboWords(a[1..]), ComboWords(b));
    }
  }

  /** Every combination is built and then tested, without default features, in order. */
  lemma {:induction false} ComboWordsSpec(combos: seq<string>)
    ensures forall k :: 0 <= k < |combos| ==>
      ComboWords(combos)[2 * k] == ["cargo", "build", "--no-default-features", "--features=" + combos[k]]
      && ComboWords(combos)[2 * k + 1] == ["cargo", "test", "--no-default-features", "--features=" + combos[k]]
  {
    if combos != [] {
      ComboWordsSpec(combos[1..]);
      forall k | 1 <= k < |combos|
        ensures ComboWords(combos)[2 * k] == ComboWords(combos[1..])[2 * (k - 1)]
        ensures ComboWords(combos)[2 * k + 1] == ComboWords(combos[1..])[2 * (k - 1) + 1]
      {
      }
    }
  }

  /** Runs the build and the test of one combination. */
  method TestCombo(sh: Shell, combo: string) returns (ok: bool)
    modifies sh`log
    ensures var cmds := CmdsIn(sh.cwd, sh.vars, ComboWords([combo]));
      sh.log == old(sh.log) + Ran(cmds, sh.succeeds) && ok == AllSucceed(cmds, sh.succeeds)
  {
    assert ComboWords([combo]) == FeatureWords(combo);
    ok := sh.RunEach(FeatureWords(combo));
  }

  /**
   * Testing one more combination after combinations whose commands all
   * succeeded: on success the log covers it, on failure the log ends there
   * whatever was to follow.
   */
  lemma Next(L: seq<Cmd>, dir: Path, env: map<string, string>, done: seq<string>, c: string, rest: seq<string>,
             succeeds: Cmd -> bool)
    requires AllSucceed(CmdsIn(dir, env, ComboWords(done)), succeeds)
    ensures var step := CmdsIn(dir, env, ComboWords([c]));
      (AllSucceed(step, succeeds) ==>
         (L + CmdsIn(dir, env, ComboWords(done))) + Ran(step, succeeds) == L + CmdsIn(dir, env, ComboWords(done + [c]))
         && AllSucceed(CmdsIn(dir, env, ComboWords(done + [c])), succeeds))
      && (!AllSucceed(step, succeeds) ==>
         (L + CmdsIn(dir, env, ComboWords(done))) + Ran(step, succeeds)
           == L + Ran(CmdsIn(dir, env, ComboWords(done + [c] + rest)), succeeds)
         && !AllSucceed(CmdsIn(dir, env, ComboWords(done + [c] + rest)), succeeds))
  {
    var a := CmdsIn(dir, env, ComboWords(done));
    var s := CmdsIn(dir, env, ComboWords([c]));
    var t := CmdsIn(dir, env, ComboWords(rest));
    ComboWordsAppend(done, [c]);
    ComboWordsAppend(done + [c], rest);
    CmdsInAppend(dir, env, ComboWords(done), ComboWords([c]));
    CmdsInAppend(dir, env, ComboWords(done + [c]), ComboWords(rest));
    assert CmdsIn(dir, env, ComboWords(done + [c])) == a + s;
    assert CmdsIn(dir, env, ComboWords(done + [c] + rest)) == (a + s) + t;
    RanSpec(a, succeeds);
    RanSpec(s, succeeds);
    AllSucceedAppend(a, s, succeeds);
    AllSucceedAppend(a + s, t, succeeds);
    AppendAssoc(a, s, t);
    RanAppend(a, s + t, succeeds);
    RanAppend(s, t, succeeds);
    AppendAssoc(L, a, Ran(s, succeeds));
  }

  /** The combinations of `loop_features` with every command issued so far succeeded. */
  predicate Logged(sh: Shell, L: seq<Cmd>, done: seq<string>)
    reads sh
  {
    sh.log == L + CmdsIn(sh.cwd, sh.vars, ComboWords(done))
    && AllSucceed(CmdsIn(sh.cwd, sh.vars, ComboWords(done)), sh.succeeds)
  }

  /**
   * The inner loop of `loop_features`: feature `i` paired with each later
   * feature, in order, after the combinations `done` and before `later`.
   */
  method TestPairs(sh: Shell, flag: string, features: seq<string>, i: nat,
                   ghost L: seq<Cmd>, ghost done: seq<string>, ghost later: seq<string>)
      returns (ok: bool, ghost after: seq<string>)
    requires i < |features| && Logged(sh, L, done)
    modifies sh`log
    ensures ok ==> Logged(sh, L, after) && after + later == done + (PairsFrom(flag, features, i, i + 1) + later)
    ensures !ok ==>
      var cmds := CmdsIn(sh.cwd, sh.vars, ComboWords(done + (PairsFrom(flag, features, i, i + 1) + later)));
      sh.log == L + Ran(cmds, sh.succeeds) && !AllSucceed(cmds, sh.succeeds)
  {
    ghost var dir, env := sh.cwd, sh.vars;
    after := done;
    for j := i + 1 to |features|
      invariant sh.cwd == dir && sh.vars == env && Logged(sh, L, after)
      invariant done + (PairsFrom(flag, features, i, i + 1) + later) == after + (PairsFrom(flag, features, i, j) + later)
    {
      var pair := flag + features[i] + " " + features[j];
      ghost var more := PairsFrom(flag, features, i, j + 1);
      AppendAssoc([pair], more, later);
      AppendAssoc(after, [pair], more + later);
      ok := TestCombo(sh, pair);
      Next(L, dir, env, after, pair, more + later, sh.succeeds);
      if !ok {
        return;
      }
      after := after + [pair];
    }
    assert PairsFrom(flag, features, i, |features|) == [];
    assert [] + later == later;
    ok := true;
  }

  /** `loop_features`: tests every combination of `Combos(base, features)` in order. */
  method LoopFeatures(sh: Shell, base: string, features: seq<string>) returns (ok: bool)
    modifies sh`log
    ensures var cmds := CmdsIn(sh.cwd, sh.vars, ComboWords(Combos(base, features)));
      sh.log == old(sh.log) + Ran(cmds, sh.succeeds) && ok == AllSucceed(cmds, sh.succeeds)
  {
    ghost var L := sh.log;
    ghost var dir, env := sh.cwd, sh.vars;
    ghost var done: seq<string> := [];
    var flag := if base == [] then "" else base + " ";
    var all := flag + JoinWith(features, " ");
    ghost var rest := if |features| > 1 then RowsFrom(flag, features, 0) else [];
    assert Combos(base, features) == [all] + rest;
    assert Logged(sh, L, done);
    ok := TestCombo(sh, all);
    Next(L, dir, env, done, all, rest, sh.succeeds);
    if !ok {
      return;
    }
    done := [all];
    if |features| > 1 {
      for i := 0 to |features|
        invariant sh.cwd == dir && sh.vars == env && Logged(sh, L, done)
        invariant Combos(base, features) == done + RowsFrom(flag, features, i)
      {
        var single := flag + features[i];
        ghost var pairs := PairsFrom(flag, features, i, i + 1);
        ghost var later := RowsFrom(flag, features, i + 1);
        AppendAssoc([single], pairs, later);
        AppendAssoc(done, [single], pairs + later);
        ok := TestCombo(sh, single);
        Next(L, dir, env, done, single, pairs + later, sh.succeeds);
        if !ok {
          return;
        }
        done := done + [single];
        ghost var after;
        ok, after := TestPairs(sh, flag, features, i, L, done, later);
        if !ok {
          return;
        }
        done := after;
      }
    }
    assert done == Combos(base, features) by {
      assert RowsFrom(flag, features, |features|) == [];
      assert done + [] == done;
    }
    RanSpec(CmdsIn(dir, env, ComboWords(done)), sh.succeeds);
    ok := true;
  }

  // ---------------------------------------------------------------------------
  // The feature matrix (`do_feature_matrix`)
  // ---------------------------------------------------------------------------

  /** The `[test]` table of a crate's `rbmt.toml`; a missing file gives every list empty. */
  datatype TestConfig = TestConfig(
    examples: seq<string>,
    featuresWithStd: seq<string>,
    featuresWithoutStd: seq<string>,
    exactFeatures: seq<seq<string>>,
    featuresWithNoStd: seq<string>)

  /** The exact combinations, each feature list joined by spaces. */
  function ExactCombos(exact: seq<seq<string>>): (combos: seq<string>)
    ensures |combos| == |exact|
    ensures forall k :: 0 <= k < |exact| ==> combos[k] == JoinWith(exact[k], " ")
  {
    seq(|exact|, k requires 0 <= k < |exact| => JoinWith(exact[k], " "))
  }

  const NoDefaultWords: seq<seq<string>> := [["cargo", "build", "--no-default-features"], ["cargo", "test", "--no-default-features"]]
  const AllFeaturesWords: seq<seq<string>> := [["cargo", "build", "--all-features"], ["cargo", "test", "--all-features"]]

  /** The first step of the general matrix: the no-std pattern when configured, plain no-default-features otherwise. */
  function NoDefaultStep(config: TestConfig): seq<seq<string>> {
    if config.featuresWithNoStd != [] then ComboWords(["no-std"] + Combos("no-std", config.featuresWithNoStd))
    else NoDefaultWords
  }

  /** The combinations looped after all features: with `std`, then without it. */
  function LoopSteps(config: TestConfig): seq<seq<string>> {
    (if config.featuresWithStd != [] then ComboWords(Combos("std", config.featuresWithStd)) else [])
    + (if config.featuresWithoutStd != [] then ComboWords(Combos("", config.featuresWithoutStd)) else [])
  }

  /** Every command `do_feature_matrix` issues when all of them succeed, in order. */
  function MatrixWords(config: TestConfig): seq<seq<string>> {
    if config.exactFeatures != [] then ComboWords(ExactCombos(config.exactFeatures))
    else NoDefaultStep(config) + AllFeaturesWords + LoopSteps(config)
  }

  /** Every command of `ws` has four words, as a command naming its features does. */
  predicate FourWords(ws: seq<seq<string>>) {
    forall k :: 0 <= k < |ws| ==> |ws[k]| == 4
  }

  /** Every command of a combination loop names its features. */
  lemma {:induction false} ComboWordsHaveFeatures(combos: seq<string>)
    ensures FourWords(ComboWords(combos))
  {
    if combos != [] {
      ComboWordsHaveFeatures(combos[1..]);
      var ws := ComboWords(combos);
      assert ws == FeatureWords(combos[0]) + ComboWords(combos[1..]);
      forall k | 2 <= k < |ws| ensures |ws[k]| == 4 {
        assert ws[k] == ComboWords(combos[1..])[k - 2];
      }
    }
  }

  /**
   * Non-empty exact combinations are the whole matrix: one build and one
   * test per combination, in order, and nothing else.
   */
  lemma MatrixExactOnly(config: TestConfig)
    requires config.exactFeatures != []
    ensures var w := MatrixWords(config);
      |w| == 2 * |config.exactFeatures|
      && forall k :: 0 <= k < |config.exactFeatures| ==>
        w[2 * k] == ["cargo", "build", "--no-default-features", "--features=" + JoinWith(config.exactFeatures[k], " ")]
        && w[2 * k + 1] == ["cargo", "test", "--no-default-features", "--features=" + JoinWith(config.exactFeatures[k], " ")]
  {
    ComboWordsSpec(ExactCombos(config.exactFeatures));
  }

  /** Without exact combinations, all features are built and tested right after the first step. */
  lemma MatrixAllFeatures(config: TestConfig)
    requires config.exactFeatures == []
    ensures var first := NoDefaultStep(config);
      MatrixWords(config)[|first|..|first| + 2] == AllFeaturesWords
  {
    var first := NoDefaultStep(config);
    assert MatrixWords(config) == first + (AllFeaturesWords + LoopSteps(config));
  }

  /** Without exact combinations, configured no-std features make the no-std build the first command. */
  lemma MatrixNoStdFirst(config: TestConfig)
    requires config.exactFeatures == [] && config.featuresWithNoStd != []
    ensures MatrixWords(config)[0] == ["cargo", "build", "--no-default-features", "--features=no-std"]
  {
    var combos := ["no-std"] + Combos("no-std", config.featuresWithNoStd);
    var cw := ComboWords(combos);
    ComboWordsFirst(combos);
    NoStdFlag();
    assert MatrixWords(config) == cw + (AllFeaturesWords + LoopSteps(config));
    assert MatrixWords(config)[0] == cw[0];
  }

  /** The first command of a non-empty combination loop builds its first combination. */
  lemma ComboWordsFirst(combos: seq<string>)
    requires combos != []
    ensures ComboWords(combos)[0] == ["cargo", "build", "--no-default-features", "--features=" + combos[0]]
  {
    assert ComboWords(combos) == FeatureWords(combos[0]) + ComboWords(combos[1..]);
  }

  lemma NoStdFlag()
    ensures "--features=" + "no-std" == "--features=no-std"
  {
  }

  /** The loops after all features issue only commands naming their features. */
  lemma LoopStepsHaveFeatures(config: TestConfig)
    ensures FourWords(LoopSteps(config))
  {
    var std := if config.featuresWithStd != [] then Combos("std", config.featuresWithStd) else [];
    var nostd := if config.featuresWithoutStd != [] then Combos("", config.featuresWithoutStd) else [];
    ComboWordsHaveFeatures(std);
    ComboWordsHaveFeatures(nostd);
    var a, b := ComboWords(std), ComboWords(nostd);
    assert LoopSteps(config) == a + b;
    forall k | |a| <= k < |a + b| ensures |(a + b)[k]| == 4 {
      assert (a + b)[k] == b[k - |a|];
    }
  }

  /**
   * Without exact combinations, the plain no-default-features build is issued
   * exactly when no no-std features are configured.
   */
  lemma MatrixPlainNoDefault(config: TestConfig)
    requires config.exactFeatures == []
    ensures ["cargo", "build", "--no-default-features"] in MatrixWords(config) <==> config.featuresWithNoStd == []
  {
    var w := MatrixWords(config);
    var plain := ["cargo", "build", "--no-default-features"];
    if config.featuresWithNoStd != [] {
      var first := ComboWords(["no-std"] + Combos("no-std", config.featuresWithNoStd));
      ComboWordsHaveFeatures(["no-std"] + Combos("no-std", config.featuresWithNoStd));
      LoopStepsHaveFeatures(config);
      var loops := LoopSteps(config);
      assert w == first + AllFeaturesWords + loops;
    } else {
      assert w[0] == plain;
    }
  }

  /** Runs `words` in order through the shell, stopping at the first failure. */
  method Steps(sh: Shell, words: seq<seq<string>>) returns (ok: bool)
    modifies sh`log
    ensures var cmds := CmdsIn(sh.cwd, sh.vars, words);
      sh.log == old(sh.log) + Ran(cmds, sh.succeeds) && ok == AllSucceed(cmds, sh.succeeds)
  {
    ok := sh.RunEach(words);
  }

  /** `do_feature_matrix`: the exact combinations only, or the general matrix. */
  method FeatureMatrix(sh: Shell, config: TestConfig) returns (ok: bool)
    modifies sh`log
    ensures var cmds := CmdsIn(sh.cwd, sh.vars, MatrixWords(config));
      sh.log == old(sh.log) + Ran(cmds, sh.succeeds) && ok == AllSucceed(cmds, sh.succeeds)
  {
    ghost var L := sh.log;
    ghost var dir, env := sh.cwd, sh.vars;
    if config.exactFeatures != [] {
      var exact := ExactCombos(config.exactFeatures);
      ghost var done: seq<string> := [];
      for k := 0 to |exact|
        invariant sh.cwd == dir && sh.vars == env && Logged(sh, L, done)
        invariant done == exact[..k]
      {
        assert exact == done + [exact[k]] + exact[k + 1..];
        ok := TestCombo(sh, exact[k]);
        Next(L, dir, env, done, exact[k], exact[k + 1..], sh.succeeds);
        if !ok {
          return;
        }
        assert exact[..k + 1] == done + [exact[k]];
        done := done + [exact[k]];
      }
      assert done == exact;
      RanSpec(CmdsIn(dir, env, ComboWords(done)), sh.succeeds);
      return true;
    }
    var first := NoDefaultStep(config);
    if config.featuresWithNoStd != [] {
      var noStd := TestCombo(sh, "no-std");
      ok := noStd;
      if ok {
        ok := LoopFeatures(sh, "no-std", config.featuresWithNoStd);
      }
      ComboWordsAppend(["no-std"], Combos("no-std", config.featuresWithNoStd));
      CmdsInAppend(dir, env, ComboWords(["no-std"]), ComboWords(Combos("no-std", config.featuresWithNoStd)));
      RanSeq(L, CmdsIn(dir, env, ComboWords(["no-std"])),
             CmdsIn(dir, env, ComboWords(Combos("no-std", config.featuresWithNoStd))), sh.succeeds);
    } else {
      ok := Steps(sh, NoDefaultWords);
    }
    ghost var L1 := sh.log;
    assert L1 == L + Ran(CmdsIn(dir, env, first), sh.succeeds) && ok == AllSucceed(CmdsIn(dir, env, first), sh.succeeds);
    ghost var tail := AllFeaturesWords + LoopSteps(config);
    CmdsInAppend(dir, env, first, tail);
    RanSeq(L, CmdsIn(dir, env, first), CmdsIn(dir, env, tail), sh.succeeds);
    AppendAssoc(first, AllFeaturesWords, LoopSteps(config));
    if !ok {
      return;
    }
    ok := Rest(sh, config);
  }

  /** The steps of the general matrix after the first one. */
  method Rest(sh: Shell, config: TestConfig) returns (ok: bool)
    modifies sh`log
    ensures var cmds := CmdsIn(sh.cwd, sh.vars, AllFeaturesWords + LoopSteps(config));
      sh.log == old(sh.log) + Ran(cmds, sh.succeeds) && ok == AllSucceed(cmds, sh.succeeds)
  {
    ghost var L := sh.log;
    ghost var dir, env := sh.cwd, sh.vars;
    var std := if config.featuresWithStd != [] then Combos("std", config.featuresWithStd) else [];
    var nostd := if config.featuresWithoutStd != [] then Combos("", config.featuresWithoutStd) else [];
    ghost var a := CmdsIn(dir, env, AllFeaturesWords);
    ghost var b := CmdsIn(dir, env, ComboWords(std));
    ghost var c := CmdsIn(dir, env, ComboWords(nostd));
    assert LoopSteps(config) == ComboWords(std) + ComboWords(nostd);
    CmdsInAppend(dir, env, ComboWords(std), ComboWords(nostd));
    CmdsInAppend(dir, env, AllFeaturesWords, LoopSteps(config));
    AppendAssoc(a, b, c);
    RanSeq(L, a, b + c, sh.succeeds);
    ok := Steps(sh, AllFeaturesWords);
    if !ok {
      return;
    }
    ghost var L1 := sh.log;
    RanSeq(L1, b, c, sh.succeeds);
    AppendAssoc(L, a, Ran(b + c, sh.succeeds));
    RanSpec(a, sh.succeeds);
    if config.featuresWithStd != [] {
      ok := LoopFeatures(sh, "std", config.featuresWithStd);
      if !ok {
        return;
      }
    } else {
      assert b == [];
      assert Ran(b, sh.succeeds) == [] && sh.log == L1 + [];
    }
    ghost var L2 := sh.log;
    if config.featuresWithoutStd != [] {
      ok := LoopFeatures(sh, "", config.featuresWithoutStd);
    } else {
      assert c == [];
      assert sh.log == L2 + Ran(c, sh.succeeds);
      ok := true;
    }
  }
}
