/**
 * The process-wide state the tools drive through `xshell`: a current
 * directory, shell variables and the commands run so far. The outcome of
 * every external command is an oracle (`succeeds`); the model records which
 * commands run, in which directory, in which order.
 */
module ShellModel {

  datatype Option<+T> = None | Some(value: T)

  datatype Result<+T, +E> = Ok(value: T) | Err(error: E)

  /** A successful result without a value is `Ok(())`. */
  lemma OkUnit<E>(r: Result<(), E>)
    requires r.Ok?
    ensures r == Ok(())
  {
    assert r.value == ();
  }

  type Path = string

  /**
   * `Path::join` with a relative component: a separator is inserted unless the
   * directory is empty or already ends with one.
   */
  function JoinPath(dir: Path, name: string): Path {
    if dir == [] || dir[|dir| - 1] == '/' then dir + name else dir + "/" + name
  }

  /** `Shell::change_dir`: an absolute path replaces the directory, a relative one is joined to it. */
  function ChangeDir(cwd: Path, p: Path): Path {
    if p != [] && p[0] == '/' then p else JoinPath(cwd, p)
  }

  lemma AppendAssoc<T>(a: seq<T>, b: seq<T>, c: seq<T>)
    ensures a + (b + c) == (a + b) + c
  {
  }

  /** An external command: working directory, environment variables and words. */
  datatype Cmd = Cmd(dir: Path, env: map<string, string>, words: seq<string>)

  /** Every command of `cmds` succeeds. */
  predicate AllSucceed(cmds: seq<Cmd>, succeeds: Cmd -> bool) {
    forall k :: 0 <= k < |cmds| ==> succeeds(cmds[k])
  }

  /**
   * The commands that actually run when `cmds` are issued one after another,
   * each followed by `?`: everything up to and including the first failure.
   */
  function Ran(cmds: seq<Cmd>, succeeds: Cmd -> bool): (r: seq<Cmd>)
    ensures |r| <= |cmds| && r == cmds[..|r|]
  {
    if cmds == [] then []
    else if !succeeds(cmds[0]) then [cmds[0]]
    else [cmds[0]] + Ran(cmds[1..], succeeds)
  }

  /**
   * A run that meets no failure issues every command; otherwise it ends with
   * the first failing command, after commands that all succeeded.
   */
  lemma {:induction false} RanSpec(cmds: seq<Cmd>, succeeds: Cmd -> bool)
    ensures AllSucceed(cmds, succeeds) ==> Ran(cmds, succeeds) == cmds
    ensures !AllSucceed(cmds, succeeds) ==>
      var r := Ran(cmds, succeeds);
      r != [] && !succeeds(r[|r| - 1]) && AllSucceed(r[..|r| - 1], succeeds)
  {
    if cmds != [] && succeeds(cmds[0]) {
      var tail := cmds[1..];
      RanSpec(tail, succeeds);
      var r := Ran(cmds, succeeds);
      assert r == [cmds[0]] + Ran(tail, succeeds);
      if AllSucceed(cmds, succeeds) {
        assert AllSucceed(tail, succeeds) by {
          forall k | 0 <= k < |tail| ensures succeeds(tail[k]) {
            assert tail[k] == cmds[k + 1];
          }
        }
      } else {
        var k :| 0 <= k < |cmds| && !succeeds(cmds[k]);
        assert !succeeds(tail[k - 1]);
        var rt := Ran(tail, succeeds);
        assert r[..|r| - 1] == [cmds[0]] + rt[..|rt| - 1];
      }
    }
  }

  /** Issuing `a` then `b`: `b` starts only when all of `a` succeeded. */
  lemma {:induction false} RanAppend(a: seq<Cmd>, b: seq<Cmd>, succeeds: Cmd -> bool)
    ensures AllSucceed(a, succeeds) ==> Ran(a + b, succeeds) == a + Ran(b, succeeds)
    ensures !AllSucceed(a, succeeds) ==> Ran(a + b, succeeds) == Ran(a, succeeds)
  {
    if a != [] {
      var tail := a[1..];
      assert (a + b)[0] == a[0];
      assert (a + b)[1..] == tail + b;
      RanAppend(tail, b, succeeds);
      if AllSucceed(a, succeeds) {
        assert AllSucceed(tail, succeeds) by {
          forall k | 0 <= k < |tail| ensures succeeds(tail[k]) {
            assert tail[k] == a[k + 1];
          }
        }
        assert a + Ran(b, succeeds) == [a[0]] + (tail + Ran(b, succeeds));
      } else if succeeds(a[0]) {
        var k :| 0 <= k < |a| && !succeeds(a[k]);
        assert !succeeds(tail[k - 1]);
        assert Ran(a + b, succeeds) == [a[0]] + Ran(tail + b, succeeds);
        assert Ran(a, succeeds) == [a[0]] + Ran(tail, succeeds);
      }
    } else {
      assert a + b == b;
    }
  }

  lemma AllSucceedAppend(a: seq<Cmd>, b: seq<Cmd>, succeeds: Cmd -> bool)
    ensures AllSucceed(a + b, succeeds) <==> AllSucceed(a, succeeds) && AllSucceed(b, succeeds)
  {
    if AllSucceed(a, succeeds) && AllSucceed(b, succeeds) {
      forall k | 0 <= k < |a + b| ensures succeeds((a + b)[k]) {
        if k >= |a| {
          assert (a + b)[k] == b[k - |a|];
        }
      }
    }
    if AllSucceed(a + b, succeeds) {
      forall k | 0 <= k < |a| ensures succeeds(a[k]) {
        assert (a + b)[k] == a[k];
      }
      forall k | 0 <= k < |b| ensures succeeds(b[k]) {
        assert (a + b)[|a| + k] == b[k];
      }
    }
  }

  /**
   * Two steps issued one after the other, each ending with `?`: the log of
   * the pair is the log of the first step, followed by the log of the second
   * only when the first step fully succeeded.
   */
  lemma RanSeq(log: seq<Cmd>, a: seq<Cmd>, b: seq<Cmd>, succeeds: Cmd -> bool)
    ensures AllSucceed(a + b, succeeds) <==> AllSucceed(a, succeeds) && AllSucceed(b, succeeds)
    ensures AllSucceed(a, succeeds) ==> (log + Ran(a, succeeds)) + Ran(b, succeeds) == log + Ran(a + b, succeeds)
    ensures !AllSucceed(a, succeeds) ==> log + Ran(a, succeeds) == log + Ran(a + b, succeeds)
  {
    AllSucceedAppend(a, b, succeeds);
    RanAppend(a, b, succeeds);
    RanSpec(a, succeeds);
    AppendAssoc(log, a, Ran(b, succeeds));
  }

  /** A run whose first failure is command `k` issues exactly the commands up to and including `k`. */
  lemma RanStopsAt(cmds: seq<Cmd>, k: nat, succeeds: Cmd -> bool)
    requires k < |cmds| && AllSucceed(cmds[..k], succeeds) && !succeeds(cmds[k])
    ensures Ran(cmds, succeeds) == cmds[..k + 1] && !AllSucceed(cmds, succeeds)
  {
    assert cmds == cmds[..k] + cmds[k..];
    RanAppend(cmds[..k], cmds[k..], succeeds);
    assert cmds[..k + 1] == cmds[..k] + [cmds[k]];
  }

  /** The command `words` issued in each of `dirs`, each taken relative to `cwd`, in order. */
  function InDirs(cwd: Path, env: map<string, string>, dirs: seq<Path>, words: seq<string>): (cmds: seq<Cmd>)
    ensures |cmds| == |dirs|
    ensures forall k :: 0 <= k < |dirs| ==> cmds[k] == Cmd(ChangeDir(cwd, dirs[k]), env, words)
  {
    seq(|dirs|, k requires 0 <= k < |dirs| => Cmd(ChangeDir(cwd, dirs[k]), env, words))
  }

  /** The commands `words` issued in directory `dir` with environment `env`. */
  function CmdsIn(dir: Path, env: map<string, string>, words: seq<seq<string>>): (cmds: seq<Cmd>)
    ensures |cmds| == |words|
    ensures forall k :: 0 <= k < |words| ==> cmds[k] == Cmd(dir, env, words[k])
  {
    seq(|words|, k requires 0 <= k < |words| => Cmd(dir, env, words[k]))
  }

  lemma CmdsInAppend(dir: Path, env: map<string, string>, a: seq<seq<string>>, b: seq<seq<string>>)
    ensures CmdsIn(dir, env, a + b) == CmdsIn(dir, env, a) + CmdsIn(dir, env, b)
  {
  }

  /** The shell the tools share: its current directory, its variables and a log of commands. */
  class Shell {
    var cwd: Path
    var vars: map<string, string>
    var log: seq<Cmd>
    /** Exit status of each external command (an oracle). */
    const succeeds: Cmd -> bool
    /** Standard output of each external command (an oracle). */
    const output: Cmd -> string

    constructor (cwd: Path, succeeds: Cmd -> bool, output: Cmd -> string)
      ensures this.cwd == cwd && vars == map[] && log == []
      ensures this.succeeds == succeeds && this.output == output
    {
      this.cwd := cwd;
      this.vars := map[];
      this.log := [];
      this.succeeds := succeeds;
      this.output := output;
    }

    /** The command `words` as this shell would issue it now. */
    function CmdOf(words: seq<string>): Cmd
      reads this`cwd, this`vars
    {
      Cmd(cwd, vars, words)
    }

    /** `cmd!(sh, ...).run()`: issue one command and report its exit status. */
    method Run(words: seq<string>) returns (ok: bool)
      modifies this`log
      ensures log == old(log) + [CmdOf(words)]
      ensures ok == succeeds(CmdOf(words))
    {
      log := log + [CmdOf(words)];
      ok := succeeds(CmdOf(words));
    }

    /** `cmd!(sh, ...).read()`: the command's output, or nothing when it fails. */
    method Read(words: seq<string>) returns (out: Option<string>)
      modifies this`log
      ensures log == old(log) + [CmdOf(words)]
      ensures out == if succeeds(CmdOf(words)) then Some(output(CmdOf(words))) else None
    {
      log := log + [CmdOf(words)];
      out := if succeeds(CmdOf(words)) then Some(output(CmdOf(words))) else None;
    }

    /** `cmd!(sh, ...).ignore_status().read()`: the command's output whatever its exit status. */
    method ReadIgnoringStatus(words: seq<string>) returns (out: string)
      modifies this`log
      ensures log == old(log) + [CmdOf(words)]
      ensures out == output(CmdOf(words))
    {
      log := log + [CmdOf(words)];
      out := output(CmdOf(words));
    }

    /** Issue `words` one after another, stopping at the first failure. */
    method RunEach(words: seq<seq<string>>) returns (ok: bool)
      modifies this`log
      ensures var cmds := CmdsIn(cwd, vars, words);
        log == old(log) + Ran(cmds, succeeds) && ok == AllSucceed(cmds, succeeds)
    {
      ghost var cmds := CmdsIn(cwd, vars, words);
      var i := 0;
      while i < |words|
        invariant 0 <= i <= |words|
        invariant cwd == old(cwd) && vars == old(vars)
        invariant AllSucceed(cmds[..i], succeeds)
        invariant log == old(log) + cmds[..i]
      {
        ok := Run(words[i]);
        if !ok {
          RanAppend(cmds[..i], cmds[i..], succeeds);
          assert cmds == cmds[..i] + cmds[i..];
          assert !AllSucceed(cmds, succeeds);
          return;
        }
        assert cmds[..i + 1] == cmds[..i] + [cmds[i]];
        i := i + 1;
      }
      assert cmds[..i] == cmds;
      RanSpec(cmds, succeeds);
      ok := true;
    }

    /**
     * For each directory in turn: `push_dir` into it, issue `words`, and let the
     * guard restore the directory, stopping at the first failure.
     */
    method RunInEachDir(dirs: seq<Path>, words: seq<string>) returns (ok: bool)
      modifies this`log, this`cwd
      ensures cwd == old(cwd)
      ensures var cmds := InDirs(old(cwd), vars, dirs, words);
        log == old(log) + Ran(cmds, succeeds) && ok == AllSucceed(cmds, succeeds)
    {
      ghost var cmds := InDirs(cwd, vars, dirs, words);
      var root := cwd;
      for k := 0 to |dirs|
        invariant cwd == root
        invariant log == old(log) + cmds[..k] && AllSucceed(cmds[..k], succeeds)
      {
        cwd := ChangeDir(root, dirs[k]);
        ok := Run(words);
        cwd := root;
        assert cmds[..k + 1] == cmds[..k] + [cmds[k]];
        if !ok {
          RanStopsAt(cmds, k, succeeds);
          return;
        }
        AllSucceedAppend(cmds[..k], [cmds[k]], succeeds);
      }
      assert cmds[..|dirs|] == cmds;
      RanSpec(cmds, succeeds);
      ok := true;
    }

    /** `sh.set_var`: later commands see the variable. */
    method SetVar(name: string, value: string)
      modifies this`vars
      ensures vars == old(vars)[name := value]
    {
      vars := vars[name := value];
    }
  }

  // ---------------------------------------------------------------------------
  // Tasks made of steps
  // ---------------------------------------------------------------------------

  /** What one step of a task did: its result and the commands it issued. */
  datatype Step<E> = Step(result: Result<(), E>, cmds: seq<Cmd>)

  /** Two steps in order, the first ending with `?`: the second runs only when the first succeeded. */
  function Then<E>(a: Step<E>, b: Step<E>): Step<E> {
    if a.result.Err? then a else Step(b.result, a.cmds + b.cmds)
  }

  /** Steps run in order, each ending with `?`: the first failing step ends the task. */
  function Chain<E>(steps: seq<Step<E>>): Step<E> {
    if steps == [] then Step(Ok(()), []) else Then(steps[0], Chain(steps[1..]))
  }

  /** The step of each element, in order: the steps a loop over the elements chains. */
  function MapSteps<T, E>(xs: seq<T>, step: T -> Step<E>): (steps: seq<Step<E>>)
    ensures |steps| == |xs|
    ensures forall k :: 0 <= k < |xs| ==> steps[k] == step(xs[k])
  {
    seq(|xs|, k requires 0 <= k < |xs| => step(xs[k]))
  }

  /** Ending a chain with nothing more to do. */
  lemma ThenDone<E>(a: Step<E>)
    ensures Then(a, Step(Ok(()), [])) == a
  {
    match a.result {
      case Ok(u) =>
        match u {
          case () =>
            assert a.cmds + [] == a.cmds;
        }
      case Err(_) =>
    }
  }

  /** Grouping does not matter when steps are composed. */
  lemma ThenAssoc<E>(a: Step<E>, b: Step<E>, c: Step<E>)
    ensures Then(Then(a, b), c) == Then(a, Then(b, c))
  {
    if a.result.Ok? && b.result.Ok? {
      AppendAssoc(a.cmds, b.cmds, c.cmds);
    }
  }

  /** A chain grows at its end by one more step. */
  lemma {:induction false} ChainSnoc<E>(steps: seq<Step<E>>, last: Step<E>)
    ensures Chain(steps + [last]) == Then(Chain(steps), last)
  {
    if steps == [] {
      assert [] + [last] == [last];
      assert [last][1..] == [];
      ThenDone(last);
      assert [] + last.cmds == last.cmds;
    } else {
      assert (steps + [last])[1..] == steps[1..] + [last];
      ChainSnoc(steps[1..], last);
      ThenAssoc(steps[0], Chain(steps[1..]), last);
    }
  }

  /** A loop over steps: one more step extends the chain of those before it. */
  lemma ChainNext<E>(steps: seq<Step<E>>, i: nat)
    requires i < |steps|
    ensures Chain(steps[..i + 1]) == Then(Chain(steps[..i]), steps[i])
  {
    assert steps[..i + 1] == steps[..i] + [steps[i]];
    ChainSnoc(steps[..i], steps[i]);
  }

  /** Once a prefix of the steps has failed, the steps after it change nothing. */
  lemma {:induction false} ChainStops<E>(steps: seq<Step<E>>, m: nat)
    requires m <= |steps|
    requires Chain(steps[..m]).result.Err?
    ensures Chain(steps) == Chain(steps[..m])
    decreases |steps|
  {
    if m == |steps| {
      assert steps[..m] == steps;
    } else {
      var n := |steps| - 1;
      assert steps[..n][..m] == steps[..m];
      ChainStops(steps[..n], m);
      ChainNext(steps, n);
      assert steps[..n + 1] == steps;
    }
  }

  /** The commands of every step, in order. */
  function AllCmds<E>(steps: seq<Step<E>>): seq<Cmd> {
    if steps == [] then [] else steps[0].cmds + AllCmds(steps[1..])
  }

  /** The first `n` steps succeed. */
  predicate StepsOk<E>(steps: seq<Step<E>>, n: nat)
    requires n <= |steps|
  {
    forall k :: 0 <= k < n ==> steps[k].result.Ok?
  }

  /**
   * A task of steps succeeds exactly when every step does, and then issues
   * every step's commands; otherwise it fails with the error of the first
   * failing step, after the commands of the steps before it and of that step.
   */
  lemma {:induction false} ChainSpec<E>(steps: seq<Step<E>>)
    ensures Chain(steps).result.Ok? <==> StepsOk(steps, |steps|)
    ensures Chain(steps).result.Ok? ==> Chain(steps).cmds == AllCmds(steps)
    ensures Chain(steps).result.Err? ==>
      exists k :: 0 <= k < |steps| && StepsOk(steps, k) && steps[k].result.Err?
        && Chain(steps) == Step(steps[k].result, AllCmds(steps[..k]) + steps[k].cmds)
  {
    if steps != [] {
      var tail := steps[1..];
      ChainSpec(tail);
      if steps[0].result.Err? {
        assert steps[..0] == [];
        assert AllCmds(steps[..0]) + steps[0].cmds == steps[0].cmds;
      } else {
        assert StepsOk(steps, |steps|) <==> StepsOk(tail, |tail|) by {
          forall k | 0 <= k < |tail| ensures tail[k] == steps[k + 1] { }
        }
        if Chain(tail).result.Err? {
          var k :| 0 <= k < |tail| && StepsOk(tail, k) && tail[k].result.Err?
            && Chain(tail) == Step(tail[k].result, AllCmds(tail[..k]) + tail[k].cmds);
          assert steps[..k + 1][1..] == tail[..k];
          assert AllCmds(steps[..k + 1]) == steps[0].cmds + AllCmds(tail[..k]);
          AppendAssoc(steps[0].cmds, AllCmds(tail[..k]), tail[k].cmds);
          assert StepsOk(steps, k + 1) by {
            forall j | 1 <= j < k + 1 ensures steps[j] == tail[j - 1] { }
          }
        }
      }
    }
  }
}
