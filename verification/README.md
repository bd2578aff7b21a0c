# rust-bitcoin maintainer tools, modelled in Dafny

This project models the decision logic of the rust-bitcoin maintainer tools:

- `cargo-rbmt`, the cargo subcommand that runs a workspace's maintenance tasks:
  - the API check (public API snapshots, the additive-features check and the
    semver check against a baseline revision);
  - the test feature matrix;
  - lints;
  - lock-file maintenance;
  - pre-release checks;
  - integration tests;
  - fuzz target discovery;
  - the shared environment helpers.
- The `tasks` binary's lint task and toolchain check.
- The `releases` tool: the `Config::latest` lookup, the JSON conversions, and
  the crates.io release and dependency checks.

Every external command goes through a model of the `xshell` shell (`shell.dfy`,
module `ShellModel`). The shell has:

- a current directory;
- its shell variables;
- a log of the commands issued, in order;
- an oracle `succeeds` for each command's outcome;
- an oracle `output` for what each command prints.

Each task is specified by a function computing the task's result and the
commands it issues. Each task's method, which carries the source's loops and
its `?` early exits, is proved equal to that function. The function's own
lemmas then state what the task promises: which commands run and in which
order, what stops a run, what an error reports, and which files a run writes.
Cargo's JSON metadata, TOML manifests and the crates.io client are oracles
given as parameters. They are also given as datatypes that hold only the
fields the code reads.

The API check keeps the source's form. A `Workspace` class holds the process-wide
state that the check updates in place: the shell's directory, the checked-out
revision, the files under `api/` and the trace of commands. The checked-out
revision matters because `check_semver` switches it. The methods of
`Workspace` are proved against the functions `Extract`, `CheckFrom`, `Semver`
and `SemverRestoring`.

Three places where the code's behaviour may surprise a reader; the model follows the code in each:

- The semver comparison of a package stops at its first breaking
  configuration (cargo-rbmt/src/api.rs:260-270). It does not aggregate every
  configuration's outcome.
- `check_apis` writes a package's `api/` files before its additive check, and
  stops at the first non-additive package (cargo-rbmt/src/api.rs:146-182).
- `check_semver` switches back to the original revision only when the baseline
  snapshots succeed (cargo-rbmt/src/api.rs:232-240), although the comment at
  cargo-rbmt/src/api.rs:214 says the current revision is stored to be restored
  later. See Findings below.

## Model

| member | source | states |
|---|---|---|
| Api.Index | cargo-rbmt/src/api.rs:105 | every feature configuration sits at a position of the three-entry catalog that the loops visit |
| Api.CatalogDistinct | cargo-rbmt/src/api.rs:24-59 | the catalog lists every configuration once; file names, display names and cargo flags all differ between configurations |
| Api.JsonPathSpec | cargo-rbmt/src/api.rs:120-125 | the rustdoc JSON path lies under the target directory and ends in `<name>.json`, with every `-` of the package name written as `_` and every other character kept |
| Api.ApiFilesDistinct | cargo-rbmt/src/api.rs:147-152 | a package's three snapshot files under `api/<package>/` are distinct files |
| Api.ExtractFrom | cargo-rbmt/src/api.rs:105-129 | when the loop succeeds, the shell is back at the workspace root and the map holds every remaining configuration |
| Api.Extract | cargo-rbmt/src/api.rs:97-132 | a successful extraction holds exactly the three configurations and leaves the shell at the root |
| Api.ExtractSpec | cargo-rbmt/src/api.rs:97-132 | the extraction succeeds iff each configuration's attempt succeeds; it then maps each configuration to its snapshot and issues the attempts' commands in catalog order |
| Api.AttemptSpec | cargo-rbmt/src/api.rs:106-128 | one attempt runs rustdoc in the package directory and then `cargo metadata` at the root; a failed rustdoc leaves the shell in the package directory; the attempt succeeds iff rustdoc ran, a target directory was found and the JSON could be read |
| Api.WriteApis | cargo-rbmt/src/api.rs:146-153 | the three snapshot files hold the rendered snapshots; all other files are unchanged and no other file is added |
| Api.ExtractCargoOnly | cargo-rbmt/src/api.rs:111-120 | taking snapshots runs only cargo commands, never git |
| Api.CheckFromStep | cargo-rbmt/src/api.rs:142-183 | a package whose snapshots pass writes its files; the check then continues with the next package |
| Api.CheckFromStop | cargo-rbmt/src/api.rs:143-182 | a package that fails ends the check with its own error, after only its own commands |
| Api.CheckFromNeedsAllPass | cargo-rbmt/src/api.rs:142-188 | success, or reaching `git status`, requires every package to have passed |
| Api.CheckFromStatus | cargo-rbmt/src/api.rs:185-201 | once every package passes, `git status --porcelain api` is issued and the check succeeds iff its trimmed output is empty |
| Api.CheckFromFirstFailure | cargo-rbmt/src/api.rs:142-183 | the first failing package decides the error |
| Api.VerdictSpec | cargo-rbmt/src/api.rs:155-182 | a package passes the additive check iff its snapshots were taken and the all-features API extends the no-features API, so additions are allowed and removals or signature changes are not |
| Api.CollectFrom | cargo-rbmt/src/api.rs:221-224 | a successful snapshot loop leaves the shell at the workspace root |
| Api.CollectFromStep | cargo-rbmt/src/api.rs:221-224 | a package whose snapshots are taken is stored under its name, and the loop goes on |
| Api.CollectFromStop | cargo-rbmt/src/api.rs:222 | a package whose snapshots fail ends the loop with that error |
| Api.CollectFromOk | cargo-rbmt/src/api.rs:221-224 | the snapshot loop succeeds iff every remaining package's snapshots can be taken |
| Api.CollectFromComplete | cargo-rbmt/src/api.rs:221-224 | every package collected has a snapshot for each configuration |
| Api.CollectFromKeys | cargo-rbmt/src/api.rs:221-224 | the collected map is keyed by exactly the package names |
| Api.CollectFromCargoOnly | cargo-rbmt/src/api.rs:221-224 | the snapshot loop never runs git, whether it succeeds or not |
| Api.ExtractErrors | cargo-rbmt/src/api.rs:116-127 | taking snapshots fails only with a failed command, a missing target directory or an unreadable JSON file |
| Api.CollectFromErrors | cargo-rbmt/src/api.rs:221-224 | the snapshot loop fails only with snapshot errors |
| Api.CollectSpec | cargo-rbmt/src/api.rs:220-236 | the collection succeeds iff every package extracts; it is then complete and keyed by the package names, and it runs only cargo |
| Api.ConfigsFromSpec | cargo-rbmt/src/api.rs:260-270 | a package passes iff every configuration's current API extends its baseline API; otherwise the error names the first breaking configuration in catalog order |
| Api.WarningsNamePackages | cargo-rbmt/src/api.rs:243-258 | every warning issued names one of the compared packages |
| Api.CompareFromStep | cargo-rbmt/src/api.rs:243-271 | a package present on both sides that passes is taken out of both maps, and the comparison continues |
| Api.CompareFromOk | cargo-rbmt/src/api.rs:243-271 | with distinct names, the comparison succeeds iff no package present on both sides has a breaking configuration |
| Api.CompareFromBreaking | cargo-rbmt/src/api.rs:260-268 | with complete snapshots, the only error is a breaking change |
| Api.CompareFromWarnings | cargo-rbmt/src/api.rs:244-258 | on success, a package is warned as missing from the baseline iff it is absent there, and as missing from current iff it is in the baseline but not in current |
| Api.Switches | cargo-rbmt/src/api.rs:228-240 | the switch projection of a trace holds only `git switch` commands |
| Api.SemverWithSuccess | cargo-rbmt/src/api.rs:215-240 | a successful run reads the revision, snapshots current, detaches to the baseline, snapshots the baseline and switches back to the trimmed revision, in that order and with exactly those two switches |
| Api.SemverSuccess | cargo-rbmt/src/api.rs:207-274 | the same as `SemverWithSuccess`, for the snapshot loops actually run from the root |
| Api.SemverBaselineFailureSkipsRestore | cargo-rbmt/src/api.rs:232-240 | as written: when the baseline snapshots fail, the run errs with the baseline still checked out, and its only switch is the detach |
| Api.SemverRestoringWithRestores | cargo-rbmt/src/api.rs:226-240 | corrected: once the detach has run, the run always issues the switch back; success ends on the original revision |
| Api.SemverRestoringRestores | cargo-rbmt/src/api.rs:226-240 | corrected: the same as `SemverRestoringWithRestores`, for the snapshot loops actually run |
| Api.SemverRestoringAgrees | cargo-rbmt/src/api.rs:232-240 | the correction behaves exactly as the code does when the baseline snapshots succeed |
| Api.SemverWithVerdict | cargo-rbmt/src/api.rs:207-274 | the semver run succeeds iff the revision query, both snapshot loops and both switches succeed and no package breaks; it never reports a missing configuration |
| Api.SemverVerdict | cargo-rbmt/src/api.rs:207-274 | the same as `SemverWithVerdict`, for the snapshot loops actually run |
| Api.SemverWithNoWarnings | cargo-rbmt/src/api.rs:243-258 | a run that reaches the comparison prints no missing-package warning, because both maps hold every requested name |
| Api.NoWarningsWhenPresent | cargo-rbmt/src/api.rs:243-258 | when every name is on both sides and the names are distinct, no warning is issued |
| Api.SemverNoWarnings | cargo-rbmt/src/api.rs:243-258 | a successful semver run prints no warning |
| Api.ComparePackage | cargo-rbmt/src/api.rs:260-270 | the configuration loop gives the verdict `ConfigsFromSpec` characterises |
| Api.CompareAll | cargo-rbmt/src/api.rs:243-271 | the package loop, with its removals from both maps, gives the outcome and warnings `CompareFromOk`/`CompareFromWarnings` characterise |
| Api.Workspace.constructor | cargo-rbmt/src/api.rs:76-80 | a workspace starts at the given directory and revision, with the given files and an empty trace |
| Api.Workspace.TakeSnapshot | cargo-rbmt/src/api.rs:106-128 | one configuration's snapshot, shell directory and commands are those `AttemptSpec` describes |
| Api.Workspace.GetPackageApis | cargo-rbmt/src/api.rs:97-132 | the snapshots, directory and commands are those `ExtractSpec` describes |
| Api.Workspace.CollectApis | cargo-rbmt/src/api.rs:220-224 | the snapshot loop's result, directory and commands are those `CollectSpec` describes |
| Api.Workspace.WriteApiFiles | cargo-rbmt/src/api.rs:146-153 | the files become those `WriteApis` describes |
| Api.Workspace.CheckStatus | cargo-rbmt/src/api.rs:185-201 | the drift check issues `git status`, plus `git diff` when the status is not clean, and succeeds iff the trimmed status is empty |
| Api.Workspace.CheckApis | cargo-rbmt/src/api.rs:138-202 | `check_apis` ends with the result, directory, files and trace of the spec `CheckFrom`, whose lemmas are above |
| Api.Workspace.CheckPackage | cargo-rbmt/src/api.rs:143-182 | one pass of the package loop issues that package's snapshot commands; a failure ends the check with the outcome `CheckFrom` gives, a pass leaves the shell at the root and hands on to the next package |
| Api.Workspace.CheckSemver | cargo-rbmt/src/api.rs:207-274 | as written: `check_semver` ends with the result, warnings, revision, directory and trace of `Semver` |
| Api.Workspace.CheckSemverRestoring | cargo-rbmt/src/api.rs:207-274 | corrected: the same as `CheckSemver`, but the original revision is restored after the baseline snapshots whether or not they succeed |
| Api.Workspace.Run | cargo-rbmt/src/api.rs:76-94 | a wrong toolchain stops before any command; the package list comes from metadata; a baseline selects the corrected semver check `CheckSemverRestoring` (see Findings) and no baseline selects the additive check |
| PublicApiDiff.Between | cargo-rbmt/src/api.rs:161 | removed items come from the old API and added items from the new one |
| PublicApiDiff.NonBreakingIffExtends | cargo-rbmt/src/api.rs:161-163 | a diff has no removed and no changed item iff the new API extends the old one |
| PublicApiDiff.DiffReversed | cargo-rbmt/src/api.rs:264-266 | swapping the two APIs swaps added with removed and keeps the changed names |
| PublicApiDiff.DiffIdentity | cargo-rbmt/src/api.rs:161-163 | an API compared with itself has an empty diff |
| PublicApiDiff.DiffPartitionsOld | cargo-rbmt/src/api.rs:161-163 | every old item is exactly one of: removed, changed (recorded with both signatures), or kept unchanged |
| PublicApiDiff.NonBreakingTransitive | cargo-rbmt/src/api.rs:266 | two non-breaking steps compose into a non-breaking step |
| Environment.ConfigureLogLevel | cargo-rbmt/src/environment.rs:38-46 | the two cargo verbosity variables are set as `LogLevelComplementary` states |
| Environment.LogLevelComplementary | cargo-rbmt/src/environment.rs:15-46 | the verbose and quiet variables are set to opposite values; quiet is `true` iff `RBMT_LOG_LEVEL` is `quiet`; other variables are unchanged |
| Environment.WorkspacePackages | cargo-rbmt/src/environment.rs:77-90 | packages without a name or a manifest path are dropped, so the list is no longer than the metadata |
| Environment.WorkspacePackagesAppend | cargo-rbmt/src/environment.rs:80-90 | the filtering is element-wise, so it distributes over concatenation |
| Environment.WorkspacePackagesSingle | cargo-rbmt/src/environment.rs:82-88 | an entry with a name and a manifest path gives that name and the path with `/Cargo.toml` trimmed; any other entry gives nothing |
| Environment.PackageDirSpec | cargo-rbmt/src/environment.rs:86 | the directory no longer ends in `/Cargo.toml`, and the manifest path is the directory followed by some number of repetitions of that suffix |
| Environment.Names | cargo-rbmt/src/environment.rs:98 | the names keep the packages' order, one for each package |
| Environment.UnknownSpec | cargo-rbmt/src/environment.rs:99-105 | the unknown names are exactly the requested names that are not available; the list is empty iff every request is available |
| Environment.SelectSpec | cargo-rbmt/src/environment.rs:120-123 | the selection keeps exactly the workspace packages whose name is requested, and no more of them than the list holds; repeating a request changes nothing |
| Environment.SelectAppend | cargo-rbmt/src/environment.rs:120-123 | selecting from a concatenation is the concatenation of the selections, so the selection keeps workspace order |
| Environment.SelectSingle | cargo-rbmt/src/environment.rs:120-123 | one package is kept iff its name was requested |
| Environment.SelectNoRepeats | cargo-rbmt/src/environment.rs:120-123 | a workspace list without repeated entries gives a selection without repeated entries |
| Environment.SelectAll | cargo-rbmt/src/environment.rs:120-121 | requesting every package's name selects every package |
| Environment.GetPackages | cargo-rbmt/src/environment.rs:70-124 | no metadata is an error; an empty request gives every package; otherwise unknown names are an error listing them and the available names, and known names select their packages |
| Environment.UnknownSnoc | cargo-rbmt/src/environment.rs:101-105 | one more request adds itself to the unknown names iff it is not available |
| Environment.LoadPackages | cargo-rbmt/src/environment.rs:74-75 | one `cargo metadata` command is issued and the result is that of `GetPackages` on its parsed output |
| Environment.GetPackagesCoversRequest | cargo-rbmt/src/environment.rs:119-123 | when every requested name is available, every selected package was requested and every request has a selected package |
| ShellModel.Ran | cargo-rbmt/src/test.rs:127-128 | the commands that ran are a prefix of the commands in the sequence |
| ShellModel.RanSpec | cargo-rbmt/src/test.rs:127-128 | when all commands succeed, all run; otherwise the run ends at the first failure, after commands that all succeeded |
| ShellModel.RanAppend | cargo-rbmt/src/test.rs:127-128 | running two sequences in order runs the second only when the first succeeded |
| ShellModel.RanStopsAt | cargo-rbmt/src/test.rs:127-128 | a failing command ends the run right after itself |
| ShellModel.Shell.constructor | cargo-rbmt/src/environment.rs:19-27 | a shell starts in its directory with no variables and an empty log |
| ShellModel.Shell.Run | cargo-rbmt/src/environment.rs:19-27 | a command is logged in the current directory and environment; it succeeds as the oracle says |
| ShellModel.Shell.Read | cargo-rbmt/src/environment.rs:74 | a read is logged and returns the output only when the command succeeds |
| ShellModel.Shell.ReadIgnoringStatus | cargo-rbmt/src/lint.rs:114-116 | a read that ignores the exit status is logged and always returns the output |
| ShellModel.Shell.RunEach | cargo-rbmt/src/test.rs:127-128 | commands run in order until the first failure, and the result says whether all succeeded |
| ShellModel.Shell.RunInEachDir | cargo-rbmt/src/lint.rs:87-95 | one command is run in each directory in turn, stopping at the first failure; the directory is restored after each run, and the result says whether all succeeded |
| ShellModel.Shell.SetVar | cargo-rbmt/src/environment.rs:40-44 | setting a variable changes only that variable |
| ShellModel.ThenAssoc | cargo-rbmt/src/prerelease.rs:69-77 | composing steps with `?` is associative |
| ShellModel.ChainStops | cargo-rbmt/src/prerelease.rs:69-77 | once a step fails, the later steps do not matter |
| ShellModel.ChainSpec | cargo-rbmt/src/prerelease.rs:52-81 | a chain of `?` steps succeeds iff every step does, issuing all their commands; otherwise it ends with the first failing step's error, after the commands of that step and all earlier steps |
| TestTask.ParseExampleSpec | cargo-rbmt/src/test.rs:132-159 | parsing the text of a well-formed example gives it back |
| TestTask.ExampleSpecOfParse | cargo-rbmt/src/test.rs:132-166 | a spec is rejected iff it has two or more `:`, and the error is the spec itself; an accepted spec is re-rendered exactly |
| TestTask.ExampleStepsSpec | cargo-rbmt/src/test.rs:131-168 | with all specs valid, each example issues its one `cargo run`; otherwise the loop stops at the first invalid spec, after one command per earlier example |
| TestTask.DoTest | cargo-rbmt/src/test.rs:123-171 | `cargo build`, `cargo test` and the example commands run in order until one fails; a failing command wins over a later invalid spec |
| TestTask.PairsFromLength | cargo-rbmt/src/test.rs:278-291 | the pair loop for feature i yields one combination per later feature |
| TestTask.RowsFromLength | cargo-rbmt/src/test.rs:262-293 | the singles-and-pairs loop yields n(n+1)/2 combinations for its remaining features |
| TestTask.CombosCount | cargo-rbmt/src/test.rs:247-293 | with n > 1 features there are 1 + n + n(n-1)/2 combinations, and otherwise only the all-features one |
| TestTask.PairsFromMembers | cargo-rbmt/src/test.rs:278-279 | the pairs for feature i are exactly `base flag + f_i + " " + f_k` for each later k |
| TestTask.RowsFromMembers | cargo-rbmt/src/test.rs:262-291 | the loop yields exactly the single features and the ordered pairs |
| TestTask.CombosMembers | cargo-rbmt/src/test.rs:241-293 | the combinations are the all-features list plus, when there are several features, every single feature and every pair, each prefixed by the base flag |
| TestTask.ComboWords | cargo-rbmt/src/test.rs:250-259 | each combination issues two commands |
| TestTask.ComboWordsSpec | cargo-rbmt/src/test.rs:250-259 | the k-th combination issues `cargo build` and then `cargo test` with `--no-default-features --features=<combo>` |
| TestTask.TestCombo | cargo-rbmt/src/test.rs:266-275 | one combination's build and test run until the first failure |
| TestTask.LoopFeatures | cargo-rbmt/src/test.rs:236-296 | `loop_features` issues the commands of every combination in order until the first failure |
| TestTask.ExactCombos | cargo-rbmt/src/test.rs:179-180 | each exact combination is its feature list joined by spaces |
| TestTask.ComboWordsHaveFeatures | cargo-rbmt/src/test.rs:250-290 | every command of a combination loop names its features |
| TestTask.MatrixExactOnly | cargo-rbmt/src/test.rs:178-194 | non-empty exact combinations are the whole matrix: one build and one test per combination, in order |
| TestTask.MatrixAllFeatures | cargo-rbmt/src/test.rs:210-212 | without exact combinations, the all-features build and test follow the first step |
| TestTask.MatrixNoStdFirst | cargo-rbmt/src/test.rs:197-200 | with no-std features, the matrix starts with the no-std build |
| TestTask.LoopStepsHaveFeatures | cargo-rbmt/src/test.rs:214-222 | the loops after all-features issue only commands that name their features |
| TestTask.MatrixPlainNoDefault | cargo-rbmt/src/test.rs:196-207 | the plain no-default-features build runs iff no no-std features are configured |
| TestTask.Steps | cargo-rbmt/src/test.rs:127-128 | a list of commands runs in order until the first failure |
| TestTask.FeatureMatrix | cargo-rbmt/src/test.rs:174-225 | `do_feature_matrix` issues the matrix's commands in order until the first failure |
| TestTask.Rest | cargo-rbmt/src/test.rs:209-224 | the steps after the first one run in order until the first failure |
| Lint.LoadConfig | cargo-rbmt/src/lint.rs:26-37 | the config is an error iff the file cannot be read; a missing file or a missing key allows no duplicates |
| Lint.KeepDuplicates | cargo-rbmt/src/lint.rs:118-124 | filtering keeps at most the lines it was given |
| Lint.KeepDuplicatesMembers | cargo-rbmt/src/lint.rs:118-124 | the duplicates are exactly the output lines that start with an alphanumeric character and contain no allowed name |
| Lint.AllowMore | cargo-rbmt/src/lint.rs:123 | allowing more names never reports more duplicates |
| Lint.EmptyNameAllowsAll | cargo-rbmt/src/lint.rs:123 | an empty allowed name is contained in every line, so it silences every duplicate |
| Lint.DuplicatesStepSpec | cargo-rbmt/src/lint.rs:107-138 | the check passes iff every crate line of `cargo tree --duplicates` is allowed; a duplicates error lists exactly the crate lines that are not allowed |
| Lint.CheckDuplicateDeps | cargo-rbmt/src/lint.rs:107-138 | the method's result and commands are those `DuplicatesStepSpec` describes |
| Lint.LintWorkspace | cargo-rbmt/src/lint.rs:55-69 | the two workspace clippy runs, in order, stopping at the first failure |
| Lint.PackageCmds | cargo-rbmt/src/lint.rs:87-95 | one clippy command per package, each issued in that package's directory |
| Lint.LintPackages | cargo-rbmt/src/lint.rs:80-98 | the package clippy runs stop at the first failure, and the shell's directory is restored |
| Lint.ExistingInClippy | cargo-rbmt/src/lint.rs:156-161 | the files found in a directory are exactly its existing `clippy.toml` and `.clippy.toml` |
| Lint.PackageClippyFilesMembers | cargo-rbmt/src/lint.rs:165-172 | the package files found are exactly the existing clippy files of some package directory |
| Lint.ClippyFilesMembers | cargo-rbmt/src/lint.rs:152-172 | the files checked are exactly the existing clippy files of the root or of some package |
| Lint.MsrvFilesSpec | cargo-rbmt/src/lint.rs:175-183 | the scan succeeds iff every file is readable TOML; it then lists exactly the files with an `msrv` key; otherwise it names an unreadable file |
| Lint.MsrvOutcomeSpec | cargo-rbmt/src/lint.rs:144-197 | the check passes iff no clippy file sets `msrv`; the error lists exactly the files that do |
| Lint.ExistingClippyFiles | cargo-rbmt/src/lint.rs:156-161 | the loop over the two file names finds what `ExistingInClippy` describes |
| Lint.PackagesClippyFiles | cargo-rbmt/src/lint.rs:165-172 | the nested loop finds what `PackageClippyFilesMembers` describes |
| Lint.ScanMsrv | cargo-rbmt/src/lint.rs:175-183 | the scan loop gives what `MsrvFilesSpec` describes |
| Lint.CheckClippyTomlMsrv | cargo-rbmt/src/lint.rs:144-197 | the method's result and commands are those `MsrvOutcomeSpec` describes |
| Lint.MsrvFilesPrefix | cargo-rbmt/src/lint.rs:177-178 | an unreadable file ends the scan, so later files do not matter |
| Lint.Run | cargo-rbmt/src/lint.rs:41-52 | the toolchain check, workspace lint, package lints, duplicate check and msrv check run in order, each ending the task on failure |
| Lint.LintCode | cargo-rbmt/src/lint.rs:45-46 | the workspace lint and then the package lints run, the second only when the first passes, with the directory restored |
| Lint.LintConfig | cargo-rbmt/src/lint.rs:47-48 | the duplicate check and then the msrv check run, the second only when the first passes |
| TasksLint.LoadTasksConfig | tasks/src/lint.rs:23-36 | without serde defaults, a file lacking the key is an error like an unreadable file; a missing file allows no duplicates |
| TasksLint.LoadersAgree | tasks/src/lint.rs:23-36 | the two loaders agree except on a file without the key, which only the `tasks` loader rejects |
| TasksLint.TasksDuplicatesStepSpec | tasks/src/lint.rs:104-139 | the check passes iff every crate line of `cargo tree` (without `--locked`) is allowed; the error lists exactly the crate lines that are not allowed |
| TasksLint.CheckDuplicateDeps | tasks/src/lint.rs:104-139 | the method's result and commands are those `TasksDuplicatesStepSpec` describes |
| TasksLint.LintWorkspace | tasks/src/lint.rs:53-70 | the two workspace clippy runs, stopping at the first failure |
| TasksLint.CrateDirs | tasks/src/environment.rs:66-77 | `get_crate_dirs` keeps one directory per metadata entry with a manifest path, so there is at most one per entry |
| TasksLint.CrateDirsCoverPackages | tasks/src/environment.rs:62-80 | the crate directories are exactly the trimmed manifest paths, and they include every workspace package's directory |
| TasksLint.CrateCmds | tasks/src/lint.rs:87-98 | one clippy command per crate directory, issued in that directory |
| TasksLint.LintCrates | tasks/src/lint.rs:81-101 | the crate clippy runs stop at the first failure, and the directory is restored |
| TasksLint.TasksLintRunOrder | tasks/src/lint.rs:40-50 | workspace lint, then crate lints, then the duplicate check; each failure ends the run, and the run succeeds iff all three do |
| TasksLint.Run | tasks/src/lint.rs:40-50 | the method's result and commands are those `TasksLintRunOrder` describes |
| Prerelease.LoadSkip | cargo-rbmt/src/prerelease.rs:28-39 | an unreadable file is an error; a package is skipped iff its file sets `skip = true`; a missing file does not skip |
| Prerelease.FlaggedSpec | cargo-rbmt/src/prerelease.rs:89-110 | a line is flagged iff it contains one of the five TODO markers or `doc_auto_cfg` |
| Prerelease.FileIssuesSpec | cargo-rbmt/src/prerelease.rs:107-113 | a file's issues are exactly its flagged lines, with their zero-based numbers, in increasing line order |
| Prerelease.ScanFile | cargo-rbmt/src/prerelease.rs:107-113 | the line loop gives what `FileIssuesSpec` describes |
| Prerelease.LastDot | cargo-rbmt/src/prerelease.rs:103 | the position found is the last `.` of the name, and there is none when the name has no dot |
| Prerelease.RustFileSpec | cargo-rbmt/src/prerelease.rs:103 | a file is scanned iff its name ends in `.rs` and is longer than that suffix |
| Prerelease.WalkShrinks | cargo-rbmt/src/prerelease.rs:96-102 | popping a directory and pushing its subdirectories shrinks the work left, so the walk terminates |
| Prerelease.VisitSpec | cargo-rbmt/src/prerelease.rs:97-116 | one directory's visit fails only on an unreadable entry, and otherwise records its files' issues and pushes its subdirectories |
| Prerelease.WalkSpec | cargo-rbmt/src/prerelease.rs:94-117 | the walk succeeds iff no directory on the stack holds an unreadable entry, and it then finds exactly the issues of the whole tree |
| Prerelease.TodosSpec | cargo-rbmt/src/prerelease.rs:85-129 | the check passes iff `src` exists, is readable and has no issue; an issues error counts exactly the issues found |
| Prerelease.ReadDir | cargo-rbmt/src/prerelease.rs:97-116 | the entry loop gives what `VisitSpec` describes |
| Prerelease.VisitStops | cargo-rbmt/src/prerelease.rs:97-98 | an unreadable entry ends the visit, so later entries do not matter |
| Prerelease.CheckTodos | cargo-rbmt/src/prerelease.rs:85-129 | the method's outcome and issue list are those `TodosSpec` describes |
| Prerelease.PublishDirSpec | cargo-rbmt/src/prerelease.rs:159-179 | the publish directory is `<target>/package/<name>-<version>` of the first package whose manifest is the current one; "not found" holds iff no package has that manifest |
| Prerelease.FindPublishDir | cargo-rbmt/src/prerelease.rs:163-179 | the package loop gives what `PublishDirSpec` describes |
| Prerelease.PublishStepSpec | cargo-rbmt/src/prerelease.rs:136-147 | `cargo publish --dry-run` comes first; the packaged test is the third command and runs iff the dry run, the target directory, the metadata and the lookup all succeed |
| Prerelease.CheckPublish | cargo-rbmt/src/prerelease.rs:136-147 | the method's result and commands are those `PublishStepSpec` describes, and the directory is restored |
| Prerelease.PackageStepSpec | cargo-rbmt/src/prerelease.rs:53-77 | a skipped package issues nothing; an unreadable config is an error; otherwise the TODO check's failure ends the step before `check_publish` |
| Prerelease.PackagesFromChain | cargo-rbmt/src/prerelease.rs:52-78 | the package loop is the `?` chain of its steps |
| Prerelease.PackagesFromSpec | cargo-rbmt/src/prerelease.rs:52-81 | all packages pass iff every step does; otherwise the first failing package's error ends the run, after the earlier packages' commands |
| Prerelease.PackagesFromStops | cargo-rbmt/src/prerelease.rs:69-77 | after a failing package, the remaining packages do not matter |
| Prerelease.Skipped | cargo-rbmt/src/prerelease.rs:55-61 | the skipped list is exactly the packages whose config sets `skip = true` |
| Prerelease.CheckPackage | cargo-rbmt/src/prerelease.rs:53-77 | the method's result and commands are those `PackageStepSpec` describes |
| Prerelease.Run | cargo-rbmt/src/prerelease.rs:43-82 | the run's result and commands are those `PackagesFromSpec` describes, and on success the skipped list is that of `Skipped` |
| Prerelease.PackagesNext | cargo-rbmt/src/prerelease.rs:52-78 | one more package extends the run with its step, and the skipped list with it when it is skipped |
| Lock.FileName | cargo-rbmt/src/lock.rs:31-37 | only `Existing` names `Cargo.lock` |
| Lock.FileNamesDistinct | cargo-rbmt/src/lock.rs:31-37 | the three lock kinds name three different files |
| Lock.Removed | cargo-rbmt/src/lock.rs:93-99 | after removal `Cargo.lock` is absent and nothing else changes |
| Lock.RemoveIdempotent | cargo-rbmt/src/lock.rs:93-99 | removing twice is the same as removing once |
| Lock.Copied | cargo-rbmt/src/lock.rs:102-120 | a copy fails iff the source is missing; otherwise the destination holds the source's contents and nothing else changes |
| Lock.CopyRestoreSpec | cargo-rbmt/src/lock.rs:102-120 | saving succeeds iff `Cargo.lock` exists, and then the saved file equals it; restoring `Existing` is a no-op; another restore fails iff the saved file is missing |
| Lock.LockRunSuccess | cargo-rbmt/src/lock.rs:53-90 | a successful run issues the three checks in order; the minimal lock is the minimal-versions resolution from no lock; the recent lock equals the final `Cargo.lock`, resolved from the previous recent lock |
| Lock.LockRunFailure | cargo-rbmt/src/lock.rs:53-90 | a wrong toolchain stops before any command or file change; a failed command is the last one issued; every command before it succeeded |
| Lock.FileSystem.constructor | cargo-rbmt/src/lock.rs:11 | the file system starts with the given files |
| Lock.RemoveLockFile | cargo-rbmt/src/lock.rs:93-99 | the files become those `Removed` describes |
| Lock.CopyLockFile | cargo-rbmt/src/lock.rs:102-107 | the files and result are those `CopyRestoreSpec` describes for saving |
| Lock.RestoreLockFile | cargo-rbmt/src/lock.rs:110-120 | the files and result are those `CopyRestoreSpec` describes for restoring |
| Lock.CargoCheck | cargo-rbmt/src/lock.rs:71-84 | one logged cargo check, which rewrites `Cargo.lock` only when it succeeds |
| Lock.Run | cargo-rbmt/src/lock.rs:53-90 | the run's commands, result and files are those `LockRunSuccess` and `LockRunFailure` describe |
| Lock.SaveLockFiles | cargo-rbmt/src/lock.rs:79-85 | saving the minimal lock, then restoring, refreshing and saving the recent one, in order |
| Integration.LoadConfig | cargo-rbmt/src/integration.rs:36-46 | the config is an error iff the file is unreadable; a missing file gives the defaults |
| Integration.PackageName | cargo-rbmt/src/integration.rs:49 | the integration package defaults to `bitcoind-tests` |
| Integration.DiscoveredSpec | cargo-rbmt/src/integration.rs:115-141 | discovery fails iff the output is not JSON; otherwise it is the first package's feature names, sorted |
| Integration.VersionsSpec | cargo-rbmt/src/integration.rs:83-102 | without configured versions every available version is tested; otherwise all configured versions are tested in order iff all are available, and the error names the first one that is not |
| Integration.FirstMissingSpec | cargo-rbmt/src/integration.rs:86-97 | the version reported is the first requested version that is not available |
| Integration.SelectVersions | cargo-rbmt/src/integration.rs:83-102 | the filtering loop gives what `VersionsSpec` describes |
| Integration.TestWords | cargo-rbmt/src/integration.rs:105-108 | one `cargo --locked test --features=<v>` per version, in order |
| Integration.PackageStepSpec | cargo-rbmt/src/integration.rs:61-108 | a package without an integration directory or manifest is skipped; one with no version features issues only the metadata command; otherwise it tests each selected version |
| Integration.DiscoverVersionFeatures | cargo-rbmt/src/integration.rs:115-141 | metadata is read in the integration directory, the shell's directory is restored, and the result is that of `DiscoveredSpec` |
| Integration.CheckPackage | cargo-rbmt/src/integration.rs:62-108 | the method's result and commands are those `PackageStepSpec` describes |
| Integration.Run | cargo-rbmt/src/integration.rs:57-112 | the package steps run as a `?` chain after the package list is loaded |
| Fuzz.FuzzPackageName | cargo-rbmt/src/fuzz.rs:31-44 | an unreadable config is an error; a missing file or key gives `fuzz`; otherwise the configured package |
| Fuzz.BinTargetsSpec | cargo-rbmt/src/fuzz.rs:65-77 | a name is listed iff some target has a `kind` array containing `bin` and that string name |
| Fuzz.NamedTargetsSpec | cargo-rbmt/src/fuzz.rs:61-81 | only the first package with the fuzz package's name is examined; no such package gives no targets |
| Fuzz.FuzzTargetsSorted | cargo-rbmt/src/fuzz.rs:55-87 | discovery fails iff the output is not JSON; the targets are sorted and are a permutation of the package's binary targets |
| Fuzz.CollectTargets | cargo-rbmt/src/fuzz.rs:58-82 | the loop with its `continue`s and `break` finds what `NamedTargetsSpec` and `BinTargetsSpec` describe |
| Fuzz.DiscoverFuzzTargets | cargo-rbmt/src/fuzz.rs:51-88 | one `cargo metadata` command; a failing command is an error; otherwise the result is that of `FuzzTargetsSorted` |
| Fuzz.ListOutput | cargo-rbmt/src/fuzz.rs:98-104 | a non-empty list prints the targets; an empty list prints the message unless quiet mode is on |
| Fuzz.List | cargo-rbmt/src/fuzz.rs:91-107 | an unreadable config stops before any command; otherwise errors are passed on and the printed lines are those of `ListOutput` |
| Toolchain.SplitDigits | tasks/src/toolchain.rs:102-103 | the dot-separated parts are all ASCII digits iff the string holds only digits and dots |
| Toolchain.IsVersionSpec | tasks/src/toolchain.rs:102-103 | a candidate is accepted iff it holds only digits and dots and exactly two dots; empty groups are accepted |
| Toolchain.VersionPartSpec | tasks/src/toolchain.rs:99 | the candidate is the prefix of the token before its first `-` and contains no `-` |
| Toolchain.FirstVersionSpec | tasks/src/toolchain.rs:97-108 | the result is the candidate of the first token whose candidate is accepted, or nothing when none is |
| Toolchain.ExtractVersionShape | tasks/src/toolchain.rs:96-109 | an extracted version is a substring of the rustc output, has no `-`, and has digits and exactly two dots |
| Toolchain.ExtractStable | tasks/src/toolchain.rs:117-120 | `rustc 1.74.0 (79e9716c9 2023-11-13)` gives `1.74.0` |
| Toolchain.ExtractNightly | tasks/src/toolchain.rs:121-124 | `rustc 1.75.0-nightly (12345abcd 2023-11-20)` gives `1.75.0` |
| Toolchain.ExtractBare | tasks/src/toolchain.rs:125 | `rustc 1.74.0` gives `1.74.0` |
| Toolchain.ExtractNone | tasks/src/toolchain.rs:126-127 | `rustc unknown version` and `no version here` give nothing |
| Toolchain.ExtractDotsOnly | tasks/src/toolchain.rs:102-104 | `rustc ..` gives `..`, because empty groups pass the all-digits test |
| Toolchain.FindManifestSpec | tasks/src/toolchain.rs:76-82 | the package found is the first one whose manifest path is the current manifest |
| Toolchain.MsrvOfSpec | tasks/src/toolchain.rs:76-91 | an MSRV is read iff the metadata parses, lists packages and the first package with the manifest path has a `rust_version`; that value is the MSRV |
| Toolchain.NightlySpec | tasks/src/toolchain.rs:23-30 | the nightly requirement passes iff `rustc --version` succeeds and mentions `nightly` |
| Toolchain.StableSpec | tasks/src/toolchain.rs:22-35 | the stable requirement passes iff `rustc --version` succeeds and mentions neither `nightly` nor `beta` |
| Toolchain.NightlyStableExclusive | tasks/src/toolchain.rs:26-35 | no compiler satisfies both the nightly and the stable requirement |
| Toolchain.MsrvSpec | tasks/src/toolchain.rs:36-56 | the MSRV requirement passes iff there is a `Cargo.toml`, the metadata's first package with that manifest has a `rust_version`, and that value equals the version extracted from rustc's output |
| Releases.LessTotal | releases/src/lib.rs:40 | the version order is a strict total order |
| Releases.VersionTextRoundTrip | releases/src/lib.rs:98 | reading a version's text gives that version back |
| Releases.NodeTextSpec | releases/src/lib.rs:96-100 | a node displays as its package, a space and its version, which split apart and read back |
| Releases.CollectSpec | releases/src/lib.rs:61-63 | collecting conversions succeeds iff each element converts, keeping order; otherwise it returns the first failing element's error |
| Releases.ConvertNodeSpec | releases/src/lib.rs:102-114 | a node converts iff every dependency version and its own version parse; the result keeps the package and the dependencies in order; dependencies are checked first |
| Releases.ConvertConfigSpec | releases/src/lib.rs:57-66 | a config converts iff every latest and every release converts, keeping their order and lengths; the latests' error comes first |
| Releases.ConvertCrateNode | releases/src/lib.rs:105-113 | the dependency loop gives what `ConvertNodeSpec` describes |
| Releases.WantedSpec | releases/src/lib.rs:27-32 | the wanted version is that of the last `latests` entry for the package, or nothing when it is not listed |
| Releases.ScanSpec | releases/src/lib.rs:37-44 | the release found is the first release of the package with the greatest version above 0.0.0, or none when there is no such release |
| Releases.LatestSpec | releases/src/lib.rs:26-54 | an unlisted package is an error; a listed package without a release above 0.0.0 is an error; a success returns the wanted version, which is then the greatest release; when the wanted version is the greatest release it is returned, and otherwise (a release exists but its greatest version differs) the result is a mismatch |
| Releases.LatestRelease | releases/src/lib.rs:26-54 | the two loops give what `LatestSpec` describes |
| ReleasesCheck.ScanReleasesSpec | releases/src/main.rs:154-165 | the loop completes iff the registry answers for every package; it then prints one line per package, stale iff the versions differ, and flags staleness iff some package is stale |
| ReleasesCheck.CheckReleasesSpec | releases/src/main.rs:143-171 | the check succeeds iff the registry answers every query; the all-match line is printed iff nothing is stale, and never on error |
| ReleasesCheck.CheckLatestReleases | releases/src/main.rs:143-171 | the loop's result and printed lines are those `CheckReleasesSpec` describes |
| ReleasesCheck.ScanReleasesStops | releases/src/main.rs:155 | a failed registry query ends the loop |
| ReleasesCheck.DepFieldsSpec | releases/src/main.rs:211-225 | a dependency's package is its table's string `package` field, or else its key; its version is the plain string or the table's string `version` field |
| ReleasesCheck.ClassifySpec | releases/src/main.rs:230-245 | unpinned iff no version; a cross iff the major or minor differs; a tick iff major and minor match; up to date iff equal to the latest |
| ReleasesCheck.ManifestPath | releases/src/main.rs:180-184 | the manifest is `Cargo.toml` in the repository, or in the named crate's directory |
| ReleasesCheck.LastComponent | releases/src/main.rs:189 | the crate name falls back to the path's last component, which exists iff the path is non-empty |
| ReleasesCheck.LastComponentExamples | releases/src/main.rs:189 | an empty path has no last component, and `/` has the root as its last component |
| ReleasesCheck.ScanDepsSpec | releases/src/main.rs:210-246 | the loop completes iff every dependency's registry query and version parse succeed; it then prints one classified line per dependency, in key order |
| ReleasesCheck.SortedKeys | releases/src/main.rs:206-209 | the dependency keys are sorted and are a permutation of the table's keys |
| ReleasesCheck.CheckDependenciesSpec | releases/src/main.rs:174-249 | on success the manifest was read and parsed and has a package version, the header names the manifest path and that version, and each sorted key has its classified line; it fails iff the crate name, the manifest, its package version or some dependency's step fails |
| ReleasesCheck.CheckLatestDependencies | releases/src/main.rs:174-249 | the method's result, header and lines are those `CheckDependenciesSpec` describes |
| ReleasesCheck.ScanDepsStops | releases/src/main.rs:227-232 | a failed query or parse ends the loop |
| ReleasesCheck.ScanLatest | releases/src/main.rs:210-246 | the dependency loop over the given keys (the sorted dependency names, in `CheckLatestDependencies`) stops at the first failed query or parse and otherwise prints the lines `ScanDeps` gives |

## Findings

| source | as written | input that shows it | evidently intended | confidence | as-written member | corrected member |
|---|---|---|---|---|---|---|
| cargo-rbmt/src/api.rs:232-240 | the `?` on the baseline snapshot loop returns before `git switch {current_ref}`, so a failing baseline snapshot leaves the working tree detached at the baseline | `cargo rbmt api --baseline v1.0` where rustdoc fails on the baseline revision (for example, one package does not build there) | switch back to the captured revision whenever the detach succeeded, then report the snapshot error | not executed | Api.SemverBaselineFailureSkipsRestore, Api.Workspace.CheckSemver | Api.SemverRestoringRestores, Api.Workspace.CheckSemverRestoring |

`Api.Workspace.Run` dispatches to the corrected `CheckSemverRestoring`.

## Left out

- `public_api`: the diff of the `public_api` crate is taken to behave as the set operations of `PublicApiDiff.Between`; rustdoc JSON parsing and rendering are oracles of `Api.Host`.
- cargo-rbmt/src/toolchain.rs is not part of this model. The tasks that call `check_toolchain` take its outcome as a boolean `toolchainOk` and log no command for it. The `tasks` binary's own check is modelled in `toolchain.dfy`.
- cargo-rbmt's `get_crate_dirs` and `get_target_directory` (cargo-rbmt/src/environment.rs as given does not define them) are oracles of each task's host. The `tasks` binary's own `get_crate_dirs` (tasks/src/environment.rs:62-80) is modelled by `TasksLint.CrateDirs`, with an unreadable or non-JSON metadata output and a missing `packages` array merged into one error.
- `test::run` and `TestConfig::load` are not modelled. The feature-matrix and example logic they call is modelled through `DoTest` and `FeatureMatrix`.
- Fuzz `run` only prints a message that fuzzing is not yet implemented, so it is not modelled.
- `Environment.GetPackages`: an unreadable or non-JSON metadata output and a missing `packages` array are both the one error `MetadataUnavailable`.
- File I/O: errors other than a missing file are not modelled, and a TOML parse error is merged with an unreadable file into `Unreadable`.
- `Lint.KeepDuplicates`: `char::is_alphanumeric` is modelled for ASCII letters and digits only, not for the whole of Unicode.
- `Lock.CargoCheck`: the effect on `Cargo.lock` of a failing `cargo check` is not modelled; the file is taken as unchanged.
- The prerelease config path is joined to the process directory; `push_dir` is modelled as a change of directory that is undone at the end of the iteration.
- Spawn failures of commands are folded into command failure.
- HashMap iteration order: `check_apis` writes its three files in catalog order. The written files do not depend on that order.
- `Releases.Version`: `semver::Version` is a triple with lexicographic order; pre-release and build metadata, and their ordering and display, are left out. `Version::parse` is an oracle `parse` given as a parameter.
- The crates.io client is an oracle `registry` from a package name to an optional latest version; rate limiting, the user agent and `async` are left out.
- `ReleasesCheck.CheckDependencies`: the `expect` panics of `check_latest_dependencies` on an empty repository path (releases/src/main.rs:189) and on a `[package]` without `version` (releases/src/main.rs:198) are modelled as the error results `InvalidRepository` and `MissingVersion`; the `[package]` and `[dependencies]` sections (releases/src/main.rs:197, 206-207) are assumed to be present and to be tables, and the `to_str().unwrap()` at releases/src/main.rs:189 is not modelled because paths are strings here.
- `ReleasesCheck.LastComponent`: Windows path prefixes, and the UTF-8 failure of `to_str`, are left out.
- Printed text: the lines printed (colours, padding, the tick and cross glyphs) are modelled as line datatypes, not as strings. The missing-package warnings of `check_semver` (cargo-rbmt/src/api.rs:245, 253) go through `quiet_println` and are not printed when `RBMT_LOG_LEVEL` is `quiet`; `Api.Comparison.warnings` records them whatever the log level (no successful run warns, by `Api.SemverNoWarnings`).
- Command-line parsing and dispatch (the three `main.rs` files), `docs.rs`, `bench.rs`, tasks/src/environment.rs apart from `get_crate_dirs`, and the serde schemas `json.rs` and `toml.rs` are not modelled beyond the record types the model reads.
- `Toolchain.CheckToolchain`: the UTF-8 check on the manifest path is left out; the metadata for the MSRV comes from an oracle run in the process directory.
