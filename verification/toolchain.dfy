/**
 * The toolchain gate of the `tasks` binary: parse the version out of
 * `rustc --version` and decide whether the compiler in use is the nightly,
 * stable or MSRV compiler a task asks for.
 */
module Toolchain {
  import opened ShellModel
  import opened Strings

  // ---------------------------------------------------------------------------
  // Version extraction
  // ---------------------------------------------------------------------------

  /** Every character of `p` is an ASCII digit (vacuously so for an empty `p`). */
  predicate AllDigits(p: string) {
    forall i :: 0 <= i < |p| ==> IsAsciiDigit(p[i])
  }

  /** The part of a token before its first `-` (`-nightly`, `-beta` and so on are dropped). */
  function VersionPart(token: string): string {
    Split(token, '-')[0]
  }

  /** Three `.`-separated parts, each made of ASCII digits only. */
  predicate IsVersion(v: string) {
    var parts := Split(v, '.');
    |parts| == 3 && PartsDigits(parts)
  }

  /** The version part of the first token that is a version. */
  function FirstVersion(tokens: seq<string>): Option<string> {
    if tokens == [] then None
    else if IsVersion(VersionPart(tokens[0])) then Some(VersionPart(tokens[0]))
    else FirstVersion(tokens[1..])
  }

  /** `extract_version`. */
  function ExtractVersion(rustcVersion: string): Option<string> {
    FirstVersion(SplitWhitespace(rustcVersion))
  }

  /** Digits and dots only. */
  predicate DigitsOrDots(v: string) {
    forall i :: 0 <= i < |v| ==> v[i] == '.' || IsAsciiDigit(v[i])
  }

  /** Every part is made of digits only. */
  predicate PartsDigits(parts: seq<string>) {
    forall k :: 0 <= k < |parts| ==> AllDigits(parts[k])
  }

  lemma PartsDigitsCons(p: string, parts: seq<string>)
    ensures PartsDigits([p] + parts) <==> AllDigits(p) && PartsDigits(parts)
  {
    var all := [p] + parts;
    if AllDigits(p) && PartsDigits(parts) {
      forall k | 0 <= k < |all| ensures AllDigits(all[k]) {
        if k > 0 { assert all[k] == parts[k - 1]; }
      }
    }
    if PartsDigits(all) {
      assert all[0] == p;
      forall k | 0 <= k < |parts| ensures AllDigits(parts[k]) {
        assert parts[k] == all[k + 1];
      }
    }
  }

  lemma AllDigitsCons(c: char, p: string)
    ensures AllDigits([c] + p) <==> IsAsciiDigit(c) && AllDigits(p)
  {
    var q := [c] + p;
    if IsAsciiDigit(c) && AllDigits(p) {
      forall i | 0 <= i < |q| ensures IsAsciiDigit(q[i]) {
        if i > 0 { assert q[i] == p[i - 1]; }
      }
    }
    if AllDigits(q) {
      assert q[0] == c;
      forall i | 0 <= i < |p| ensures IsAsciiDigit(p[i]) {
        assert p[i] == q[i + 1];
      }
    }
  }

  lemma DigitsOrDotsCons(v: string)
    requires v != []
    ensures DigitsOrDots(v) <==> (v[0] == '.' || IsAsciiDigit(v[0])) && DigitsOrDots(v[1..])
  {
    if (v[0] == '.' || IsAsciiDigit(v[0])) && DigitsOrDots(v[1..]) {
      forall i | 0 <= i < |v| ensures v[i] == '.' || IsAsciiDigit(v[i]) {
        if i > 0 { assert v[i] == v[1..][i - 1]; }
      }
    }
    if DigitsOrDots(v) {
      forall i | 0 <= i < |v[1..]| ensures v[1..][i] == '.' || IsAsciiDigit(v[1..][i]) {
        assert v[1..][i] == v[i + 1];
      }
    }
  }

  /** The parts of `v` between dots are all digits exactly when `v` has nothing but digits and dots. */
  lemma {:induction false} SplitDigits(v: string)
    ensures DigitsOrDots(v) <==> PartsDigits(Split(v, '.'))
  {
    if v != [] {
      SplitDigits(v[1..]);
      DigitsOrDotsCons(v);
      var rest := Split(v[1..], '.');
      if v[0] == '.' {
        PartsDigitsCons("", rest);
      } else {
        assert rest == [rest[0]] + rest[1..];
        PartsDigitsCons(rest[0], rest[1..]);
        PartsDigitsCons([v[0]] + rest[0], rest[1..]);
        AllDigitsCons(v[0], rest[0]);
      }
    }
  }

  /** A version is a string of digits and dots holding exactly two dots. */
  lemma IsVersionSpec(v: string)
    ensures IsVersion(v) <==> DigitsOrDots(v) && Occurrences(v, '.') == 2
  {
    SplitJoin(v, '.');
    SplitDigits(v);
  }

  /** The part before the first `-` is a prefix of the token without a `-`. */
  lemma VersionPartSpec(token: string)
    ensures StartsWith(token, VersionPart(token))
    ensures '-' !in VersionPart(token)
  {
    var parts := Split(token, '-');
    SplitJoin(token, '-');
    assert sep: '-' !in parts[0];
    if |parts| > 1 {
      assert JoinWith(parts, "-") == parts[0] + "-" + JoinWith(parts[1..], "-");
    }
  }

  /** The first token whose version part is a version decides the result. */
  lemma {:induction false} FirstVersionSpec(tokens: seq<string>)
    ensures FirstVersion(tokens).None? <==> forall k :: 0 <= k < |tokens| ==> !IsVersion(VersionPart(tokens[k]))
    ensures FirstVersion(tokens).Some? ==>
      exists k :: 0 <= k < |tokens|
        && FirstVersion(tokens).value == VersionPart(tokens[k])
        && IsVersion(VersionPart(tokens[k]))
        && (forall j :: 0 <= j < k ==> !IsVersion(VersionPart(tokens[j])))
  {
    if tokens != [] && !IsVersion(VersionPart(tokens[0])) {
      FirstVersionSpec(tokens[1..]);
      assert forall k :: 1 <= k < |tokens| ==> tokens[k] == tokens[1..][k - 1];
      if FirstVersion(tokens).Some? {
        var k :| 0 <= k < |tokens[1..]|
          && FirstVersion(tokens).value == VersionPart(tokens[1..][k])
          && IsVersion(VersionPart(tokens[1..][k]))
          && (forall j :: 0 <= j < k ==> !IsVersion(VersionPart(tokens[1..][j])));
        assert forall j :: 1 <= j < k + 1 ==> tokens[j] == tokens[1..][j - 1];
        assert tokens[k + 1] == tokens[1..][k];
      }
    }
  }

  /**
   * The extracted version is a slice of the input made of digits and dots,
   * with exactly two dots and no `-`.
   */
  lemma {:induction false} ExtractVersionShape(rustcVersion: string)
    ensures ExtractVersion(rustcVersion).Some? ==>
      var v := ExtractVersion(rustcVersion).value;
      IsSubstring(v, rustcVersion) && '-' !in v && DigitsOrDots(v) && Occurrences(v, '.') == 2
  {
    var tokens := SplitWhitespace(rustcVersion);
    FirstVersionSpec(tokens);
    if ExtractVersion(rustcVersion).Some? {
      var v := ExtractVersion(rustcVersion).value;
      var k :| 0 <= k < |tokens| && v == VersionPart(tokens[k]) && IsVersion(v);
      IsVersionSpec(v);
      VersionPartSpec(tokens[k]);
      PrefixOfSubstring(v, tokens[k], rustcVersion);
    }
  }

  // The examples that accompany `extract_version`.

  lemma NotVersion(token: string)
    requires '.' !in token
    ensures !IsVersion(VersionPart(token))
  {
    VersionPartSpec(token);
    var v := VersionPart(token);
    assert '.' !in v;
    SplitWithoutSeparator(v, '.');
  }

  lemma ThreeDigitGroups(a: string, b: string, c: string)
    requires AllDigits(a) && AllDigits(b) && AllDigits(c)
    ensures '.' !in a && '.' !in b && '.' !in c
    ensures IsVersion(a + "." + b + "." + c)
  {
    SplitAtFirst(a, b + "." + c, '.');
    assert a + "." + b + "." + c == a + ['.'] + (b + "." + c);
    SplitAtFirst(b, c, '.');
    assert b + "." + c == b + ['.'] + c;
    SplitWithoutSeparator(c, '.');
  }

  lemma FirstVersionCons(t: string, ts: seq<string>)
    ensures FirstVersion([t] + ts) == if IsVersion(VersionPart(t)) then Some(VersionPart(t)) else FirstVersion(ts)
  {
    assert ([t] + ts)[1..] == ts;
  }

  /** A string whose second token is the first version. */
  lemma ExtractSecond(t1: string, t2: string, rest: string)
    requires IsToken(t1) && IsToken(t2) && '.' !in t1 && IsVersion(VersionPart(t2))
    ensures ExtractVersion(t1 + [' '] + t2 + [' '] + rest) == Some(VersionPart(t2))
  {
    SplitWhitespaceCons(t1, ' ', t2 + [' '] + rest);
    assert t1 + [' '] + t2 + [' '] + rest == t1 + [' '] + (t2 + [' '] + rest);
    SplitWhitespaceCons(t2, ' ', rest);
    NotVersion(t1);
    FirstVersionCons(t1, [t2] + SplitWhitespace(rest));
    FirstVersionCons(t2, SplitWhitespace(rest));
  }

  lemma Version1740()
    ensures VersionPart("1.74.0") == "1.74.0" && IsVersion("1.74.0") && IsToken("1.74.0")
  {
    DashlessPart("1.74.0");
    Version1740Groups();
  }

  /** A token without `-` is its own version part. */
  lemma DashlessPart(t: string)
    requires '-' !in t
    ensures VersionPart(t) == t
  {
    SplitWithoutSeparator(t, '-');
  }

  /** The version part stops at the first `-`. */
  lemma SuffixedPart(v: string, suffix: string)
    requires '-' !in v
    ensures VersionPart(v + "-" + suffix) == v
  {
    SplitAtFirst(v, suffix, '-');
    assert v + "-" + suffix == v + ['-'] + suffix;
  }

  lemma Version1740Groups()
    ensures IsVersion("1.74.0") && IsToken("1.74.0")
  {
    ThreeDigitGroups("1", "74", "0");
    GroupsToken("1", "74", "0");
    assert "1.74.0" == "1" + "." + "74" + "." + "0";
  }

  /** Digit groups joined by dots hold no whitespace. */
  lemma GroupsToken(a: string, b: string, c: string)
    requires AllDigits(a) && AllDigits(b) && AllDigits(c)
    ensures IsToken(a + "." + b + "." + c)
  {
    var t := a + "." + b + "." + c;
    forall i | 0 <= i < |t| ensures !IsWhitespace(t[i]) {
      assert t[i] == '.' || IsAsciiDigit(t[i]);
    }
  }

  lemma Version1750()
    ensures IsVersion("1.75.0")
  {
    ThreeDigitGroups("1", "75", "0");
    assert "1.75.0" == "1" + "." + "75" + "." + "0";
  }

  lemma NightlyToken()
    ensures IsToken("1.75.0-nightly")
  {
  }

  lemma Version1750Nightly()
    ensures VersionPart("1.75.0-nightly") == "1.75.0"
  {
    SuffixedPart("1.75.0", "nightly");
    assert "1.75.0-nightly" == "1.75.0" + "-" + "nightly";
  }

  lemma RustcToken()
    ensures IsToken("rustc") && '.' !in "rustc"
  {
  }

  lemma StableText()
    ensures "rustc 1.74.0 (79e9716c9 2023-11-13)" == "rustc" + [' '] + "1.74.0" + [' '] + "(79e9716c9 2023-11-13)"
  {
  }

  lemma StableParts()
    ensures ExtractVersion("rustc" + [' '] + "1.74.0" + [' '] + "(79e9716c9 2023-11-13)") == Some("1.74.0")
  {
    Version1740();
    RustcToken();
    ExtractSecond("rustc", "1.74.0", "(79e9716c9 2023-11-13)");
  }

  lemma ExtractStable()
    ensures ExtractVersion("rustc 1.74.0 (79e9716c9 2023-11-13)") == Some("1.74.0")
  {
    StableText();
    StableParts();
  }

  lemma NightlyText()
    ensures "rustc 1.75.0-nightly (12345abcd 2023-11-20)"
         == "rustc" + [' '] + "1.75.0-nightly" + [' '] + "(12345abcd 2023-11-20)"
  {
  }

  lemma NightlyParts()
    ensures ExtractVersion("rustc" + [' '] + "1.75.0-nightly" + [' '] + "(12345abcd 2023-11-20)") == Some("1.75.0")
  {
    Version1750();
    Version1750Nightly();
    NightlyToken();
    RustcToken();
    ExtractSecond("rustc", "1.75.0-nightly", "(12345abcd 2023-11-20)");
  }

  lemma ExtractNightly()
    ensures ExtractVersion("rustc 1.75.0-nightly (12345abcd 2023-11-20)") == Some("1.75.0")
  {
    NightlyText();
    NightlyParts();
  }

  lemma BareParts()
    ensures ExtractVersion("rustc" + [' '] + "1.74.0") == Some("1.74.0")
  {
    Version1740();
    RustcToken();
    SplitWhitespaceCons("rustc", ' ', "1.74.0");
    SplitWhitespaceToken("1.74.0");
    NotVersion("rustc");
    FirstVersionCons("rustc", ["1.74.0"]);
    FirstVersionCons("1.74.0", []);
  }

  lemma ExtractBare()
    ensures ExtractVersion("rustc 1.74.0") == Some("1.74.0")
  {
    assert "rustc 1.74.0" == "rustc" + [' '] + "1.74.0";
    BareParts();
  }

  /** Three tokens without a dot hold no version. */
  lemma ExtractNoneOfThree(t1: string, t2: string, t3: string)
    requires IsToken(t1) && IsToken(t2) && IsToken(t3)
    requires '.' !in t1 && '.' !in t2 && '.' !in t3
    ensures ExtractVersion(t1 + [' '] + t2 + [' '] + t3) == None
  {
    SplitWhitespaceCons(t1, ' ', t2 + [' '] + t3);
    assert t1 + [' '] + t2 + [' '] + t3 == t1 + [' '] + (t2 + [' '] + t3);
    SplitWhitespaceCons(t2, ' ', t3);
    SplitWhitespaceToken(t3);
    NotVersion(t1);
    NotVersion(t2);
    NotVersion(t3);
    FirstVersionCons(t1, [t2] + [t3]);
    FirstVersionCons(t2, [t3]);
    FirstVersionCons(t3, []);
  }

  lemma WordTokens()
    ensures IsToken("unknown") && '.' !in "unknown" && IsToken("version") && '.' !in "version"
    ensures IsToken("no") && '.' !in "no" && IsToken("here") && '.' !in "here"
  {
  }

  lemma NoneText()
    ensures "rustc unknown version" == "rustc" + [' '] + "unknown" + [' '] + "version"
    ensures "no version here" == "no" + [' '] + "version" + [' '] + "here"
  {
  }

  lemma NoneParts()
    ensures ExtractVersion("rustc" + [' '] + "unknown" + [' '] + "version") == None
    ensures ExtractVersion("no" + [' '] + "version" + [' '] + "here") == None
  {
    RustcToken();
    WordTokens();
    ExtractNoneOfThree("rustc", "unknown", "version");
    ExtractNoneOfThree("no", "version", "here");
  }

  lemma ExtractNone()
    ensures ExtractVersion("rustc unknown version") == None
    ensures ExtractVersion("no version here") == None
  {
    NoneText();
    NoneParts();
  }

  lemma DotsParts()
    ensures ExtractVersion("rustc" + [' '] + "..") == Some("..")
  {
    RustcToken();
    SplitWhitespaceCons("rustc", ' ', "..");
    SplitWhitespaceToken("..");
    NotVersion("rustc");
    SplitWithoutSeparator("..", '-');
    ThreeDigitGroups("", "", "");
    assert ".." == "" + "." + "" + "." + "";
    FirstVersionCons("rustc", [".."]);
    FirstVersionCons("..", []);
  }

  /** The digit check is vacuous on empty parts, so two dots alone pass as a version. */
  lemma ExtractDotsOnly()
    ensures ExtractVersion("rustc ..") == Some("..")
  {
    assert "rustc .." == "rustc" + [' '] + "..";
    DotsParts();
  }

  // ---------------------------------------------------------------------------
  // The toolchain check
  // ---------------------------------------------------------------------------

  /** What a task asks for. */
  datatype Requirement = Nightly | Stable | Msrv

  /** Why the check failed. */
  datatype ToolchainError =
    | RustcFailed
    | NeedNightly(have: string)
    | NeedStable(have: string)
    | NotInCrate
    | MetadataFailed
    | NoMsrv(manifest: Path)
    | UnparsableVersion
    | MsrvMismatch(need: string, manifest: Path, have: string)

  /** One entry of `packages` in `cargo metadata`: its `manifest_path` and `rust_version` strings. */
  datatype MsrvPackage = MsrvPackage(manifestPath: Option<string>, rustVersion: Option<string>)

  /** The output of `cargo metadata`: not JSON, or JSON whose `packages` may be absent. */
  datatype MsrvMetadata = NotJson | Json(packages: Option<seq<MsrvPackage>>)

  /** The index of the first package whose manifest path is `manifest`. */
  function FindManifest(ps: seq<MsrvPackage>, manifest: Path): Option<nat> {
    if ps == [] then None
    else if ps[0].manifestPath == Some(manifest) then Some(0)
    else
      var k := FindManifest(ps[1..], manifest);
      if k.Some? then Some(k.value + 1) else None
  }

  lemma {:induction false} FindManifestSpec(ps: seq<MsrvPackage>, manifest: Path)
    ensures FindManifest(ps, manifest).None? <==> forall k :: 0 <= k < |ps| ==> ps[k].manifestPath != Some(manifest)
    ensures FindManifest(ps, manifest).Some? ==>
      var k := FindManifest(ps, manifest).value;
      k < |ps| && ps[k].manifestPath == Some(manifest)
      && forall j :: 0 <= j < k ==> ps[j].manifestPath != Some(manifest)
  {
    if ps != [] && ps[0].manifestPath != Some(manifest) {
      FindManifestSpec(ps[1..], manifest);
      assert forall k :: 1 <= k < |ps| ==> ps[k] == ps[1..][k - 1];
    }
  }

  /**
   * `get_msrv_from_manifest`: `metadata` is what `cargo metadata` printed
   * (`None` when it failed); the first package with the manifest path decides.
   */
  function MsrvOf(metadata: Option<MsrvMetadata>, manifest: Path): Result<string, ToolchainError> {
    if metadata.None? || metadata.value.NotJson? then Err(MetadataFailed)
    else if metadata.value.packages.None? then Err(NoMsrv(manifest))
    else
      var k := FindManifest(metadata.value.packages.value, manifest);
      if k.None? then Err(NoMsrv(manifest))
      else
        FindManifestSpec(metadata.value.packages.value, manifest);
        var v := metadata.value.packages.value[k.value].rustVersion;
        if v.None? then Err(NoMsrv(manifest)) else Ok(v.value)
  }

  /**
   * `check_toolchain`: `rustc` is the output of `rustc --version` (`None` when
   * it failed), `hasManifest` whether `cwd/Cargo.toml` exists and `metadata`
   * the output of `cargo metadata` run from the process's directory.
   */
  function CheckToolchain(required: Requirement, rustc: Option<string>, cwd: Path, hasManifest: bool,
                          metadata: Option<MsrvMetadata>): Result<(), ToolchainError>
  {
    if rustc.None? then Err(RustcFailed)
    else
      var current := rustc.value;
      match required
      case Nightly => if !Contains(current, "nightly") then Err(NeedNightly(current)) else Ok(())
      case Stable =>
        if Contains(current, "nightly") || Contains(current, "beta") then Err(NeedStable(current)) else Ok(())
      case Msrv =>
        var manifest := JoinPath(cwd, "Cargo.toml");
        if !hasManifest then Err(NotInCrate)
        else
          var msrv := MsrvOf(metadata, manifest);
          if msrv.Err? then Err(msrv.error)
          else
            var have := ExtractVersion(current);
            if have.None? then Err(UnparsableVersion)
            else if have.value != msrv.value then Err(MsrvMismatch(msrv.value, manifest, have.value))
            else Ok(())
  }

  /** Nightly passes exactly when the version text mentions `nightly`. */
  lemma NightlySpec(rustc: Option<string>, cwd: Path, hasManifest: bool, metadata: Option<MsrvMetadata>)
    ensures CheckToolchain(Nightly, rustc, cwd, hasManifest, metadata).Ok?
      <==> rustc.Some? && IsSubstring("nightly", rustc.value)
  {
    if rustc.Some? { ContainsIsSubstring(rustc.value, "nightly"); }
  }

  /** Stable passes exactly when the version text mentions neither `nightly` nor `beta`. */
  lemma StableSpec(rustc: Option<string>, cwd: Path, hasManifest: bool, metadata: Option<MsrvMetadata>)
    ensures CheckToolchain(Stable, rustc, cwd, hasManifest, metadata).Ok?
      <==> rustc.Some? && !IsSubstring("nightly", rustc.value) && !IsSubstring("beta", rustc.value)
  {
    if rustc.Some? {
      ContainsIsSubstring(rustc.value, "nightly");
      ContainsIsSubstring(rustc.value, "beta");
    }
  }

  /** No compiler passes both the nightly and the stable check. */
  lemma NightlyStableExclusive(rustc: Option<string>, cwd: Path, hasManifest: bool, metadata: Option<MsrvMetadata>)
    ensures !(CheckToolchain(Nightly, rustc, cwd, hasManifest, metadata).Ok?
              && CheckToolchain(Stable, rustc, cwd, hasManifest, metadata).Ok?)
  {
    NightlySpec(rustc, cwd, hasManifest, metadata);
    StableSpec(rustc, cwd, hasManifest, metadata);
  }

  /** Package `k` is the first of `ps` whose manifest path is `manifest`. */
  predicate FirstWithManifest(ps: seq<MsrvPackage>, k: int, manifest: Path) {
    0 <= k < |ps| && ps[k].manifestPath == Some(manifest)
    && forall j :: 0 <= j < k ==> ps[j].manifestPath != Some(manifest)
  }

  /** The MSRV read from the metadata is the `rust_version` of the first package with the manifest. */
  lemma {:induction false} MsrvOfSpec(metadata: Option<MsrvMetadata>, manifest: Path)
    ensures MsrvOf(metadata, manifest).Ok? <==>
      (metadata.Some? && metadata.value.Json? && metadata.value.packages.Some?
       && exists k :: FirstWithManifest(metadata.value.packages.value, k, manifest)
            && metadata.value.packages.value[k].rustVersion.Some?)
    ensures MsrvOf(metadata, manifest).Ok? ==>
      forall k :: FirstWithManifest(metadata.value.packages.value, k, manifest) ==>
        metadata.value.packages.value[k].rustVersion == Some(MsrvOf(metadata, manifest).value)
  {
    if metadata.Some? && metadata.value.Json? && metadata.value.packages.Some? {
      var ps := metadata.value.packages.value;
      FindManifestSpec(ps, manifest);
      var f := FindManifest(ps, manifest);
      if f.Some? {
        assert FirstWithManifest(ps, f.value, manifest);
      }
    }
  }

  /**
   * MSRV passes exactly when there is a manifest, the first package with its
   * path declares a `rust_version`, and the version extracted from `rustc`
   * equals it; the declared version then occurs in the `rustc` output.
   */
  lemma MsrvSpec(rustc: Option<string>, cwd: Path, hasManifest: bool, metadata: Option<MsrvMetadata>)
    ensures var manifest := JoinPath(cwd, "Cargo.toml");
      CheckToolchain(Msrv, rustc, cwd, hasManifest, metadata).Ok? <==>
        (rustc.Some? && hasManifest && metadata.Some? && metadata.value.Json? && metadata.value.packages.Some?
         && var ps := metadata.value.packages.value;
            exists k :: 0 <= k < |ps| && ps[k].manifestPath == Some(manifest)
              && (forall j :: 0 <= j < k ==> ps[j].manifestPath != Some(manifest))
              && ps[k].rustVersion.Some? && ExtractVersion(rustc.value) == Some(ps[k].rustVersion.value))
    ensures CheckToolchain(Msrv, rustc, cwd, hasManifest, metadata).Ok? ==>
      IsSubstring(MsrvOf(metadata, JoinPath(cwd, "Cargo.toml")).value, rustc.value)
  {
    MsrvOfSpec(metadata, JoinPath(cwd, "Cargo.toml"));
    if rustc.Some? { ExtractVersionShape(rustc.value); }
  }
}
