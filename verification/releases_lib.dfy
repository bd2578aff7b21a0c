/**
 * The data model of the `releases` tool: the releases file of the
 * organisation, converted from its JSON records, and the lookup of the
 * latest release of a crate in it.
 */
module Releases {
  import opened ShellModel
  import opened Strings

  // ---------------------------------------------------------------------------
  // Versions
  // ---------------------------------------------------------------------------

  /** A semantic version, reduced to its three numbers. */
  datatype Version = Version(major: nat, minor: nat, patch: nat)

  const Zero := Version(0, 0, 0)

  /** The lexicographic order on (major, minor, patch). */
  predicate Less(a: Version, b: Version) {
    a.major < b.major
    || (a.major == b.major && a.minor < b.minor)
    || (a.major == b.major && a.minor == b.minor && a.patch < b.patch)
  }

  /** `Less` is a strict total order. */
  lemma LessTotal(a: Version, b: Version, c: Version)
    ensures !Less(a, a)
    ensures Less(a, b) && Less(b, c) ==> Less(a, c)
    ensures Less(a, b) || a == b || Less(b, a)
    ensures !(Less(a, b) && Less(b, a))
  {
  }

  /** The decimal digits of `n`, without leading zeros. */
  function Decimal(n: nat): (s: string)
    ensures s != [] && AllDecimal(s)
  {
    if n < 10 then [DigitChar(n)] else Decimal(n / 10) + [DigitChar(n % 10)]
  }

  function DigitChar(d: nat): char
    requires d < 10
  {
    ['0','1','2','3','4','5','6','7','8','9'][d]
  }

  predicate AllDecimal(s: string) {
    forall i :: 0 <= i < |s| ==> '0' <= s[i] <= '9'
  }

  /** The value of a string of decimal digits. */
  function DecimalValue(s: string): nat
    requires AllDecimal(s)
  {
    if s == [] then 0 else DecimalValue(s[..|s| - 1]) * 10 + (s[|s| - 1] as int - '0' as int)
  }

  /** Reading back the decimal digits gives the number. */
  lemma {:induction false} DecimalRoundTrip(n: nat)
    ensures DecimalValue(Decimal(n)) == n
  {
    if n >= 10 {
      DecimalRoundTrip(n / 10);
      var s := Decimal(n);
      assert s[..|s| - 1] == Decimal(n / 10);
    }
  }

  /** `Display for Version`: `major.minor.patch`. */
  function VersionText(v: Version): string {
    Decimal(v.major) + "." + Decimal(v.minor) + "." + Decimal(v.patch)
  }

  /** A reference reader for `major.minor.patch` with non-empty decimal parts. */
  function ReadVersion(s: string): Option<Version> {
    var parts := Split(s, '.');
    if |parts| == 3 && forall k :: 0 <= k < 3 ==> parts[k] != [] && AllDecimal(parts[k]) then
      Some(Version(DecimalValue(parts[0]), DecimalValue(parts[1]), DecimalValue(parts[2])))
    else None
  }

  lemma DecimalHasNoDot(n: nat)
    ensures '.' !in Decimal(n) && ' ' !in Decimal(n)
  {
  }

  /** Three parts without the separator, joined by it, split back into those parts. */
  lemma SplitThree(a: string, b: string, c: string, sep: char)
    requires sep !in a && sep !in b && sep !in c
    ensures Split(a + [sep] + b + [sep] + c, sep) == [a, b, c]
  {
    assert a + [sep] + b + [sep] + c == a + [sep] + (b + [sep] + c);
    SplitAtFirst(a, b + [sep] + c, sep);
    SplitAtFirst(b, c, sep);
    SplitWithoutSeparator(c, sep);
  }

  /** Three non-empty decimal parts without dots, joined by dots, read back as their values. */
  lemma {:induction false} ReadParts(a: string, b: string, c: string)
    requires a != [] && b != [] && c != []
    requires AllDecimal(a) && AllDecimal(b) && AllDecimal(c)
    requires '.' !in a && '.' !in b && '.' !in c
    ensures ReadVersion(a + "." + b + "." + c) == Some(Version(DecimalValue(a), DecimalValue(b), DecimalValue(c)))
  {
    SplitThree(a, b, c, '.');
    assert a + "." + b + "." + c == a + ['.'] + b + ['.'] + c;
    var parts := Split(a + "." + b + "." + c, '.');
    assert parts[0] == a && parts[1] == b && parts[2] == c;
  }

  /** The version text reads back as the version. */
  lemma VersionTextRoundTrip(v: Version)
    ensures ReadVersion(VersionText(v)) == Some(v)
  {
    DecimalHasNoDot(v.major);
    DecimalHasNoDot(v.minor);
    DecimalHasNoDot(v.patch);
    ReadParts(Decimal(v.major), Decimal(v.minor), Decimal(v.patch));
    DecimalRoundTrip(v.major);
    DecimalRoundTrip(v.minor);
    DecimalRoundTrip(v.patch);
  }

  // ---------------------------------------------------------------------------
  // Records
  // ---------------------------------------------------------------------------

  /** A version of a crate. */
  datatype CrateVersion = CrateVersion(package: string, version: Version)

  /** A release of one of the organisation's crates, with its dependencies. */
  datatype CrateNode = CrateNode(package: string, version: Version, dependencies: seq<CrateVersion>)

  /** The releases file: the latest release of each crate and the releases to check. */
  datatype Config = Config(latests: seq<CrateVersion>, releases: seq<CrateNode>)

  /** The JSON records, with versions still as text. */
  datatype JsonCrateVersion = JsonCrateVersion(package: string, version: string)
  datatype JsonCrateNode = JsonCrateNode(package: string, version: string, dependencies: seq<JsonCrateVersion>)
  datatype JsonConfig = JsonConfig(org: string, latests: seq<JsonCrateVersion>, releases: seq<JsonCrateNode>)

  /** A version text the version parser rejected. */
  datatype VersionError = InvalidVersion(text: string)

  /** `Display for CrateNode`: the package, a space, the version. */
  function NodeText(node: CrateNode): string {
    node.package + " " + VersionText(node.version)
  }

  /** A package name without spaces splits back off the text, and the rest reads back as the version. */
  lemma NodeTextSpec(node: CrateNode)
    requires ' ' !in node.package
    ensures Split(NodeText(node), ' ') == [node.package, VersionText(node.version)]
    ensures ReadVersion(Split(NodeText(node), ' ')[1]) == Some(node.version)
  {
    var v := node.version;
    DecimalHasNoDot(v.major);
    DecimalHasNoDot(v.minor);
    DecimalHasNoDot(v.patch);
    assert ' ' !in VersionText(v);
    assert NodeText(node) == node.package + [' '] + VersionText(v);
    SplitAtFirst(node.package, VersionText(v), ' ');
    SplitWithoutSeparator(VersionText(v), ' ');
    VersionTextRoundTrip(v);
  }

  // ---------------------------------------------------------------------------
  // Conversions (`TryFrom` for the JSON records)
  // ---------------------------------------------------------------------------

  /** Convert every element in order; the first failure is the result (`collect` into a `Result`). */
  function Collect<T, U>(xs: seq<T>, f: T -> Result<U, VersionError>): Result<seq<U>, VersionError> {
    if xs == [] then Ok([])
    else
      var head := f(xs[0]);
      if head.Err? then Err(head.error)
      else
        var tail := Collect(xs[1..], f);
        if tail.Err? then tail else Ok([head.value] + tail.value)
  }

  /**
   * Collecting succeeds exactly when every element converts, and then keeps
   * the order; a failure is the error of the first element that fails.
   */
  lemma {:induction false} CollectSpec<T, U>(xs: seq<T>, f: T -> Result<U, VersionError>)
    ensures Collect(xs, f).Ok? <==> forall k :: 0 <= k < |xs| ==> f(xs[k]).Ok?
    ensures Collect(xs, f).Ok? ==>
      |Collect(xs, f).value| == |xs| && forall k :: 0 <= k < |xs| ==> f(xs[k]) == Ok(Collect(xs, f).value[k])
    ensures Collect(xs, f).Err? ==>
      exists k :: 0 <= k < |xs| && f(xs[k]) == Err(Collect(xs, f).error) && forall j :: 0 <= j < k ==> f(xs[j]).Ok?
  {
    if xs != [] && f(xs[0]).Ok? {
      CollectSpec(xs[1..], f);
      assert forall k :: 1 <= k < |xs| ==> xs[k] == xs[1..][k - 1];
      var r := Collect(xs, f);
      if r.Ok? {
        var tail := Collect(xs[1..], f).value;
        assert r.value == [f(xs[0]).value] + tail;
        forall k | 0 <= k < |xs| ensures f(xs[k]) == Ok(r.value[k]) {
          if k > 0 { assert r.value[k] == tail[k - 1]; }
        }
      } else {
        var k :| 0 <= k < |xs[1..]| && f(xs[1..][k]) == Err(r.error) && forall j :: 0 <= j < k ==> f(xs[1..][j]).Ok?;
        assert f(xs[k + 1]) == Err(r.error);
        assert forall j :: 1 <= j < k + 1 ==> xs[j] == xs[1..][j - 1];
      }
    }
  }

  /** `CrateVersion::try_from`. */
  function ConvertVersion(j: JsonCrateVersion, parse: string -> Option<Version>): Result<CrateVersion, VersionError> {
    var v := parse(j.version);
    if v.None? then Err(InvalidVersion(j.version)) else Ok(CrateVersion(j.package, v.value))
  }

  /** `CrateNode::try_from`: the dependencies first, in order, then the node's own version. */
  function ConvertNode(j: JsonCrateNode, parse: string -> Option<Version>): Result<CrateNode, VersionError> {
    var deps := Collect(j.dependencies, d => ConvertVersion(d, parse));
    if deps.Err? then Err(deps.error)
    else
      var v := parse(j.version);
      if v.None? then Err(InvalidVersion(j.version)) else Ok(CrateNode(j.package, v.value, deps.value))
  }

  /** `Config::try_from`: the latests are converted and checked before the releases. */
  function ConvertConfig(j: JsonConfig, parse: string -> Option<Version>): Result<Config, VersionError> {
    var latests := Collect(j.latests, l => ConvertVersion(l, parse));
    var releases := Collect(j.releases, r => ConvertNode(r, parse));
    if latests.Err? then Err(latests.error)
    else if releases.Err? then Err(releases.error)
    else Ok(Config(latests.value, releases.value))
  }

  /** A version text is accepted by the parser. */
  predicate Parses(text: string, parse: string -> Option<Version>) {
    parse(text).Some?
  }

  /** A node converts when every dependency version and its own version parse; it keeps names and order. */
  lemma ConvertNodeSpec(j: JsonCrateNode, parse: string -> Option<Version>)
    ensures ConvertNode(j, parse).Ok? <==>
      (forall k :: 0 <= k < |j.dependencies| ==> Parses(j.dependencies[k].version, parse)) && Parses(j.version, parse)
    ensures ConvertNode(j, parse).Ok? ==>
      var n := ConvertNode(j, parse).value;
      n.package == j.package && Some(n.version) == parse(j.version)
      && |n.dependencies| == |j.dependencies|
      && forall k :: 0 <= k < |j.dependencies| ==>
           n.dependencies[k].package == j.dependencies[k].package
           && Some(n.dependencies[k].version) == parse(j.dependencies[k].version)
    ensures (exists k :: 0 <= k < |j.dependencies| && !Parses(j.dependencies[k].version, parse)) ==>
      exists k :: 0 <= k < |j.dependencies| && ConvertNode(j, parse) == Err(InvalidVersion(j.dependencies[k].version))
        && !Parses(j.dependencies[k].version, parse)
        && forall i :: 0 <= i < k ==> Parses(j.dependencies[i].version, parse)
  {
    CollectSpec(j.dependencies, d => ConvertVersion(d, parse));
  }

  /** The configuration converts exactly when every version text in it parses; order is kept. */
  lemma ConvertConfigSpec(j: JsonConfig, parse: string -> Option<Version>)
    ensures ConvertConfig(j, parse).Ok? <==>
      (forall k :: 0 <= k < |j.latests| ==> Parses(j.latests[k].version, parse))
      && (forall k :: 0 <= k < |j.releases| ==> ConvertNode(j.releases[k], parse).Ok?)
    ensures ConvertConfig(j, parse).Ok? ==>
      var c := ConvertConfig(j, parse).value;
      |c.latests| == |j.latests| && |c.releases| == |j.releases|
      && (forall k :: 0 <= k < |j.latests| ==> Ok(c.latests[k]) == ConvertVersion(j.latests[k], parse))
      && (forall k :: 0 <= k < |j.releases| ==> Ok(c.releases[k]) == ConvertNode(j.releases[k], parse))
    ensures (exists k :: 0 <= k < |j.latests| && !Parses(j.latests[k].version, parse)) ==>
      exists k :: 0 <= k < |j.latests| && ConvertConfig(j, parse) == Err(InvalidVersion(j.latests[k].version))
        && !Parses(j.latests[k].version, parse)
        && forall i :: 0 <= i < k ==> Parses(j.latests[i].version, parse)
  {
    CollectSpec(j.latests, l => ConvertVersion(l, parse));
    CollectSpec(j.releases, r => ConvertNode(r, parse));
  }

  /** The loop of `CrateNode::try_from`. */
  method ConvertCrateNode(j: JsonCrateNode, parse: string -> Option<Version>) returns (r: Result<CrateNode, VersionError>)
    ensures r == ConvertNode(j, parse)
  {
    var dependencies: seq<CrateVersion> := [];
    for i := 0 to |j.dependencies|
      invariant Collect(j.dependencies[..i], d => ConvertVersion(d, parse)) == Ok(dependencies)
    {
      CollectSnoc(j.dependencies, i, d => ConvertVersion(d, parse));
      var converted := ConvertVersion(j.dependencies[i], parse);
      if converted.Err? {
        CollectStops(j.dependencies, i + 1, d => ConvertVersion(d, parse));
        return Err(converted.error);
      }
      dependencies := dependencies + [converted.value];
    }
    assert j.dependencies[..|j.dependencies|] == j.dependencies;
    var v := parse(j.version);
    if v.None? {
      return Err(InvalidVersion(j.version));
    }
    r := Ok(CrateNode(j.package, v.value, dependencies));
  }

  /** Converting one more element extends the result or ends in that element's error. */
  lemma {:induction false} CollectSnoc<T, U>(xs: seq<T>, i: nat, f: T -> Result<U, VersionError>)
    requires i < |xs|
    ensures Collect(xs[..i + 1], f) ==
      if Collect(xs[..i], f).Err? then Collect(xs[..i], f)
      else if f(xs[i]).Err? then Err(f(xs[i]).error)
      else Ok(Collect(xs[..i], f).value + [f(xs[i]).value])
    decreases i
  {
    if i > 0 {
      assert xs[..i + 1][1..] == xs[1..][..i];
      assert xs[..i][1..] == xs[1..][..i - 1];
      CollectSnoc(xs[1..], i - 1, f);
      assert xs[1..][i - 1] == xs[i];
      if f(xs[0]).Ok? && Collect(xs[..i], f).Ok? && f(xs[i]).Ok? {
        assert [f(xs[0]).value] + (Collect(xs[1..][..i - 1], f).value + [f(xs[i]).value])
            == [f(xs[0]).value] + Collect(xs[1..][..i - 1], f).value + [f(xs[i]).value];
      }
    } else {
      assert xs[..1][1..] == [] && xs[..0] == [];
      if f(xs[0]).Ok? {
        assert [f(xs[0]).value] + [] == [] + [f(xs[0]).value];
      }
    }
  }

  /** Once a prefix fails, the whole sequence fails the same way. */
  lemma {:induction false} CollectStops<T, U>(xs: seq<T>, m: nat, f: T -> Result<U, VersionError>)
    requires m <= |xs| && Collect(xs[..m], f).Err?
    ensures Collect(xs, f) == Collect(xs[..m], f)
    decreases m
  {
    assert m > 0;
    if f(xs[0]).Ok? {
      assert xs[..m][1..] == xs[1..][..m - 1];
      CollectStops(xs[1..], m - 1, f);
    }
  }

  // ---------------------------------------------------------------------------
  // `Config::latest`
  // ---------------------------------------------------------------------------

  /** Why `latest` failed. */
  datatype LatestError = NotListed(package: string) | NoRelease(package: string) | Mismatch(package: string)

  /** The version of the last entry for `package`. */
  function Wanted(latests: seq<CrateVersion>, package: string): Option<Version> {
    if latests == [] then None
    else if latests[|latests| - 1].package == package then Some(latests[|latests| - 1].version)
    else Wanted(latests[..|latests| - 1], package)
  }

  /**
   * The scan over the releases: the greatest version found so far (starting
   * from 0.0.0) and the index of the release that first reached it.
   */
  function Scan(rs: seq<CrateNode>, package: string): (Version, Option<nat>) {
    if rs == [] then (Zero, None)
    else
      var prev := Scan(rs[..|rs| - 1], package);
      var r := rs[|rs| - 1];
      if r.package == package && Less(prev.0, r.version) then (r.version, Some(|rs| - 1)) else prev
  }

  /** `Config::latest`. */
  function Latest(config: Config, package: string): Result<Version, LatestError> {
    var want := Wanted(config.latests, package);
    if want.None? then Err(NotListed(package))
    else
      var found := Scan(config.releases, package);
      ScanSpec(config.releases, package);
      if found.1.None? then Err(NoRelease(package))
      else if config.releases[found.1.value].version != want.value then Err(Mismatch(package))
      else Ok(config.releases[found.1.value].version)
  }

  /** The wanted version is that of the last entry for the package. */
  lemma {:induction false} WantedSpec(latests: seq<CrateVersion>, package: string)
    ensures Wanted(latests, package).None? <==> forall k :: 0 <= k < |latests| ==> latests[k].package != package
    ensures Wanted(latests, package).Some? ==>
      exists k :: 0 <= k < |latests| && latests[k] == CrateVersion(package, Wanted(latests, package).value)
        && forall j :: k < j < |latests| ==> latests[j].package != package
  {
    if latests != [] {
      var n := |latests| - 1;
      var pre := latests[..n];
      if latests[n].package == package {
        assert latests[n] == CrateVersion(package, Wanted(latests, package).value);
      } else {
        WantedSpec(pre, package);
        assert Wanted(latests, package) == Wanted(pre, package);
        assert forall k :: 0 <= k < n ==> pre[k] == latests[k];
        if Wanted(pre, package).Some? {
          var k :| 0 <= k < n && pre[k] == CrateVersion(package, Wanted(pre, package).value)
            && forall j :: k < j < n ==> pre[j].package != package;
          assert latests[k] == CrateVersion(package, Wanted(latests, package).value);
        }
      }
    }
  }

  /** The package has a release above 0.0.0. */
  predicate HasRelease(rs: seq<CrateNode>, package: string) {
    exists k :: 0 <= k < |rs| && rs[k].package == package && Less(Zero, rs[k].version)
  }

  /**
   * The scan picks the first release of the package with the greatest
   * version, provided that version is above 0.0.0; otherwise none.
   */
  lemma {:induction false} ScanSpec(rs: seq<CrateNode>, package: string)
    ensures Scan(rs, package).1.None? <==> !HasRelease(rs, package)
    ensures Scan(rs, package).1.None? ==> Scan(rs, package).0 == Zero
    ensures Scan(rs, package).1.Some? ==>
      var k := Scan(rs, package).1.value;
      k < |rs| && rs[k].package == package && Less(Zero, rs[k].version)
      && Scan(rs, package).0 == rs[k].version
      && (forall j :: 0 <= j < |rs| && rs[j].package == package ==> !Less(rs[k].version, rs[j].version))
      && (forall j :: 0 <= j < k && rs[j].package == package ==> Less(rs[j].version, rs[k].version))
  {
    if rs != [] {
      var n := |rs| - 1;
      ScanSpec(rs[..n], package);
      assert forall k :: 0 <= k < n ==> rs[..n][k] == rs[k];
      var prev := Scan(rs[..n], package);
      if prev.1.Some? {
        var k := prev.1.value;
        LessTotal(rs[k].version, rs[n].version, rs[n].version);
        forall j | 0 <= j < |rs| && rs[j].package == package
          ensures !Less(Scan(rs, package).0, rs[j].version)
        {
          LessTotal(rs[j].version, rs[k].version, rs[n].version);
        }
        if Scan(rs, package).1 == Some(n) {
          forall j | 0 <= j < n && rs[j].package == package
            ensures Less(rs[j].version, rs[n].version)
          {
            LessTotal(rs[j].version, rs[k].version, rs[n].version);
          }
        }
        assert HasRelease(rs[..n], package);
        assert HasRelease(rs, package) by {
          assert rs[k].package == package && Less(Zero, rs[k].version);
        }
      } else {
        if HasRelease(rs, package) {
          var k :| 0 <= k < |rs| && rs[k].package == package && Less(Zero, rs[k].version);
          assert k == n;
        }
      }
    }
  }

  /** `v` is above 0.0.0, is a release of the package, and no release of it is greater. */
  predicate IsGreatestRelease(rs: seq<CrateNode>, package: string, v: Version) {
    Less(Zero, v)
    && (exists k :: 0 <= k < |rs| && rs[k].package == package && rs[k].version == v)
    && (forall k :: 0 <= k < |rs| && rs[k].package == package ==> !Less(v, rs[k].version))
  }

  /**
   * `latest` succeeds exactly when the package is listed, has a release above
   * 0.0.0, and the greatest such version is the last one listed; the result
   * is then that version, and no release of the package is greater. A listed
   * package with a release whose greatest version is not the listed one is a
   * mismatch.
   */
  lemma LatestSpec(config: Config, package: string)
    ensures Latest(config, package) == Err(NotListed(package)) <==> Wanted(config.latests, package).None?
    ensures Latest(config, package) == Err(NoRelease(package)) <==>
      Wanted(config.latests, package).Some? && !HasRelease(config.releases, package)
    ensures Latest(config, package).Ok? ==>
      var v := Latest(config, package).value;
      Wanted(config.latests, package) == Some(v) && Less(Zero, v)
      && (exists k :: 0 <= k < |config.releases| && config.releases[k].package == package && config.releases[k].version == v)
      && (forall k :: 0 <= k < |config.releases| && config.releases[k].package == package ==>
            !Less(v, config.releases[k].version))
    ensures Latest(config, package).Err? ==> Latest(config, package).error.package == package
    ensures var want := Wanted(config.latests, package);
      want.Some? && IsGreatestRelease(config.releases, package, want.value) ==>
      Latest(config, package) == Ok(want.value)
    ensures var want := Wanted(config.latests, package);
      Latest(config, package) == Err(Mismatch(package)) <==>
      want.Some? && HasRelease(config.releases, package)
      && !IsGreatestRelease(config.releases, package, want.value)
  {
    ScanSpec(config.releases, package);
    var want := Wanted(config.latests, package);
    var found := Scan(config.releases, package);
    if want.Some? && found.1.Some? {
      var v := config.releases[found.1.value].version;
      if IsGreatestRelease(config.releases, package, want.value) {
        var k :| 0 <= k < |config.releases| && config.releases[k].package == package
          && config.releases[k].version == want.value;
        LessTotal(v, want.value, want.value);
      } else {
        assert v != want.value by {
          if v == want.value {
            assert IsGreatestRelease(config.releases, package, want.value);
          }
        }
      }
    }
  }

  /** `Config::latest` with its two loops. */
  method LatestRelease(config: Config, package: string) returns (r: Result<Version, LatestError>)
    ensures r == Latest(config, package)
  {
    var want: Option<Version> := None;
    for i := 0 to |config.latests|
      invariant want == Wanted(config.latests[..i], package)
    {
      assert config.latests[..i + 1][..i] == config.latests[..i];
      if config.latests[i].package == package {
        want := Some(config.latests[i].version);
      }
    }
    assert config.latests[..|config.latests|] == config.latests;
    if want.None? {
      return Err(NotListed(package));
    }
    var found := Zero;
    var release: Option<nat> := None;
    for i := 0 to |config.releases|
      invariant (found, release) == Scan(config.releases[..i], package)
      invariant release.None? || release.value < i
    {
      assert config.releases[..i + 1][..i] == config.releases[..i];
      var rel := config.releases[i];
      if rel.package == package && Less(found, rel.version) {
        found := rel.version;
        release := Some(i);
      }
    }
    assert config.releases[..|config.releases|] == config.releases;
    if release.None? {
      return Err(NoRelease(package));
    }
    if config.releases[release.value].version != want.value {
      return Err(Mismatch(package));
    }
    r := Ok(config.releases[release.value].version);
  }
}
