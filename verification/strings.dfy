/**
 * String operations of the Rust standard library that the maintainer tools
 * rely on (`trim`, `contains`, `split`, `join`, `lines`, `split_whitespace`,
 * `trim_end_matches`, `replace`, `Ord` on `String` and `sort`), written out
 * over `seq<char>` with the facts the rest of the model needs about them.
 */
module Strings {

  // ---------------------------------------------------------------------------
  // Characters
  // ---------------------------------------------------------------------------

  /** Unicode White_Space: the characters `char::is_whitespace` accepts. */
  predicate IsWhitespace(c: char) {
    || c == ' '
    || ('\t' <= c <= '\r')
    || c == '\U{85}' || c == '\U{A0}' || c == '\U{1680}'
    || ('\U{2000}' <= c <= '\U{200A}')
    || c == '\U{2028}' || c == '\U{2029}' || c == '\U{202F}' || c == '\U{205F}'
    || c == '\U{3000}'
  }

  /** `char::is_ascii_digit`. */
  predicate IsAsciiDigit(c: char) {
    '0' <= c <= '9'
  }

  /**
   * `char::is_alphanumeric`, restricted to the ASCII range: letters and
   * digits. Non-ASCII letters, which Rust also accepts, are not recognised.
   */
  predicate IsAlphanumeric(c: char) {
    ('a' <= c <= 'z') || ('A' <= c <= 'Z') || IsAsciiDigit(c)
  }

  // ---------------------------------------------------------------------------
  // Prefixes, suffixes, substrings
  // ---------------------------------------------------------------------------

  predicate StartsWith(s: string, prefix: string) {
    |prefix| <= |s| && s[..|prefix|] == prefix
  }

  predicate EndsWith(s: string, suffix: string) {
    |suffix| <= |s| && s[|s| - |suffix|..] == suffix
  }

  /** `str::contains` with a string pattern: some position of `s` starts with `pat`. */
  predicate Contains(s: string, pat: string)
    decreases |s|
  {
    StartsWith(s, pat) || (s != [] && Contains(s[1..], pat))
  }

  /** `t` occurs in `s` as a contiguous slice. */
  ghost predicate IsSubstring(t: string, s: string) {
    exists i, j :: 0 <= i <= j <= |s| && s[i..j] == t
  }

  /** A prefix of a substring is a substring. */
  lemma PrefixOfSubstring(v: string, t: string, s: string)
    requires StartsWith(t, v) && IsSubstring(t, s)
    ensures IsSubstring(v, s)
  {
    var i, j :| 0 <= i <= j <= |s| && s[i..j] == t;
    assert s[i..i + |v|] == v;
  }

  lemma {:induction false} ContainsIsSubstring(s: string, pat: string)
    ensures Contains(s, pat) <==> IsSubstring(pat, s)
    decreases |s|
  {
    if Contains(s, pat) {
      if StartsWith(s, pat) {
        assert s[0..|pat|] == pat;
      } else {
        ContainsIsSubstring(s[1..], pat);
        var i, j :| 0 <= i <= j <= |s[1..]| && s[1..][i..j] == pat;
        assert s[i + 1..j + 1] == pat;
      }
    }
    if IsSubstring(pat, s) {
      var i, j :| 0 <= i <= j <= |s| && s[i..j] == pat;
      if i == 0 {
        assert StartsWith(s, pat);
      } else {
        assert s[1..][i - 1..j - 1] == pat;
        ContainsIsSubstring(s[1..], pat);
      }
    }
  }

  // ---------------------------------------------------------------------------
  // Trimming
  // ---------------------------------------------------------------------------

  function TrimStart(s: string): (r: string)
    ensures |r| <= |s|
    ensures r == [] || !IsWhitespace(r[0])
  {
    if s != [] && IsWhitespace(s[0]) then TrimStart(s[1..]) else s
  }

  /**
   * `TrimStart` keeps a suffix. Stated as a lemma rather than a postcondition:
   * as a postcondition the equation `r == s[k..]` would be in scope wherever
   * `TrimStart` appears.
   */
  lemma {:induction false} TrimStartIsSuffix(s: string)
    ensures TrimStart(s) == s[|s| - |TrimStart(s)|..]
  {
    if s != [] && IsWhitespace(s[0]) {
      TrimStartIsSuffix(s[1..]);
      assert s[1..][|s| - 1 - |TrimStart(s)|..] == s[|s| - |TrimStart(s)|..];
    }
  }

  /** What `TrimStart` removes is whitespace. */
  lemma {:induction false} TrimStartDropsBlank(s: string)
    ensures IsBlank(s[..|s| - |TrimStart(s)|])
  {
    if s != [] && IsWhitespace(s[0]) {
      TrimStartDropsBlank(s[1..]);
      TrimStartIsSuffix(s[1..]);
      var k := |s| - |TrimStart(s)|;
      assert s[..k] == [s[0]] + s[1..][..k - 1];
    }
  }

  function TrimEnd(s: string): (r: string)
    ensures |r| <= |s|
    ensures r == [] || !IsWhitespace(r[|r| - 1])
  {
    if s != [] && IsWhitespace(s[|s| - 1]) then TrimEnd(s[..|s| - 1]) else s
  }

  /** `TrimEnd` keeps a prefix. */
  lemma {:induction false} TrimEndIsPrefix(s: string)
    ensures TrimEnd(s) == s[..|TrimEnd(s)|]
  {
    if s != [] && IsWhitespace(s[|s| - 1]) {
      TrimEndIsPrefix(s[..|s| - 1]);
      assert s[..|s| - 1][..|TrimEnd(s)|] == s[..|TrimEnd(s)|];
    }
  }

  /** What `TrimEnd` removes is whitespace. */
  lemma {:induction false} TrimEndDropsBlank(s: string)
    ensures IsBlank(s[|TrimEnd(s)|..])
  {
    if s != [] && IsWhitespace(s[|s| - 1]) {
      var t := s[..|s| - 1];
      TrimEndDropsBlank(t);
      TrimEndIsPrefix(t);
      assert s[|TrimEnd(s)|..] == t[|TrimEnd(t)|..] + [s[|s| - 1]];
    }
  }

  /** `str::trim`: leading and trailing whitespace removed. */
  function Trim(s: string): string {
    TrimEnd(TrimStart(s))
  }

  /** A string is blank when every character is whitespace. */
  predicate IsBlank(s: string) {
    forall i :: 0 <= i < |s| ==> IsWhitespace(s[i])
  }

  /** `s.trim().is_empty()` holds exactly for blank strings. */
  lemma TrimEmptyIffBlank(s: string)
    ensures Trim(s) == [] <==> IsBlank(s)
  {
    var t := TrimStart(s);
    var off := |s| - |t|;
    TrimStartDropsBlank(s);
    TrimEndDropsBlank(t);
    TrimStartIsSuffix(s);
    if t != [] {
      assert s[off] == t[0];
    }
    if Trim(s) == [] {
      assert t[0..] == t;
      assert t == [] && s[..off] == s;
    }
  }

  /** The trimmed string is the slice of the original after its leading whitespace. */
  lemma TrimSlice(s: string)
    ensures var k := |s| - |TrimStart(s)|; k + |Trim(s)| <= |s| && s[k..k + |Trim(s)|] == Trim(s)
  {
    var t := TrimStart(s);
    var r := TrimEnd(t);
    var k := |s| - |t|;
    TrimStartIsSuffix(s);
    TrimEndIsPrefix(t);
    assert t == s[k..];
    assert r == t[..|r|];
  }

  /** The trimmed string neither starts nor ends with whitespace. */
  lemma TrimEnds(s: string)
    ensures Trim(s) == [] || (!IsWhitespace(Trim(s)[0]) && !IsWhitespace(Trim(s)[|Trim(s)| - 1]))
  {
    var t := TrimStart(s);
    var r := TrimEnd(t);
    if r != [] {
      TrimEndIsPrefix(t);
      assert r[0] == t[0];
    }
  }

  /** The trimmed string is a slice of the original with no outer whitespace. */
  lemma TrimIsInnerSlice(s: string)
    ensures IsSubstring(Trim(s), s)
    ensures Trim(s) == [] || (!IsWhitespace(Trim(s)[0]) && !IsWhitespace(Trim(s)[|Trim(s)| - 1]))
  {
    TrimSlice(s);
    TrimEnds(s);
    var k := |s| - |TrimStart(s)|;
    assert s[k..k + |Trim(s)|] == Trim(s);
  }

  /** `str::trim_end_matches` with a string pattern. */
  function TrimEndMatches(s: string, pat: string): (r: string)
    decreases |s|
  {
    if pat != [] && EndsWith(s, pat) then TrimEndMatches(s[..|s| - |pat|], pat) else s
  }

  /** `pat` repeated `n` times. */
  function Repeat(pat: string, n: nat): string {
    if n == 0 then [] else pat + Repeat(pat, n - 1)
  }

  /**
   * `trim_end_matches` removes every trailing occurrence and nothing else: the
   * input is the result followed by some number of copies of the pattern, and
   * the result no longer ends with it.
   */
  lemma {:induction false} TrimEndMatchesSpec(s: string, pat: string)
    requires pat != []
    ensures !EndsWith(TrimEndMatches(s, pat), pat)
    ensures exists n: nat :: s == TrimEndMatches(s, pat) + Repeat(pat, n)
    decreases |s|
  {
    if EndsWith(s, pat) {
      var s' := s[..|s| - |pat|];
      TrimEndMatchesSpec(s', pat);
      var n: nat :| s' == TrimEndMatches(s', pat) + Repeat(pat, n);
      RepeatSnoc(pat, n);
      assert s == s' + pat;
      assert s == TrimEndMatches(s, pat) + Repeat(pat, n + 1);
    } else {
      assert s == s + Repeat(pat, 0);
    }
  }

  lemma {:induction false} RepeatSnoc(pat: string, n: nat)
    ensures Repeat(pat, n + 1) == Repeat(pat, n) + pat
  {
    if n > 0 {
      RepeatSnoc(pat, n - 1);
    }
  }

  // ---------------------------------------------------------------------------
  // Splitting and joining
  // ---------------------------------------------------------------------------

  /** Number of occurrences of `c` in `s`. */
  function Occurrences(s: string, c: char): nat {
    if s == [] then 0 else (if s[0] == c then 1 else 0) + Occurrences(s[1..], c)
  }

  /** `str::split` on a single character: always at least one part. */
  function Split(s: string, sep: char): (parts: seq<string>)
    ensures |parts| >= 1
  {
    if s == [] then [""]
    else
      var rest := Split(s[1..], sep);
      if s[0] == sep then [""] + rest else [[s[0]] + rest[0]] + rest[1..]
  }

  /** `slice::join` for strings. */
  function JoinWith(parts: seq<string>, sep: string): string {
    if |parts| == 0 then ""
    else if |parts| == 1 then parts[0]
    else parts[0] + sep + JoinWith(parts[1..], sep)
  }

  /**
   * Splitting on `sep` yields one part more than there are separators, no part
   * contains the separator, and joining the parts back with it gives the input.
   */
  lemma {:induction false} SplitJoin(s: string, sep: char)
    ensures |Split(s, sep)| == Occurrences(s, sep) + 1
    ensures forall k :: 0 <= k < |Split(s, sep)| ==> sep !in Split(s, sep)[k]
    ensures JoinWith(Split(s, sep), [sep]) == s
  {
    if s != [] {
      var rest := Split(s[1..], sep);
      SplitJoin(s[1..], sep);
      if s[0] == sep {
        assert s == [sep] + s[1..];
      } else {
        var parts := Split(s, sep);
        assert parts[0] == [s[0]] + rest[0];
        forall k | 0 <= k < |parts| ensures sep !in parts[k] {
          if k > 0 { assert parts[k] == rest[k]; }
        }
        if |rest| == 1 {
          assert s == [s[0]] + s[1..];
        } else {
          assert parts[1..] == rest[1..];
          assert JoinWith(parts, [sep]) == parts[0] + [sep] + JoinWith(rest[1..], [sep]);
          assert JoinWith(rest, [sep]) == rest[0] + [sep] + JoinWith(rest[1..], [sep]);
          assert s == [s[0]] + s[1..];
        }
      }
    }
  }

  /** A string without the separator splits into itself alone. */
  lemma {:induction false} SplitWithoutSeparator(s: string, sep: char)
    requires sep !in s
    ensures Split(s, sep) == [s]
  {
    if s != [] {
      SplitWithoutSeparator(s[1..], sep);
      assert [s[0]] + s[1..] == s;
    }
  }

  /** Splitting `a + [sep] + b` with no separator in `a` gives `a` then the parts of `b`. */
  lemma {:induction false} SplitAtFirst(a: string, b: string, sep: char)
    requires sep !in a
    ensures Split(a + [sep] + b, sep) == [a] + Split(b, sep)
  {
    if a == [] {
      assert a + [sep] + b == [sep] + b;
      assert ([sep] + b)[1..] == b;
    } else {
      assert (a + [sep] + b)[1..] == a[1..] + [sep] + b;
      SplitAtFirst(a[1..], b, sep);
      assert [a[0]] + a[1..] == a;
    }
  }

  /**
   * `str::lines`: split at `\n`; a line ended by `\n` also loses a trailing
   * `\r`; a final empty piece (the input is empty or ends with `\n`) is not a line.
   */
  function Lines(s: string): seq<string> {
    var parts := Split(s, '\n');
    var n := |parts|;
    seq(n - 1, k requires 0 <= k < n - 1 => StripCr(parts[k]))
      + (if parts[n - 1] == "" then [] else [parts[n - 1]])
  }

  function StripCr(line: string): string {
    if line != [] && line[|line| - 1] == '\r' then line[..|line| - 1] else line
  }

  /** `str::replace` with single characters. */
  function ReplaceChar(s: string, from: char, to: char): (r: string)
    ensures |r| == |s|
  {
    if s == [] then [] else [if s[0] == from then to else s[0]] + ReplaceChar(s[1..], from, to)
  }

  lemma {:induction false} ReplaceCharSpec(s: string, from: char, to: char)
    ensures forall i :: 0 <= i < |s| ==>
      ReplaceChar(s, from, to)[i] == if s[i] == from then to else s[i]
  {
    if s != [] {
      ReplaceCharSpec(s[1..], from, to);
      forall i | 0 <= i < |s|
        ensures ReplaceChar(s, from, to)[i] == if s[i] == from then to else s[i]
      {
        if i > 0 { assert ReplaceChar(s, from, to)[i] == ReplaceChar(s[1..], from, to)[i - 1]; }
      }
    }
  }

  // ---------------------------------------------------------------------------
  // Whitespace tokens
  // ---------------------------------------------------------------------------

  /** The end of the run of non-whitespace characters that starts at `i`. */
  function TokenEnd(s: string, i: nat): (e: nat)
    requires i <= |s|
    ensures i <= e <= |s|
    ensures forall k :: i <= k < e ==> !IsWhitespace(s[k])
    ensures e == |s| || IsWhitespace(s[e])
    decreases |s| - i
  {
    if i == |s| || IsWhitespace(s[i]) then i else TokenEnd(s, i + 1)
  }

  /** `t` is a non-empty run of non-whitespace characters. */
  predicate IsToken(t: string) {
    t != [] && forall i :: 0 <= i < |t| ==> !IsWhitespace(t[i])
  }

  /**
   * `str::split_whitespace`: the maximal runs of non-whitespace, in order. Each
   * token is a non-empty slice of the input without whitespace.
   */
  function SplitWhitespace(s: string): (tokens: seq<string>)
    ensures forall k :: 0 <= k < |tokens| ==> IsToken(tokens[k]) && IsSubstring(tokens[k], s)
    decreases |s|
  {
    if s == [] then []
    else if IsWhitespace(s[0]) then
      var rest := SplitWhitespace(s[1..]);
      assert forall k :: 0 <= k < |rest| ==> IsSubstring(rest[k], s) by {
        forall k | 0 <= k < |rest| ensures IsSubstring(rest[k], s) {
          var i, j :| 0 <= i <= j <= |s[1..]| && s[1..][i..j] == rest[k];
          assert s[i + 1..j + 1] == rest[k];
        }
      }
      rest
    else
      var e := TokenEnd(s, 0);
      var rest := SplitWhitespace(s[e..]);
      assert IsToken(s[..e]) && s[0..e] == s[..e];
      var tokens := [s[..e]] + rest;
      assert forall k :: 1 <= k < |tokens| ==> IsSubstring(tokens[k], s) by {
        forall k | 1 <= k < |tokens| ensures IsSubstring(tokens[k], s) {
          var i, j :| 0 <= i <= j <= |s[e..]| && s[e..][i..j] == rest[k - 1];
          assert s[i + e..j + e] == tokens[k];
        }
      }
      tokens
  }

  /** The end of a token followed by whitespace is the end of that token. */
  lemma {:induction false} TokenEndAt(t: string, rest: string, i: nat)
    requires IsToken(t) && i <= |t|
    requires rest == [] || IsWhitespace(rest[0])
    ensures TokenEnd(t + rest, i) == |t|
    decreases |t| - i
  {
    if i < |t| {
      assert (t + rest)[i] == t[i];
      TokenEndAt(t, rest, i + 1);
    } else if rest != [] {
      assert (t + rest)[i] == rest[0];
    }
  }

  /** A token followed by a whitespace character splits off as the first token. */
  lemma SplitWhitespaceCons(t: string, c: char, rest: string)
    requires IsToken(t) && IsWhitespace(c)
    ensures SplitWhitespace(t + [c] + rest) == [t] + SplitWhitespace(rest)
  {
    var s := t + [c] + rest;
    assert s == t + ([c] + rest);
    TokenEndAt(t, [c] + rest, 0);
    assert s[0] == t[0];
    assert s[..|t|] == t;
    assert s[|t|..] == [c] + rest;
    assert ([c] + rest)[1..] == rest;
  }

  /** A token on its own splits into itself. */
  lemma SplitWhitespaceToken(t: string)
    requires IsToken(t)
    ensures SplitWhitespace(t) == [t]
  {
    TokenEndAt(t, [], 0);
    assert t + [] == t;
    assert t[..|t|] == t;
  }

  // ---------------------------------------------------------------------------
  // Ordering and sorting (`Ord for String`, `slice::sort`)
  // ---------------------------------------------------------------------------

  /**
   * Lexicographic order on code points, which is the byte order of the UTF-8
   * encodings that `Ord for String` compares.
   */
  predicate LessEq(a: string, b: string) {
    a == [] || (b != [] && (a[0] < b[0] || (a[0] == b[0] && LessEq(a[1..], b[1..]))))
  }

  lemma {:induction false} LessEqTotal(a: string, b: string)
    ensures LessEq(a, b) || LessEq(b, a)
  {
    if a != [] && b != [] && a[0] == b[0] {
      LessEqTotal(a[1..], b[1..]);
    }
  }

  lemma {:induction false} LessEqTransitive(a: string, b: string, c: string)
    requires LessEq(a, b) && LessEq(b, c)
    ensures LessEq(a, c)
  {
    if a != [] && a[0] == b[0] && b[0] == c[0] {
      LessEqTransitive(a[1..], b[1..], c[1..]);
    }
  }

  lemma {:induction false} LessEqAntisymmetric(a: string, b: string)
    requires LessEq(a, b) && LessEq(b, a)
    ensures a == b
  {
    if a != [] {
      LessEqAntisymmetric(a[1..], b[1..]);
      assert a == [a[0]] + a[1..] && b == [b[0]] + b[1..];
    }
  }

  predicate Sorted(s: seq<string>) {
    forall i, j :: 0 <= i < j < |s| ==> LessEq(s[i], s[j])
  }

  /** Insert `x` into sorted `s` before the first element it does not exceed. */
  function Insert(x: string, s: seq<string>): (r: seq<string>)
    requires Sorted(s)
    ensures multiset(r) == multiset(s) + multiset{x}
    ensures Sorted(r)
  {
    if s == [] then [x]
    else if LessEq(x, s[0]) then
      assert forall k :: 0 <= k < |s| ==> LessEq(x, s[k]) by {
        forall k | 0 <= k < |s| ensures LessEq(x, s[k]) {
          if k > 0 { LessEqTransitive(x, s[0], s[k]); }
        }
      }
      SortedCons(x, s);
      [x] + s
    else
      LessEqTotal(x, s[0]);
      var t := Insert(x, s[1..]);
      assert s == [s[0]] + s[1..];
      assert forall k :: 0 <= k < |t| ==> LessEq(s[0], t[k]) by {
        forall k | 0 <= k < |t| ensures LessEq(s[0], t[k]) {
          assert t[k] in multiset(t);
          assert t[k] in multiset(s[1..]) || t[k] == x;
          if t[k] != x {
            var m :| 0 <= m < |s[1..]| && s[1..][m] == t[k];
            assert s[m + 1] == t[k];
          }
        }
      }
      SortedCons(s[0], t);
      [s[0]] + t
  }

  lemma SortedCons(x: string, s: seq<string>)
    requires Sorted(s)
    requires forall k :: 0 <= k < |s| ==> LessEq(x, s[k])
    ensures Sorted([x] + s)
  {
    var r := [x] + s;
    forall i, j | 0 <= i < j < |r| ensures LessEq(r[i], r[j]) {
      if i > 0 { assert r[i] == s[i - 1] && r[j] == s[j - 1]; }
    }
  }

  /** `slice::sort` on strings: an ordered permutation of the input. */
  function Sort(s: seq<string>): (r: seq<string>)
    ensures Sorted(r) && multiset(r) == multiset(s) && |r| == |s|
  {
    if s == [] then []
    else
      assert s == [s[0]] + s[1..];
      Insert(s[0], Sort(s[1..]))
  }
}
