/**
 * The comparison of two public APIs. A public API is modelled as a finite map
 * from each public item's path to its rendered signature; the diff of the
 * `public_api` crate is assumed to behave as the set operations below
 * (removed: items only in the before API, added: only in the after one, changed:
 * in both with different signatures).
 */
module PublicApiDiff {

  /** Item path to rendered signature. */
  type PublicApi = map<string, string>

  datatype Change = Change(before: string, after: string)

  datatype Diff = Diff(removed: map<string, string>, added: map<string, string>, changed: map<string, Change>)

  function Between(before: PublicApi, after: PublicApi): (d: Diff)
    ensures d.removed.Keys <= before.Keys && d.added.Keys <= after.Keys
  {
    Diff(
      map n | n in before && n !in after :: before[n],
      map n | n in after && n !in before :: after[n],
      map n | n in before && n in after && before[n] != after[n] :: Change(before[n], after[n]))
  }

  /** A diff breaks semver when it removes or changes an item; additions are compatible. */
  predicate IsBreaking(d: Diff) {
    d.removed != map[] || d.changed != map[]
  }

  /** Every item of `before` is in `after` with the same signature. */
  predicate Extends(after: PublicApi, before: PublicApi) {
    forall n :: n in before ==> n in after && after[n] == before[n]
  }

  /** A change is non-breaking exactly when the after API extends the before one. */
  lemma NonBreakingIffExtends(before: PublicApi, after: PublicApi)
    ensures !IsBreaking(Between(before, after)) <==> Extends(after, before)
  {
    var d := Between(before, after);
    if !Extends(after, before) {
      var n :| n in before && !(n in after && after[n] == before[n]);
      if n in after {
        assert n in d.changed;
      } else {
        assert n in d.removed;
      }
    }
  }

  /** What one direction adds, the other removes; a change is seen from both sides. */
  lemma DiffReversed(a: PublicApi, b: PublicApi)
    ensures Between(a, b).added == Between(b, a).removed
    ensures Between(a, b).changed.Keys == Between(b, a).changed.Keys
  {
  }

  /** Comparing an API with itself finds nothing. */
  lemma DiffIdentity(a: PublicApi)
    ensures Between(a, a) == Diff(map[], map[], map[])
  {
  }

  /** Every item of the before API is unchanged, removed or changed, and only one of these. */
  lemma DiffPartitionsOld(before: PublicApi, after: PublicApi)
    ensures var d := Between(before, after);
      forall n :: n in before ==>
        (n in d.removed && n !in d.changed && n !in after)
        || (n in d.changed && n !in d.removed && d.changed[n] == Change(before[n], after[n]))
        || (n !in d.removed && n !in d.changed && n in after && after[n] == before[n])
  {
  }

  /** Two compatible steps make a compatible step. */
  lemma NonBreakingTransitive(a: PublicApi, b: PublicApi, c: PublicApi)
    requires !IsBreaking(Between(a, b)) && !IsBreaking(Between(b, c))
    ensures !IsBreaking(Between(a, c))
  {
    NonBreakingIffExtends(a, b);
    NonBreakingIffExtends(b, c);
    NonBreakingIffExtends(a, c);
  }
}
