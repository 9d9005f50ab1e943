/** The string operations the gateway relies on: `startsWith`, `includes`,
    `indexOf` and `String.prototype.replace` with a string pattern (which
    replaces only the first occurrence). Replacement strings are taken
    literally: `$`-patterns in them are not interpreted. */
module Text {
  import opened Wrappers

  predicate StartsWith(s: string, prefix: string) {
    |prefix| <= |s| && s[..|prefix|] == prefix
  }

  /** `p` occurs in `s` starting at index `i`. */
  predicate OccursAt(s: string, p: string, i: nat) {
    i + |p| <= |s| && s[i..i + |p|] == p
  }

  /** `s.indexOf(p, k)`: the first occurrence at or after `k`. */
  function IndexOfFrom(s: string, p: string, k: nat): (r: Option<nat>)
    decreases |s| - k
    ensures r.Some? ==> k <= r.value && OccursAt(s, p, r.value)
    ensures r.Some? ==> forall j :: k <= j < r.value ==> !OccursAt(s, p, j)
    ensures r.None? ==> forall j :: k <= j ==> !OccursAt(s, p, j)
  {
    if k + |p| > |s| then None
    else if OccursAt(s, p, k) then Some(k)
    else IndexOfFrom(s, p, k + 1)
  }

  function IndexOf(s: string, p: string): Option<nat> {
    IndexOfFrom(s, p, 0)
  }

  /** `s.includes(p)`. */
  predicate Contains(s: string, p: string) {
    IndexOf(s, p).Some?
  }

  lemma ContainsIff(s: string, p: string)
    ensures Contains(s, p) <==> exists i :: OccursAt(s, p, i)
  {
    if exists i :: OccursAt(s, p, i) {
      var i :| OccursAt(s, p, i);
      assert !(IndexOf(s, p).None?);
    }
  }

  lemma OccursInMiddle(a: string, p: string, b: string)
    ensures OccursAt(a + p + b, p, |a|)
  {
    assert (a + p + b)[|a|..|a| + |p|] == p;
  }

  /** `s.replace(p, r)` with a string pattern. */
  function ReplaceFirst(s: string, p: string, r: string): (out: string)
    ensures IndexOf(s, p).None? ==> out == s
    ensures IndexOf(s, p).Some? ==>
              var i := IndexOf(s, p).value;
              out == s[..i] + r + s[i + |p|..]
  {
    match IndexOf(s, p)
    case None => s
    case Some(i) => s[..i] + r + s[i + |p|..]
  }

  /** Replacing a pattern that opens the string swaps that prefix. */
  lemma ReplacePrefix(p: string, rest: string, r: string)
    requires |p| > 0
    ensures ReplaceFirst(p + rest, p, r) == r + rest
  {
    OccursInMiddle([], p, rest);
    assert [] + p + rest == p + rest;
    assert IndexOf(p + rest, p) == Some(0);
    assert (p + rest)[|p|..] == rest;
  }

  /** The replacement text always appears in the output once the pattern is found. */
  lemma ReplaceFirstShowsReplacement(s: string, p: string, r: string)
    requires Contains(s, p)
    ensures OccursAt(ReplaceFirst(s, p, r), r, IndexOf(s, p).value)
  {
    var i := IndexOf(s, p).value;
    OccursInMiddle(s[..i], r, s[i + |p|..]);
  }

  /** A shared front does not change whether one string starts with another. */
  lemma StartsWithAfterCommon(c: string, a: string, b: string)
    ensures StartsWith(c + a, c + b) <==> StartsWith(a, b)
  {
    if |b| <= |a| {
      assert (c + a)[..|c + b|] == c + a[..|b|];
      if StartsWith(c + a, c + b) {
        assert (c + a[..|b|])[|c|..] == a[..|b|];
        assert (c + b)[|c|..] == b;
      }
    }
  }
}
