/**
 * The JavaScript string operations the key derivation relies on, with the
 * semantics of `String.prototype.indexOf`, `String.prototype.replace` called
 * with a string pattern, and `String.prototype.substr` with a non-negative start.
 */
module JsString {
  import opened Wrappers

  /** `pat` occurs in `s` at index `i`. */
  predicate OccursAt(s: string, pat: string, i: nat)
  {
    i + |pat| <= |s| && s[i..i + |pat|] == pat
  }

  /** `i` is the first index at which `pat` occurs in `s`. */
  predicate FirstOccurrence(s: string, pat: string, i: nat)
  {
    OccursAt(s, pat, i) && forall j: nat :: j < i ==> !OccursAt(s, pat, j)
  }

  /** `s.indexOf(pat, from)`, with -1 written as None. */
  function IndexOfFrom(s: string, pat: string, from: nat): (r: Option<nat>)
    ensures r.Some? ==> from <= r.value && OccursAt(s, pat, r.value)
    ensures r.Some? ==> forall j: nat :: from <= j < r.value ==> !OccursAt(s, pat, j)
    ensures r.None? ==> forall j: nat :: from <= j ==> !OccursAt(s, pat, j)
    decreases |s| - from
  {
    if OccursAt(s, pat, from) then Some(from)
    else if |s| <= from + |pat| then None
    else IndexOfFrom(s, pat, from + 1)
  }

  /** `s.indexOf(pat)`. */
  function IndexOf(s: string, pat: string): (r: Option<nat>)
    ensures r.Some? ==> FirstOccurrence(s, pat, r.value)
    ensures r.None? ==> forall j: nat :: !OccursAt(s, pat, j)
  {
    IndexOfFrom(s, pat, 0)
  }

  /**
   * `s.replace(pat, rep)` with a string pattern: only the FIRST occurrence of
   * `pat` is replaced; without an occurrence `s` is returned unchanged.
   * (The replacement strings used here contain no `$` patterns.)
   */
  function Replace(s: string, pat: string, rep: string): (r: string)
    ensures (forall j: nat :: !OccursAt(s, pat, j)) ==> r == s
    ensures forall k: nat :: FirstOccurrence(s, pat, k) ==> r == s[..k] + rep + s[k + |pat|..]
  {
    match IndexOf(s, pat)
    case None => s
    case Some(k) =>
      s[..k] + rep + s[k + |pat|..]
  }

  /** `s.substr(start)` for a non-negative `start`: the suffix from `start` on, or "" past the end. */
  function Substr(s: string, start: nat): (r: string)
    ensures start <= |s| ==> s == s[..start] + r
    ensures |s| < start ==> r == ""
  {
    if |s| <= start then "" else s[start..]
  }

  /** A string occurs at index 0 of any string it prefixes, so `replace` removes that prefix. */
  lemma ReplacePrefix(p: string, s: string, rep: string)
    ensures Replace(p + s, p, rep) == rep + s
  {
    assert OccursAt(p + s, p, 0);
    assert FirstOccurrence(p + s, p, 0);
  }

  /** A one-character pattern occurs exactly where that character stands. */
  lemma OccursAtSingle(s: string, c: char, j: nat)
    ensures OccursAt(s, [c], j) <==> j < |s| && s[j] == c
  {
    if j < |s| {
      assert s[j..j + 1] == [s[j]];
    }
  }

  /** A string without `c` is left alone by `replace([c], ...)`. */
  lemma ReplaceAbsent(s: string, c: char, rep: string)
    requires c !in s
    ensures Replace(s, [c], rep) == s
  {
    forall j: nat ensures !OccursAt(s, [c], j) {
      OccursAtSingle(s, c, j);
    }
  }

  /** `replace([c], rep)` on `a + [c] + b` with no `c` in `a` rewrites that `c` and keeps `b` as it is. */
  lemma ReplaceFirstChar(a: string, c: char, b: string, rep: string)
    requires c !in a
    ensures Replace(a + [c] + b, [c], rep) == a + rep + b
  {
    var s := a + [c] + b;
    OccursAtSingle(s, c, |a|);
    forall j: nat | j < |a| ensures !OccursAt(s, [c], j) {
      OccursAtSingle(s, c, j);
      assert s[j] == a[j];
    }
    assert FirstOccurrence(s, [c], |a|);
    assert s[..|a|] == a;
    assert s[|a| + 1..] == b;
  }
}
