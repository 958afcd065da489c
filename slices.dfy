/** Python's open-ended slice `xs[start:]`, and the truncation `xs[-limit:]`
    that the plotter applies to its history after every frame. Python never
    raises on an out-of-range slice bound: it clamps it. */
module Slices {

  function Min(a: int, b: int): int { if a <= b then a else b }

  function Max(a: int, b: int): int { if a >= b then a else b }

  /** `s` is what is left of `a` after dropping some prefix of it. */
  ghost predicate IsSuffix<T>(s: seq<T>, a: seq<T>) {
    |s| <= |a| && forall i :: 0 <= i < |s| ==> s[i] == a[|a| - |s| + i]
  }

  /** Python's `xs[start:]`. A negative `start` counts from the end of `xs`;
      a bound past either end is clamped to that end. */
  function SliceFrom<T>(xs: seq<T>, start: int): (r: seq<T>)
    ensures IsSuffix(r, xs)
    ensures start < 0 ==> |r| == Min(-start, |xs|)
    ensures 0 <= start ==> |r| == Max(|xs| - start, 0)
  {
    var lo := if start < 0 then Max(start + |xs|, 0) else Min(start, |xs|);
    xs[lo..]
  }

  /** `xs[-limit:]`. The limit is never validated: a positive limit keeps the
      last `limit` elements, `-0 == 0` keeps everything, and a negative limit
      drops `-limit` elements from the front. */
  function Truncate<T>(xs: seq<T>, limit: int): (r: seq<T>)
    ensures IsSuffix(r, xs)
    ensures limit == 0 ==> r == xs
    ensures 0 < limit ==> |r| == Min(limit, |xs|)
    ensures limit < 0 ==> |r| == Max(|xs| + limit, 0)
  {
    SliceFrom(xs, -limit)
  }

  /** Two suffixes of one sequence that have the same length are equal. */
  lemma SuffixUnique<T>(s: seq<T>, t: seq<T>, a: seq<T>)
    requires IsSuffix(s, a) && IsSuffix(t, a) && |s| == |t|
    ensures s == t
  {
  }

  /** Element `k` of a suffix is the element of the whole at the same distance from the end. */
  lemma SuffixAt<T>(s: seq<T>, a: seq<T>, k: int)
    requires IsSuffix(s, a) && 0 <= k < |s|
    ensures s[k] == a[|a| - |s| + k]
  {
  }

  lemma SuffixTransitive<T>(s: seq<T>, t: seq<T>, a: seq<T>)
    requires IsSuffix(s, t) && IsSuffix(t, a)
    ensures IsSuffix(s, a)
  {
    assert a[|a| - |t|..][|t| - |s|..] == a[|a| - |s|..];
  }

  lemma SuffixAppend<T>(s: seq<T>, a: seq<T>, b: seq<T>)
    requires IsSuffix(s, a)
    ensures IsSuffix(s + b, a + b)
  {
    assert (a + b)[|a + b| - |s + b|..] == a[|a| - |s|..] + b;
  }

  /** How long the history is after truncation depends only on how long it
      was before, so two parallel lists of equal length stay equal in length. */
  lemma TruncateSameLength<T, U>(xs: seq<T>, ys: seq<U>, limit: int)
    requires |xs| == |ys|
    ensures |Truncate(xs, limit)| == |Truncate(ys, limit)|
  {
  }

  /** One frame with a positive limit, starting within the limit: below the
      limit the new element is simply added; at the limit exactly the oldest
      element is evicted and the others keep their order. In both cases the
      newest element is last. */
  lemma TruncateAppend<T>(h: seq<T>, x: T, limit: int)
    requires 0 < limit && |h| <= limit
    ensures |h| < limit ==> Truncate(h + [x], limit) == h + [x]
    ensures |h| == limit ==> Truncate(h + [x], limit) == h[1..] + [x]
    ensures |Truncate(h + [x], limit)| <= limit
  {
    if |h| == limit {
      assert (h + [x])[1..] == h[1..] + [x];
    }
  }

  /** With a limit that is not negative the element just appended survives
      truncation as the last element. */
  lemma TruncateKeepsNewest<T>(h: seq<T>, x: T, limit: int)
    requires 0 <= limit
    ensures |Truncate(h + [x], limit)| > 0
    ensures Truncate(h + [x], limit)[|Truncate(h + [x], limit)| - 1] == x
  {
    var r := Truncate(h + [x], limit);
    assert r == (h + [x])[|h| + 1 - |r|..];
  }

  /** Truncating an intermediate history does not change the final one:
      `(a[-L:] + b)[-L:] == (a + b)[-L:]` for a positive limit `L`. */
  lemma TruncateAbsorb<T>(a: seq<T>, b: seq<T>, limit: int)
    requires 0 < limit
    ensures Truncate(Truncate(a, limit) + b, limit) == Truncate(a + b, limit)
  {
    var t := Truncate(a, limit);
    SuffixAppend(t, a, b);
    SuffixTransitive(Truncate(t + b, limit), t + b, a + b);
    SuffixUnique(Truncate(t + b, limit), Truncate(a + b, limit), a + b);
  }
}
