/** String operations over `string` (a sequence of characters): Go's
    `strings.TrimRight`, which the probe-target code relies on, and the search
    for the last occurrence of a character, used to take a `host:port` address
    apart again. Prefix tests (`strings.HasPrefix`) are Dafny's built-in
    `prefix <= s`. */
module Strings {

  /** Every character of `s` from index `k` on belongs to `cutset`. */
  predicate AllInFrom(s: string, k: nat, cutset: string)
  {
    forall i :: k <= i < |s| ==> s[i] in cutset
  }

  /** `strings.TrimRight(s, cutset)`: removes every trailing character that
      belongs to `cutset`. The result is the longest prefix of `s` that does
      not end in a cutset character, and what was cut off is made of cutset
      characters only. */
  function TrimRight(s: string, cutset: string): (r: string)
    ensures r <= s
    ensures AllInFrom(s, |r|, cutset)
    ensures r == [] || r[|r| - 1] !in cutset
    decreases |s|
  {
    if s != [] && s[|s| - 1] in cutset then TrimRight(s[..|s| - 1], cutset) else s
  }

  /** The three facts TrimRight's contract states determine its result: any
      prefix of `s` that is followed only by cutset characters and does not
      itself end in one is exactly TrimRight(s, cutset). */
  lemma TrimRightUnique(s: string, cutset: string, r: string)
    requires r <= s
    requires AllInFrom(s, |r|, cutset)
    requires r == [] || r[|r| - 1] !in cutset
    ensures r == TrimRight(s, cutset)
  {
    var t := TrimRight(s, cutset);
    assert r != [] ==> s[|r| - 1] == r[|r| - 1] && s[|r| - 1] !in cutset;
    assert t != [] ==> s[|t| - 1] == t[|t| - 1] && s[|t| - 1] !in cutset;
    assert |t| == |r|;
  }

  /** Trimming twice trims nothing more. */
  lemma TrimRightIdempotent(s: string, cutset: string)
    ensures TrimRight(TrimRight(s, cutset), cutset) == TrimRight(s, cutset)
  {
    var t := TrimRight(s, cutset);
    TrimRightUnique(t, cutset, t);
  }

  /** A string whose last character is not in the cutset is left unchanged. */
  lemma TrimRightNoTrailing(s: string, cutset: string)
    requires s != [] && s[|s| - 1] !in cutset
    ensures TrimRight(s, cutset) == s
  {
    TrimRightUnique(s, cutset, s);
  }

  /** Trimming never cuts into a prefix that ends in a character outside the
      cutset: such a prefix of `s` is still a prefix of the result. */
  lemma TrimRightKeepsPrefix(p: string, s: string, cutset: string)
    requires p <= s
    requires p != [] && p[|p| - 1] !in cutset
    ensures p <= TrimRight(s, cutset)
  {
    var t := TrimRight(s, cutset);
    assert s[|p| - 1] == p[|p| - 1] && s[|p| - 1] !in cutset;
    assert |p| <= |t|;
  }

  /** The index of the last occurrence of `c` in `s`, or -1 when `c` does not
      occur (as Go's `strings.LastIndexByte`). */
  function LastIndex(s: string, c: char): (r: int)
    ensures -1 <= r < |s|
    ensures r >= 0 ==> s[r] == c
    ensures forall j :: r < j < |s| ==> s[j] != c
    decreases |s|
  {
    if s == [] then -1
    else if s[|s| - 1] == c then |s| - 1
    else LastIndex(s[..|s| - 1], c)
  }

  /** In `a + [c] + b` with no `c` in `b`, the last `c` is the one between. */
  lemma LastIndexAtSeparator(a: string, c: char, b: string)
    requires c !in b
    ensures LastIndex(a + [c] + b, c) == |a|
  {
    var s := a + [c] + b;
    assert s[|a|] == c;
  }
}
