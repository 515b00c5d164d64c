/** String predicates shared by the scraper, the resolver and the file-name logic:
    prefix tests, substring search, and maximal character runs. */
module Text {

  /** Python's `s.startswith(prefix)`. */
  predicate StartsWith(s: string, prefix: string)
  {
    |prefix| <= |s| && s[..|prefix|] == prefix
  }

  /** `lit` occurs in `s` at position `p`. */
  predicate StartsAt(s: string, p: nat, lit: string)
  {
    p + |lit| <= |s| && s[p..p + |lit|] == lit
  }

  /** Python's `pat in s`. */
  predicate Contains(s: string, pat: string)
  {
    exists p :: 0 <= p <= |s| && StartsAt(s, p, pat)
  }

  /** End of the longest run of characters that `stop` refuses not, beginning at `i`
      (a greedy negated character-class repetition of a regex). */
  function RunEnd(s: string, i: nat, stop: char -> bool): (j: nat)
    requires i <= |s|
    ensures i <= j <= |s|
    ensures forall k :: i <= k < j ==> !stop(s[k])
    ensures j == |s| || stop(s[j])
    decreases |s| - i
  {
    if i == |s| || stop(s[i]) then i else RunEnd(s, i + 1, stop)
  }

  /** A run of non-stop characters ended by a stop character (or the end) is what
      `RunEnd` finds. */
  lemma {:induction false} RunEndAt(s: string, i: nat, j: nat, stop: char -> bool)
    requires i <= j <= |s|
    requires forall k :: i <= k < j ==> !stop(s[k])
    requires j == |s| || stop(s[j])
    ensures RunEnd(s, i, stop) == j
    decreases j - i
  {
    if i < j { RunEndAt(s, i + 1, j, stop); }
  }
}
