/**
 * Runs of consecutive `true` flags: the arithmetic behind every streak
 * counter in the app (a counter that grows on a hit, resets on a miss and
 * keeps its maximum).
 */
module Runs {

  /** All flags in `[i, j)` are set. */
  predicate AllSet(flags: seq<bool>, i: int, j: int)
    requires 0 <= i <= j <= |flags|
  {
    forall k :: i <= k < j ==> flags[k]
  }

  function Max(a: int, b: int): int {
    if a >= b then a else b
  }

  /** The counter after scanning `flags`: the length of the all-set suffix. */
  function Trailing(flags: seq<bool>): (n: nat)
    ensures n <= |flags|
    ensures AllSet(flags, |flags| - n, |flags|)
    ensures n < |flags| ==> !flags[|flags| - 1 - n]
  {
    if flags == [] then 0
    else if flags[|flags| - 1] then Trailing(flags[..|flags| - 1]) + 1
    else 0
  }

  /** The maximum the counter reaches while scanning `flags`. */
  function Longest(flags: seq<bool>): (n: nat)
    ensures n <= |flags|
  {
    if flags == [] then 0 else Max(Longest(flags[..|flags| - 1]), Trailing(flags))
  }

  /** One more step of the scan. */
  lemma ScanStep(flags: seq<bool>, b: bool)
    ensures Trailing(flags + [b]) == (if b then Trailing(flags) + 1 else 0)
    ensures Longest(flags + [b]) == Max(Longest(flags), Trailing(flags + [b]))
  {
    assert (flags + [b])[..|flags|] == flags;
  }

  /** No stretch of set flags is longer than `Longest`. */
  lemma {:induction false} LongestBound(flags: seq<bool>, i: int, j: int)
    requires 0 <= i <= j <= |flags| && AllSet(flags, i, j)
    ensures j - i <= Longest(flags)
    decreases |flags|
  {
    if j < |flags| {
      var p := flags[..|flags| - 1];
      assert AllSet(p, i, j);
      LongestBound(p, i, j);
    } else if i < j {
      TrailingCovers(flags, i);
    }
  }

  /** A stretch of set flags reaching the end is no longer than the trailing count. */
  lemma {:induction false} TrailingCovers(flags: seq<bool>, i: int)
    requires 0 <= i <= |flags| && AllSet(flags, i, |flags|)
    ensures |flags| - i <= Trailing(flags)
    decreases |flags|
  {
    if i < |flags| {
      var p := flags[..|flags| - 1];
      assert AllSet(p, i, |p|);
      TrailingCovers(p, i);
    }
  }

  /** `Longest` is attained: some stretch of exactly that many set flags exists. */
  lemma {:induction false} LongestAttained(flags: seq<bool>) returns (i: int)
    ensures 0 <= i <= |flags| - Longest(flags)
    ensures AllSet(flags, i, i + Longest(flags))
    decreases |flags|
  {
    if flags == [] {
      i := 0;
    } else {
      var p := flags[..|flags| - 1];
      if Longest(p) >= Trailing(flags) {
        i := LongestAttained(p);
        assert forall k :: i <= k < i + Longest(p) ==> flags[k] == p[k];
      } else {
        i := |flags| - Trailing(flags);
      }
    }
  }

  /** The scan reports 0 exactly when no flag is set. */
  lemma LongestZero(flags: seq<bool>)
    ensures Longest(flags) == 0 <==> forall k :: 0 <= k < |flags| ==> !flags[k]
  {
    if Longest(flags) != 0 {
      var i := LongestAttained(flags);
      assert flags[i];
    } else {
      forall k | 0 <= k < |flags|
        ensures !flags[k]
      {
        if flags[k] {
          assert AllSet(flags, k, k + 1);
          LongestBound(flags, k, k + 1);
        }
      }
    }
  }
}
