/** The nearest-rank percentile of plugin statistics. */
module Percentile {

  const U64_MAX: nat := 0xFFFF_FFFF_FFFF_FFFF
  const U128_MAX: nat := 0xFFFF_FFFF_FFFF_FFFF_FFFF_FFFF_FFFF_FFFF

  function DivCeil(a: nat, b: nat): nat
    requires b > 0
  {
    (a + b - 1) / b
  }

  /** The index for `product` = percentile times length: its hundredth rounded up, clamped to the list. */
  function IndexFor(n: nat, product: nat): (i: nat)
    requires n > 0
    ensures i < n
  {
    var ceil := DivCeil(product, 100);
    var rank := if ceil < 1 then 1 else ceil;
    (if rank < n then rank else n) - 1
  }

  /** `nearest_rank_percentile`. */
  function NearestRank(sorted: seq<nat>, p: nat): nat {
    if |sorted| == 0 then 0 else sorted[IndexFor(|sorted|, p * |sorted|)]
  }

  ghost predicate Sorted(s: seq<nat>) {
    forall i, j :: 0 <= i < j < |s| ==> s[i] <= s[j]
  }

  /** How many elements are at most `v`. */
  function CountAtMost(s: seq<nat>, v: nat): nat {
    if s == [] then 0 else CountAtMost(s[..|s| - 1], v) + if s[|s| - 1] <= v then 1 else 0
  }

  lemma {:induction false} CountAtLeast(s: seq<nat>, v: nat, k: nat)
    requires k <= |s| && forall i :: 0 <= i < k ==> s[i] <= v
    ensures CountAtMost(s, v) >= k
  {
    if s != [] {
      CountAtLeast(s[..|s| - 1], v, if k == |s| then k - 1 else k);
    }
  }

  lemma {:induction false} CountAtMostBound(s: seq<nat>, v: nat, k: nat)
    requires k <= |s| && forall i :: k <= i < |s| ==> s[i] > v
    ensures CountAtMost(s, v) <= k
  {
    if |s| > 0 {
      CountAtMostBound(s[..|s| - 1], v, if k == |s| then k - 1 else k);
    }
  }

  lemma RankBrackets(n: nat, product: nat)
    requires 0 < product <= 100 * n
    ensures 100 * IndexFor(n, product) < product <= 100 * (IndexFor(n, product) + 1)
  {
  }

  lemma ProductMonotone(p: nat, q: nat, n: nat)
    requires p <= q
    ensures p * n <= q * n
  {
  }

  /**
   * For a sorted list and 0 < p <= 100 the result is the least value that at least p percent of
   * the elements do not exceed: it reaches p percent, and no smaller value does.
   */
  lemma NearestRankIsLeast(sorted: seq<nat>, p: nat, w: nat)
    requires sorted != [] && Sorted(sorted) && 0 < p <= 100
    ensures NearestRank(sorted, p) in sorted
    ensures 100 * CountAtMost(sorted, NearestRank(sorted, p)) >= p * |sorted|
    ensures w < NearestRank(sorted, p) ==> 100 * CountAtMost(sorted, w) < p * |sorted|
  {
    ProductMonotone(1, p, |sorted|);
    ProductMonotone(p, 100, |sorted|);
    RankBrackets(|sorted|, p * |sorted|);
    var k := IndexFor(|sorted|, p * |sorted|);
    CountAtLeast(sorted, sorted[k], k + 1);
    if w < sorted[k] { CountAtMostBound(sorted, w, k); }
  }

  lemma IndexMonotone(n: nat, a: nat, b: nat)
    requires n > 0 && a <= b
    ensures IndexFor(n, a) <= IndexFor(n, b)
  {
  }

  lemma NearestRankMonotone(sorted: seq<nat>, p: nat, q: nat)
    requires Sorted(sorted) && p <= q
    ensures NearestRank(sorted, p) <= NearestRank(sorted, q)
  {
    if sorted != [] {
      ProductMonotone(p, q, |sorted|);
      IndexMonotone(|sorted|, p * |sorted|, q * |sorted|);
    }
  }

  /** The product of two 64-bit values fits the 128-bit intermediate. */
  lemma RankProductFits(p: nat, n: nat)
    requires p <= U64_MAX && n <= U64_MAX
    ensures p * n <= U128_MAX
  {
    assert p * n <= U64_MAX * n;
    assert U64_MAX * n <= U64_MAX * U64_MAX;
  }
}
