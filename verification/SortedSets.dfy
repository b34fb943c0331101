/** Strictly increasing sequences as finite sets, and the Jaccard index
    (src/dedup.rs, `exact_jaccard`).

    f64 division is modelled by a rounding function `rnd` applied to the exact
    quotient. Nothing is assumed of it except, where a bound is compared with a
    similarity, that it is monotone. */
module SortedSets {
  import opened Sets

  /** Unsigned 64-bit values. */
  const U64_LIMIT: nat := 0x1_0000_0000_0000_0000
  type u64 = x: nat | x < U64_LIMIT witness 0

  ghost predicate Increasing(s: seq<nat>) {
    forall i, j :: 0 <= i < j < |s| ==> s[i] < s[j]
  }

  function SetOf(s: seq<nat>): set<nat> {
    set x | x in s
  }

  lemma {:induction false} IncreasingCardinality(s: seq<nat>)
    requires Increasing(s)
    ensures |SetOf(s)| == |s|
  {
    if s != [] {
      var front, last := s[..|s| - 1], s[|s| - 1];
      IncreasingCardinality(front);
      assert s == front + [last];
      assert SetOf(s) == SetOf(front) + {last};
    }
  }

  // ---------------------------------------------------------------- Jaccard

  /** |A n B| / |A u B| for sets that are not both empty. */
  function Ratio(a: nat, b: nat, common: nat): real
    requires common <= a && common <= b && a + b > 0
  {
    common as real / (a + b - common) as real
  }

  ghost function JaccardIndex<T>(a: set<T>, b: set<T>): real
    requires |a + b| > 0
  {
    |a * b| as real / |a + b| as real
  }

  /** Similarity of two sets as the program defines it: 0 when either is empty. */
  ghost function Similarity<T>(rnd: real -> real, a: set<T>, b: set<T>): real {
    if a == {} || b == {} then 0.0
    else
      assert a <= a + b;
      SubsetCardinality(a, a + b);
      NonEmptyCardinality(a);
      rnd(JaccardIndex(a, b))
  }

  lemma NonEmptyCardinality<T>(a: set<T>)
    requires a != {}
    ensures |a| > 0
  {}

  /** Similarity in terms of sizes. */
  lemma SimilarityBySize<T>(rnd: real -> real, a: set<T>, b: set<T>)
    requires a != {} && b != {}
    ensures |a * b| <= |a| && |a * b| <= |b| && |a| + |b| > 0
    ensures Similarity(rnd, a, b) == rnd(Ratio(|a|, |b|, |a * b|))
  {
    CardinalityOfUnion(a, b);
    NonEmptyCardinality(a);
  }

  /** A larger intersection gives a larger ratio. */
  lemma RatioMonotone(a: nat, b: nat, x: nat, y: nat)
    requires x <= y <= a && y <= b && a + b > 0
    ensures Ratio(a, b, x) <= Ratio(a, b, y)
  {
    QuotientMonotone(x as real, (a + b - x) as real, y as real, (a + b - y) as real);
  }

  lemma QuotientMonotone(p: real, q: real, r: real, s: real)
    requires 0.0 <= p <= r && 0.0 < s <= q
    ensures p / q <= r / s
  {
    var x, y := p / q, r / s;
    assert x * q == p && y * s == r;
    if x > y { ProductBound(x, q, y, s); }
  }

  lemma ProductBound(x: real, q: real, y: real, s: real)
    requires x > y && q >= s > 0.0 && y >= 0.0
    ensures x * q > y * s
  {
    assert (x - y) * q > 0.0;
    assert y * (q - s) >= 0.0;
  }

  ghost predicate Monotone(rnd: real -> real) {
    forall x: real, y: real :: x <= y ==> rnd(x) <= rnd(y)
  }

  // ------------------------------------------------------------ exact Jaccard

  /** Both prefixes are exhausted up to a common frontier: what is left of each
      list lies above everything consumed from the other. */
  ghost predicate Frontier(a: seq<nat>, ai: nat, b: seq<nat>, bi: nat) {
    && ai <= |a| && bi <= |b|
    && (forall i, k :: 0 <= i < ai && bi <= k < |b| ==> a[i] < b[k])
    && (forall i, k :: ai <= i < |a| && 0 <= k < bi ==> b[k] < a[i])
  }

  ghost function Common(a: seq<nat>, ai: nat, b: seq<nat>, bi: nat): set<nat>
    requires ai <= |a| && bi <= |b|
  {
    SetOf(a[..ai]) * SetOf(b[..bi])
  }

  lemma TakePrefix(a: seq<nat>, i: nat)
    requires i < |a|
    ensures SetOf(a[..i + 1]) == SetOf(a[..i]) + {a[i]}
  {
    assert a[..i + 1] == a[..i] + [a[i]];
  }

  /** Consuming an element that is not in the other prefix adds nothing. */
  lemma ConsumeLeft(a: seq<nat>, ai: nat, b: seq<nat>, bi: nat)
    requires Increasing(a) && Increasing(b)
    requires Frontier(a, ai, b, bi) && ai < |a| && (bi < |b| ==> a[ai] < b[bi])
    ensures Common(a, ai + 1, b, bi) == Common(a, ai, b, bi)
    ensures Frontier(a, ai + 1, b, bi)
  {
    TakePrefix(a, ai);
  }

  lemma ConsumeRight(a: seq<nat>, ai: nat, b: seq<nat>, bi: nat)
    requires Increasing(a) && Increasing(b)
    requires Frontier(a, ai, b, bi) && bi < |b| && (ai < |a| ==> b[bi] < a[ai])
    ensures Common(a, ai, b, bi + 1) == Common(a, ai, b, bi)
    ensures Frontier(a, ai, b, bi + 1)
  {
    TakePrefix(b, bi);
  }

  lemma ConsumeBoth(a: seq<nat>, ai: nat, b: seq<nat>, bi: nat)
    requires Increasing(a) && Increasing(b)
    requires Frontier(a, ai, b, bi) && ai < |a| && bi < |b| && a[ai] == b[bi]
    ensures Frontier(a, ai + 1, b, bi + 1)
    ensures |Common(a, ai + 1, b, bi + 1)| == |Common(a, ai, b, bi)| + 1
  {
    TakePrefix(a, ai);
    TakePrefix(b, bi);
    assert Common(a, ai + 1, b, bi + 1) == Common(a, ai, b, bi) + {a[ai]};
    assert a[ai] !in Common(a, ai, b, bi);
  }

  /** When one list is used up the rest of the other cannot match. */
  lemma FrontierExhausted(a: seq<nat>, ai: nat, b: seq<nat>, bi: nat)
    requires Frontier(a, ai, b, bi) && (ai == |a| || bi == |b|)
    ensures Common(a, ai, b, bi) == SetOf(a) * SetOf(b)
  {
    assert a == a[..ai] + a[ai..] && b == b[..bi] + b[bi..];
  }

  lemma SimilarityOfLists(rnd: real -> real, a: seq<nat>, b: seq<nat>)
    requires Increasing(a) && Increasing(b) && a != [] && b != []
    ensures var i := |SetOf(a) * SetOf(b)|;
      && i <= |a| && i <= |b|
      && Similarity(rnd, SetOf(a), SetOf(b)) == rnd(Ratio(|a|, |b|, i))
  {
    IncreasingCardinality(a);
    IncreasingCardinality(b);
    assert a[0] in SetOf(a) && b[0] in SetOf(b);
    SimilarityBySize(rnd, SetOf(a), SetOf(b));
  }

  /** The merge has met `n` common elements so far. */
  ghost predicate Merged(a: seq<nat>, ai: nat, b: seq<nat>, bi: nat, n: nat) {
    Frontier(a, ai, b, bi) && n == |Common(a, ai, b, bi)|
  }

  /** One step of the merge: the smaller head goes, or both if equal. */
  lemma Consume(a: seq<nat>, ai: nat, b: seq<nat>, bi: nat)
    requires Increasing(a) && Increasing(b) && Frontier(a, ai, b, bi) && ai < |a| && bi < |b|
    ensures var n := |Common(a, ai, b, bi)|;
      && (a[ai] < b[bi] ==> Merged(a, ai + 1, b, bi, n))
      && (a[ai] > b[bi] ==> Merged(a, ai, b, bi + 1, n))
      && (a[ai] == b[bi] ==> Merged(a, ai + 1, b, bi + 1, n + 1))
  {
    if a[ai] < b[bi] {
      ConsumeLeft(a, ai, b, bi);
    } else if a[ai] > b[bi] {
      ConsumeRight(a, ai, b, bi);
    } else {
      ConsumeBoth(a, ai, b, bi);
    }
  }

  /** The merge counts the intersection. */
  method CountCommon(a: seq<nat>, b: seq<nat>) returns (i: nat)
    requires Increasing(a) && Increasing(b)
    ensures i == |SetOf(a) * SetOf(b)|
  {
    i := 0;
    var ai: nat, bi: nat := 0, 0;
    while ai < |a| && bi < |b|
      invariant Merged(a, ai, b, bi, i)
      decreases |a| - ai + |b| - bi
    {
      Consume(a, ai, b, bi);
      if a[ai] < b[bi] {
        ai := ai + 1;
      } else if a[ai] > b[bi] {
        bi := bi + 1;
      } else {
        i, ai, bi := i + 1, ai + 1, bi + 1;
      }
    }
    FrontierExhausted(a, ai, b, bi);
  }

  /** The program's similarity is the Jaccard index of the two sets. */
  method ExactJaccard(rnd: real -> real, a: seq<nat>, b: seq<nat>) returns (sim: real)
    requires Increasing(a) && Increasing(b)
    ensures sim == Similarity(rnd, SetOf(a), SetOf(b))
  {
    if |a| == 0 || |b| == 0 {
      assert SetOf(a) == {} || SetOf(b) == {};
      return 0.0;
    }
    var i := CountCommon(a, b);
    SimilarityOfLists(rnd, a, b);
    sim := rnd(Ratio(|a|, |b|, i));
  }
}
