/** The near-duplicate scan (src/db.rs, `find_near_duplicate_with_conn` and
    `dedup_verdict_from_body`): the trigram-count band, the length prefilter, and
    when they drop a duplicate because their own arithmetic is rounded.

    `rnd` is the rounding of one floating-point operation. */
module DedupScan {
  import opened SortedSets
  import opened NearDuplicate

  /** Integers below this are floating-point numbers. */
  const F64_INTEGERS: nat := 0x20_0000_0000_0000

  ghost predicate ExactOnCounts(rnd: real -> real) {
    forall x: real :: 0.0 <= x < F64_INTEGERS as real && x == x.Floor as real ==> rnd(x) == x
  }

  function Smaller(a: nat, b: nat): nat { if a < b then a else b }

  /** The largest similarity that sets of these sizes can have. */
  function Best(a: nat, b: nat): real
    requires a + b > 0
  {
    Ratio(a, b, Smaller(a, b))
  }

  // ------------------------------------------------------- what sizes alone decide

  lemma BestIsBound(rnd: real -> real, x: set<nat>, y: set<nat>)
    requires Monotone(rnd) && x != {} && y != {}
    ensures |x| + |y| > 0 && Similarity(rnd, x, y) <= rnd(Best(|x|, |y|))
  {
    SimilarityBySize(rnd, x, y);
    RatioMonotone(|x|, |y|, |x * y|, Smaller(|x|, |y|));
  }

  // ---------------------------------------------------------------------- the band

  function Ceiling(x: real): int { -((-x).Floor) }

  /** The trigram-count band of the query; a threshold of zero or less lifts it. */
  datatype Band = Between(low: int, high: int) | Everything

  function BandOf(rnd: real -> real, a: nat, threshold: real): Band {
    if a == 0 then Between(0, 0)
    else if threshold <= 0.0 then Everything
    else Between(Ceiling(rnd(threshold * a as real)), rnd(a as real / threshold).Floor)
  }

  predicate Admits(band: Band, b: nat) {
    band.Between? ==> band.low <= b <= band.high
  }

  /** The band admits exactly the sizes between the two rounded bounds. */
  lemma BandMeans(rnd: real -> real, a: nat, b: nat, threshold: real)
    requires a > 0
    ensures Admits(BandOf(rnd, a, threshold), b) <==>
      threshold <= 0.0 || rnd(threshold * a as real) <= b as real <= rnd(a as real / threshold)
  {
    if threshold > 0.0 { CeilingMeans(rnd(threshold * a as real), b); }
  }

  lemma CeilingMeans(x: real, n: int)
    ensures Ceiling(x) <= n <==> x <= n as real
  {}

  /** The band drops rows of this size though they can be near-duplicates. */
  predicate BandLossy(rnd: real -> real, a: nat, b: nat, threshold: real) {
    a > 0 && b > 0 && !Admits(BandOf(rnd, a, threshold), b) && rnd(Best(a, b)) >= threshold
  }

  // ------------------------------------------------------ bodies of any two sizes

  /** Number of Unicode scalar values. */
  const SCALARS: nat := 1_112_064

  /** Sizes that a string of distinct characters can have. */
  const MAX_DISTINCT: nat := SCALARS - 2

  function Scalar(i: nat): char
    requires i < SCALARS
  {
    if i < 0xD800 then i as char else (i + 0x800) as char
  }

  /** The first n scalar values: every window is a new trigram. */
  function Alphabet(n: nat): (s: string)
    requires n <= SCALARS
    ensures |s| == n && forall i :: 0 <= i < n ==> s[i] == Scalar(i)
  {
    seq(n, i requires 0 <= i < n => Scalar(i))
  }

  lemma {:induction false} AlphabetTrigrams(a: nat, b: nat)
    requires a <= b <= MAX_DISTINCT
    ensures |Trigrams(Alphabet(a + 2))| == a && Trigrams(Alphabet(a + 2)) <= Trigrams(Alphabet(b + 2))
    decreases a
  {
    var s, t := Alphabet(a + 2), Alphabet(b + 2);
    forall w | w in Trigrams(s) ensures w in Trigrams(t) {
      var i: nat :| i < |s| - 2 && w == Window(s, i);
      assert w == Window(t, i);
    }
    if a > 0 { OneMoreTrigram(a - 1); AlphabetTrigrams(a - 1, b); } else { assert Trigrams(s) == {}; }
  }

  lemma OneMoreTrigram(a: nat)
    requires a < MAX_DISTINCT
    ensures var w := (Scalar(a), Scalar(a + 1), Scalar(a + 2));
      w !in Trigrams(Alphabet(a + 2)) && Trigrams(Alphabet(a + 3)) == Trigrams(Alphabet(a + 2)) + {w}
  {
    var s, t := Alphabet(a + 2), Alphabet(a + 3);
    forall i: nat | i < a ensures Window(t, i) == Window(s, i) {}
    assert Window(t, a) == (Scalar(a), Scalar(a + 1), Scalar(a + 2));
    forall w | w in Trigrams(s) ensures w in Trigrams(t) && w.0 != Scalar(a) {
      var i: nat :| i < a && w == Window(s, i);
      assert w == Window(t, i);
    }
    forall w | w in Trigrams(t) ensures w in Trigrams(s) || w == Window(t, a) {
      var i: nat :| i < a + 1 && w == Window(t, i);
      if i < a { assert w == Window(s, i); }
    }
  }

  lemma AlphabetOverlap(a: nat, b: nat)
    requires a <= b <= MAX_DISTINCT
    ensures var x, y := Trigrams(Alphabet(a + 2)), Trigrams(Alphabet(b + 2));
      |x| == a && |y| == b && x * y == x && y * x == x
  {
    AlphabetTrigrams(a, b);
    AlphabetTrigrams(b, b);
  }

  /** Two bodies of these sizes that are as similar as sizes allow. */
  lemma AlphabetsAreSimilar(rnd: real -> real, a: nat, b: nat)
    requires 0 < a <= MAX_DISTINCT && 0 < b <= MAX_DISTINCT
    ensures |Trigrams(Alphabet(a + 2))| == a && |Trigrams(Alphabet(b + 2))| == b
    ensures Similarity(rnd, Trigrams(Alphabet(a + 2)), Trigrams(Alphabet(b + 2))) == rnd(Best(a, b))
  {
    if a <= b { AlphabetOverlap(a, b); } else { AlphabetOverlap(b, a); }
    SimilarityBySize(rnd, Trigrams(Alphabet(a + 2)), Trigrams(Alphabet(b + 2)));
  }

  /** A loss needs a ratio that is below the threshold and rounds up to it. */
  lemma LossNeedsRoundingUp(rnd: real -> real, a: nat, b: nat, threshold: real)
    requires Monotone(rnd) && ExactOnCounts(rnd) && a < F64_INTEGERS && b < F64_INTEGERS
    requires BandLossy(rnd, a, b, threshold)
    ensures Best(a, b) < threshold <= rnd(Best(a, b))
  {
    if Ceiling(rnd(threshold * a as real)) > b {
      BelowBand(rnd, a, b, threshold);
    } else {
      AboveBand(rnd, a, b, threshold);
    }
    SmallerOverLarger(a, b, threshold);
  }

  lemma BelowBand(rnd: real -> real, a: nat, b: nat, threshold: real)
    requires Monotone(rnd) && ExactOnCounts(rnd) && b < F64_INTEGERS && Ceiling(rnd(threshold * a as real)) > b
    ensures b as real < threshold * a as real
  {
    var low := threshold * a as real;
    CeilingAbove(rnd(low), b);
    RoundsAbove(rnd, b, low);
  }

  lemma AboveBand(rnd: real -> real, a: nat, b: nat, threshold: real)
    requires Monotone(rnd) && ExactOnCounts(rnd) && b < F64_INTEGERS && threshold > 0.0 &&
      rnd(a as real / threshold).Floor < b
    ensures a as real < threshold * b as real
  {
    var high := a as real / threshold;
    FloorBelow(rnd(high), b);
    RoundsBelow(rnd, b, high);
    ScaledQuotient(a as real, b as real, threshold);
  }

  lemma RoundsAbove(rnd: real -> real, n: nat, x: real)
    requires Monotone(rnd) && ExactOnCounts(rnd) && n < F64_INTEGERS && n as real < rnd(x)
    ensures n as real < x
  {
    assert rnd(n as real) == n as real;
  }

  lemma RoundsBelow(rnd: real -> real, n: nat, x: real)
    requires Monotone(rnd) && ExactOnCounts(rnd) && n < F64_INTEGERS && rnd(x) < n as real
    ensures x < n as real
  {
    assert rnd(n as real) == n as real;
  }

  lemma CeilingAbove(x: real, n: int)
    requires Ceiling(x) > n
    ensures n as real < x
  {}

  lemma FloorBelow(x: real, n: int)
    requires x.Floor < n
    ensures x < n as real
  {}

  lemma SmallerOverLarger(a: nat, b: nat, threshold: real)
    requires a > 0 && b > 0 && (b as real < threshold * a as real || a as real < threshold * b as real)
    ensures Best(a, b) < threshold
  {
    BestAtMostQuotients(a, b);
    if b as real < threshold * a as real {
      QuotientBelow(b as real, a as real, threshold);
    } else {
      QuotientBelow(a as real, b as real, threshold);
    }
  }

  lemma BestAtMostQuotients(a: nat, b: nat)
    requires a > 0 && b > 0
    ensures Best(a, b) <= b as real / a as real && Best(a, b) <= a as real / b as real
  {
    BestIsQuotient(a, b);
    if a < b {
      QuotientMonotone(a as real, b as real, b as real, a as real);
    } else {
      QuotientMonotone(b as real, a as real, a as real, b as real);
    }
  }

  lemma QuotientBelow(x: real, y: real, t: real)
    requires y > 0.0 && x < t * y
    ensures x / y < t
  {
    var q := x / y;
    assert q * y == x;
    if q >= t { ProductOrder(t, q, y); }
  }

  lemma ProductOrder(p: real, q: real, y: real)
    requires p <= q && y >= 0.0
    ensures p * y <= q * y
  {
    assert (q - p) * y >= 0.0;
  }

  lemma ScaledQuotient(x: real, y: real, t: real)
    requires t > 0.0 && x / t < y
    ensures x < t * y
  {
    var q := x / t;
    assert q * t == x;
    assert (y - q) * t > 0.0;
  }

  // --------------------------------------------------------- where rounding decides

  /** y is the integer nearest to x. */
  predicate OnGrid(y: real, x: real) {
    y == y.Floor as real && -0.5 <= y - x <= 0.5
  }

  /** Binary64 rounding to nearest, on the four binades met below: the result is a
      multiple of the unit in the last place and at most half of it away. */
  ghost predicate Binary64(rnd: real -> real) {
    && Monotone(rnd) && ExactOnCounts(rnd)
    && (forall x: real :: 0.5 <= x < 1.0 ==> OnGrid(rnd(x) * 9007199254740992.0, x * 9007199254740992.0))
    && (forall x: real :: 32.0 <= x < 64.0 ==> OnGrid(rnd(x) * 140737488355328.0, x * 140737488355328.0))
    && (forall x: real :: 4.0 <= x < 8.0 ==> OnGrid(rnd(x) * 1125899906842624.0, x * 1125899906842624.0))
    && (forall x: real :: 0.0625 <= x < 0.125 ==> OnGrid(rnd(x) * 72057594037927936.0, x * 72057594037927936.0))
  }

  /** The binary64 numbers nearest to 0.55, 0.07 and 0.7. */
  const T_055: real := 4953959590107546.0 / 9007199254740992.0
  const T_007: real := 5044031582654956.0 / 72057594037927936.0
  const T_07: real := 6305039478318694.0 / 9007199254740992.0

  /** At threshold 0.55 a row of 60 trigrams that holds all 33 of the body is a
      near-duplicate, and the band drops it: 33 / 0.55 rounds below 60. */
  lemma BandLossyAt055(rnd: real -> real)
    requires Binary64(rnd)
    ensures BandLossy(rnd, 33, 60, T_055)
  {
    HighAt055(rnd);
    RatioAt055(rnd);
    assert Best(33, 60) == 33.0 / 60.0;
  }

  lemma HighAt055(rnd: real -> real)
    requires Binary64(rnd)
    ensures rnd(33.0 / T_055) < 60.0
  {
    var q := 33.0 / T_055;
    assert q == 33.0 * 9007199254740992.0 / 4953959590107546.0;
    assert 59.0 < q;
    assert q * 140737488355328.0 < 60.0 * 140737488355328.0 - 0.5;
    assert OnGrid(rnd(q) * 140737488355328.0, q * 140737488355328.0);
  }

  lemma RatioAt055(rnd: real -> real)
    requires Binary64(rnd)
    ensures rnd(33.0 / 60.0) == T_055
  {
    var x := 33.0 / 60.0;
    assert x * 9007199254740992.0 == 4953959590107545.6;
    assert OnGrid(rnd(x) * 9007199254740992.0, x * 9007199254740992.0);
    assert rnd(x) * 9007199254740992.0 == 4953959590107546.0;
  }

  /** At the production threshold no ratio of sizes below 10^15 is rounded up across it. */
  lemma ProductionRatiosAreSafe(rnd: real -> real, p: nat, q: nat)
    requires Binary64(rnd) && 0 < p <= q < 1_000_000_000_000_000 && p as real / q as real < T_07
    ensures rnd(p as real / q as real) < T_07
  {
    var r := p as real / q as real;
    if r >= 0.5 {
      BelowSevenTenths(p, q, r);
      assert OnGrid(rnd(r) * 9007199254740992.0, r * 9007199254740992.0);
    } else {
      assert OnGrid(rnd(0.5) * 9007199254740992.0, 0.5 * 9007199254740992.0);
      assert rnd(r) <= rnd(0.5);
    }
  }

  lemma BelowSevenTenths(p: nat, q: nat, r: real)
    requires 0 < q < 1_000_000_000_000_000 && r == p as real / q as real && r < T_07
    ensures r * 9007199254740992.0 + 0.5 < 6305039478318694.0
  {
    assert r * 9007199254740992.0 < 6305039478318694.0;
    ScaledFraction(p, q, r, 6305039478318694.0);
    assert p * 9007199254740992 < 6305039478318694 * q;
    assert 10 * p < 7 * q;
    if r * 9007199254740992.0 >= 6305039478318693.5 { ScaledFractionAtLeast(p, q, r, 6305039478318693.5); }
  }

  lemma ScaledFraction(p: nat, q: nat, r: real, m: real)
    requires q > 0 && r == p as real / q as real && r * 9007199254740992.0 < m
    ensures p as real * 9007199254740992.0 < m * q as real
  {
    var s := r * 9007199254740992.0;
    assert r * q as real == p as real;
    assert s * q as real == p as real * 9007199254740992.0;
    assert (m - s) * q as real > 0.0;
  }

  lemma ScaledFractionAtLeast(p: nat, q: nat, r: real, m: real)
    requires q > 0 && r == p as real / q as real && r * 9007199254740992.0 >= m
    ensures p as real * 9007199254740992.0 >= m * q as real
  {
    var s := r * 9007199254740992.0;
    assert r * q as real == p as real;
    assert s * q as real == p as real * 9007199254740992.0;
    ProductOrder(m, s, q as real);
  }

  lemma BestIsQuotient(a: nat, b: nat)
    requires a > 0 && b > 0
    ensures Best(a, b) == Smaller(a, b) as real / (if a < b then b else a) as real
  {
    assert a + b - Smaller(a, b) == if a < b then b else a;
  }

  lemma ProductionBandIsLossless(rnd: real -> real, a: nat, b: nat)
    requires Binary64(rnd)
    requires a < 1_000_000_000_000_000 && b < 1_000_000_000_000_000
    ensures !BandLossy(rnd, a, b, T_07)
  {
    if BandLossy(rnd, a, b, T_07) {
      LossNeedsRoundingUp(rnd, a, b, T_07);
      BestIsQuotient(a, b);
      ProductionRatiosAreSafe(rnd, Smaller(a, b), if a < b then b else a);
    }
  }

  // ------------------------------------------------------------------ the prefilter

  /** The length prefilter: `n` bounds the trigrams of the candidate. */
  predicate Prefiltered(rnd: real -> real, n: nat, a: nat, threshold: real) {
    n as real < rnd(threshold * a as real)
  }

  /** The largest similarity a set of size a can have with one of at most n elements. */
  function BestUpTo(n: nat, a: nat): real
    requires a > 0
  {
    Best(a, Smaller(n, a))
  }

  lemma BestGrows(a: nat, b: nat, n: nat)
    requires a > 0 && 0 < b <= n
    ensures Best(a, b) <= BestUpTo(n, a)
  {
    var m := Smaller(n, a);
    if b <= a {
      QuotientMonotone(b as real, a as real, m as real, a as real);
    } else {
      QuotientMonotone(a as real, b as real, a as real, a as real);
    }
  }

  /** A loss needs a ratio that is below the threshold and rounds up to it. */
  lemma PrefilterLossNeedsRoundingUp(rnd: real -> real, n: nat, a: nat, threshold: real)
    requires Monotone(rnd) && ExactOnCounts(rnd) && 0 < n < F64_INTEGERS && a > 0
    requires Prefiltered(rnd, n, a, threshold) && rnd(BestUpTo(n, a)) >= threshold
    ensures BestUpTo(n, a) < threshold <= rnd(BestUpTo(n, a))
  {
    RoundsAbove(rnd, n, threshold * a as real);
    var m := Smaller(n, a);
    assert m as real <= n as real < threshold * a as real;
    SmallerOverLarger(a, m, threshold);
  }

  /** At threshold 0.07 a candidate of 7 trigrams, all among the 100 of the target,
      is a near-duplicate, and the prefilter skips it: 0.07 * 100 rounds above 7. */
  lemma PrefilterLossyAt007(rnd: real -> real)
    requires Binary64(rnd)
    ensures Prefiltered(rnd, 7, 100, T_007) && rnd(BestUpTo(7, 100)) >= T_007
  {
    ProductAt007(rnd);
    RatioAt007(rnd);
    assert BestUpTo(7, 100) == 7.0 / 100.0;
  }

  lemma ProductAt007(rnd: real -> real)
    requires Binary64(rnd)
    ensures 7.0 < rnd(T_007 * 100.0)
  {
    var x := T_007 * 100.0;
    assert x * 1125899906842624.0 == 7881299347898368.75;
    assert OnGrid(rnd(x) * 1125899906842624.0, x * 1125899906842624.0);
  }

  lemma RatioAt007(rnd: real -> real)
    requires Binary64(rnd)
    ensures rnd(7.0 / 100.0) == T_007
  {
    var x := 7.0 / 100.0;
    assert x * 72057594037927936.0 == 5044031582654955.52;
    assert OnGrid(rnd(x) * 72057594037927936.0, x * 72057594037927936.0);
    assert rnd(x) * 72057594037927936.0 == 5044031582654956.0;
  }

  lemma ProductionPrefilterIsLossless(rnd: real -> real, n: nat, a: nat)
    requires Binary64(rnd)
    requires 0 < n < F64_INTEGERS && 0 < a < 1_000_000_000_000_000 && Prefiltered(rnd, n, a, T_07)
    ensures rnd(BestUpTo(n, a)) < T_07
  {
    if rnd(BestUpTo(n, a)) >= T_07 {
      PrefilterLossNeedsRoundingUp(rnd, n, a, T_07);
      BestIsQuotient(a, Smaller(n, a));
      ProductionRatiosAreSafe(rnd, Smaller(n, a), a);
    }
  }

  // ---------------------------------------------------------------------- the scan

  /** What the prefilter of `VerdictFromBody` takes for the trigrams of a candidate. */
  function MaxTrigrams(candidate: string): nat {
    if |candidate| < 2 then 0 else |candidate| - 2
  }

  /** The comparison against a rebuilt trigram set: it is the exact comparison but for
      what the prefilter skips. */
  method VerdictFromBody(rnd: real -> real, target: seq<u64>, candidate: string, threshold: real) returns (dup: bool)
    requires Monotone(rnd) && Increasing(target)
    ensures dup <==> !Prefiltered(rnd, MaxTrigrams(candidate), |target|, threshold)
                     && Similarity(rnd, SetOf(target), SetOf(PackedTrigrams(candidate))) >= threshold
    ensures Binary64(rnd) && threshold == T_07 && 0 < |target| < 1_000_000_000_000_000 && |candidate| < F64_INTEGERS ==>
      (dup <==> Similarity(rnd, SetOf(target), SetOf(PackedTrigrams(candidate))) >= threshold)
  {
    if Prefiltered(rnd, MaxTrigrams(candidate), |target|, threshold) {
      if Binary64(rnd) && threshold == T_07 && 0 < |target| < 1_000_000_000_000_000 && |candidate| < F64_INTEGERS {
        ProductionPrefilterIsExact(rnd, target, candidate);
      }
      return false;
    }
    var sim := ExactJaccard(rnd, target, PackedTrigrams(candidate));
    dup := sim >= threshold;
  }

  /** A candidate whose length keeps the best ratio below the threshold is below it. */
  lemma PrefilterIsLossless(rnd: real -> real, target: seq<u64>, candidate: string, threshold: real)
    requires Monotone(rnd) && Increasing(target) && target != [] && 3 <= |candidate|
    requires rnd(BestUpTo(|candidate| - 2, |target|)) < threshold
    ensures Similarity(rnd, SetOf(target), SetOf(PackedTrigrams(candidate))) < threshold
  {
    TrigramCount(candidate);
    IncreasingCardinality(target);
    IncreasingCardinality(PackedTrigrams(candidate));
    BestIsBound(rnd, SetOf(target), SetOf(PackedTrigrams(candidate)));
    BestGrows(|target|, |PackedTrigrams(candidate)|, |candidate| - 2);
  }

  /** A candidate that the prefilter skips though it reaches the threshold. */
  ghost predicate Skipped(rnd: real -> real, body: string, candidate: string, threshold: real) {
    && Prefiltered(rnd, MaxTrigrams(candidate), |PackedTrigrams(body)|, threshold)
    && Similarity(rnd, SetOf(PackedTrigrams(body)), SetOf(PackedTrigrams(candidate))) >= threshold
  }

  /** The prefilter skips a near-duplicate among candidates of one length exactly when
      the best ratio they can reach does reach the threshold. */
  lemma PrefilterSkipsExactlyWhen(rnd: real -> real, n: nat, a: nat, threshold: real)
    requires Monotone(rnd) && ExactOnCounts(rnd) && 0 < n <= MAX_DISTINCT && 0 < a <= MAX_DISTINCT && threshold > 0.0
    ensures Prefiltered(rnd, n, a, threshold) && rnd(BestUpTo(n, a)) >= threshold <==>
      exists body: string, candidate: string ::
      |PackedTrigrams(body)| == a && |candidate| == n + 2 && Skipped(rnd, body, candidate, threshold)
  {
    if Prefiltered(rnd, n, a, threshold) && rnd(BestUpTo(n, a)) >= threshold {
      ShorterCandidate(rnd, n, a, threshold);
      var body, candidate := SkippedPair(rnd, n, a, threshold);
    } else if Prefiltered(rnd, n, a, threshold) {
      forall body: string, candidate: string | |PackedTrigrams(body)| == a && |candidate| == n + 2
        ensures !Skipped(rnd, body, candidate, threshold)
      {
        PrefilterIsLossless(rnd, PackedTrigrams(body), candidate, threshold);
      }
    }
  }

  /** A loss concerns candidates that are no longer than the target is large. */
  lemma ShorterCandidate(rnd: real -> real, n: nat, a: nat, threshold: real)
    requires Monotone(rnd) && ExactOnCounts(rnd) && 0 < n < F64_INTEGERS && a > 0
    requires Prefiltered(rnd, n, a, threshold) && rnd(BestUpTo(n, a)) >= threshold
    ensures n < a
  {
    assert rnd(1.0) == 1.0 && (a <= n ==> BestUpTo(n, a) == 1.0);
    PrefilterLossNeedsRoundingUp(rnd, n, a, threshold);
  }

  lemma SkippedPair(rnd: real -> real, n: nat, a: nat, threshold: real) returns (body: string, candidate: string)
    requires 0 < n < a <= MAX_DISTINCT && Prefiltered(rnd, n, a, threshold) && rnd(BestUpTo(n, a)) >= threshold
    ensures |PackedTrigrams(body)| == a && |candidate| == n + 2 && Skipped(rnd, body, candidate, threshold)
  {
    body, candidate := Alphabet(a + 2), Alphabet(n + 2);
    AlphabetsAreSimilar(rnd, a, n);
    PackingIsLossless(rnd, Alphabet(a + 2), Alphabet(n + 2));
  }

  /** At threshold 0.07: a body of 100 trigrams and a candidate of 9 characters. */
  lemma PrefilterCanSkipADuplicate(rnd: real -> real) returns (body: string, candidate: string)
    requires Binary64(rnd)
    ensures |PackedTrigrams(body)| == 100 && |candidate| == 9 && Skipped(rnd, body, candidate, T_007)
  {
    PrefilterLossyAt007(rnd);
    body, candidate := SkippedPair(rnd, 7, 100, T_007);
  }

  /** At the production threshold the prefilter skips no near-duplicate. */
  lemma ProductionPrefilterIsExact(rnd: real -> real, target: seq<u64>, candidate: string)
    requires Binary64(rnd) && Increasing(target) && 0 < |target| < 1_000_000_000_000_000 && |candidate| < F64_INTEGERS
    requires Prefiltered(rnd, MaxTrigrams(candidate), |target|, T_07)
    ensures Similarity(rnd, SetOf(target), SetOf(PackedTrigrams(candidate))) < T_07
  {
    if |candidate| < 3 {
      assert SetOf(PackedTrigrams(candidate)) == {};
    } else {
      ProductionPrefilterIsLossless(rnd, |candidate| - 2, |target|);
      PrefilterIsLossless(rnd, target, candidate, T_07);
    }
  }

  /** A near-duplicate that the band lets through. */
  ghost predicate Hit(rnd: real -> real, band: Band, body: string, candidate: string, threshold: real) {
    Admits(band, |PackedTrigrams(candidate)|) && IsNearDuplicate(rnd, body, candidate, threshold)
  }

  ghost function BandFor(rnd: real -> real, body: string, threshold: real): Band {
    BandOf(rnd, |PackedTrigrams(body)|, threshold)
  }

  /** Unless the band is lossy at the two sizes, it lets every near-duplicate through. */
  lemma BandIsLossless(rnd: real -> real, body: string, candidate: string, threshold: real)
    requires Monotone(rnd) && !BandLossy(rnd, |PackedTrigrams(body)|, |PackedTrigrams(candidate)|, threshold)
    ensures Hit(rnd, BandFor(rnd, body, threshold), body, candidate, threshold) <==>
      IsNearDuplicate(rnd, body, candidate, threshold)
  {
    var a, b := PackedTrigrams(body), PackedTrigrams(candidate);
    TrigramCount(body);
    TrigramCount(candidate);
    if |body| >= 3 && !Admits(BandFor(rnd, body, threshold), |b|) {
      PackingIsLossless(rnd, body, candidate);
      if b == [] {
        NothingIsSmall(rnd, a, threshold);
      } else {
        CountBound(rnd, a, b);
      }
    }
  }

  lemma NothingIsSmall(rnd: real -> real, a: seq<nat>, threshold: real)
    requires a != [] && BandOf(rnd, |a|, threshold).Between?
    ensures Similarity(rnd, SetOf(a), SetOf([])) < threshold
  {
    assert SetOf([]) == {};
  }

  /** A near-duplicate of the body that the scan never looks at. */
  ghost predicate Dropped(rnd: real -> real, body: string, candidate: string, threshold: real) {
    IsNearDuplicate(rnd, body, candidate, threshold) &&
      !Hit(rnd, BandFor(rnd, body, threshold), body, candidate, threshold)
  }

  /** The scan drops a near-duplicate among bodies of two sizes exactly when the band is
      lossy at these sizes. */
  lemma BandDropsExactlyWhen(rnd: real -> real, a: nat, b: nat, threshold: real)
    requires Monotone(rnd) && 0 < a <= MAX_DISTINCT && 0 < b <= MAX_DISTINCT
    ensures BandLossy(rnd, a, b, threshold) <==> exists body: string, candidate: string ::
      |PackedTrigrams(body)| == a && |PackedTrigrams(candidate)| == b && Dropped(rnd, body, candidate, threshold)
  {
    if BandLossy(rnd, a, b, threshold) {
      var body, candidate := DroppedPair(rnd, a, b, threshold);
    } else {
      forall body: string, candidate: string | |PackedTrigrams(body)| == a && |PackedTrigrams(candidate)| == b
        ensures !Dropped(rnd, body, candidate, threshold)
      {
        BandIsLossless(rnd, body, candidate, threshold);
      }
    }
  }

  lemma DroppedPair(rnd: real -> real, a: nat, b: nat, threshold: real) returns (body: string, candidate: string)
    requires BandLossy(rnd, a, b, threshold) && a <= MAX_DISTINCT && b <= MAX_DISTINCT
    ensures |PackedTrigrams(body)| == a && |PackedTrigrams(candidate)| == b && Dropped(rnd, body, candidate, threshold)
  {
    body, candidate := Alphabet(a + 2), Alphabet(b + 2);
    AlphabetsAreSimilar(rnd, a, b);
    PackingIsLossless(rnd, Alphabet(a + 2), Alphabet(b + 2));
    PackingIsLossless(rnd, Alphabet(b + 2), Alphabet(a + 2));
  }

  /** At threshold 0.55: a body of 33 trigrams and a row of 60 that holds them all. */
  lemma BandCanDropADuplicate(rnd: real -> real) returns (body: string, candidate: string)
    requires Binary64(rnd)
    ensures |PackedTrigrams(body)| == 33 && |PackedTrigrams(candidate)| == 60 && Dropped(rnd, body, candidate, T_055)
  {
    BandLossyAt055(rnd);
    body, candidate := DroppedPair(rnd, 33, 60, T_055);
  }

  /** In exact arithmetic the band is never lossy. */
  lemma ExactBandIsLossless(a: nat, b: nat, threshold: real)
    requires a < F64_INTEGERS && b < F64_INTEGERS
    ensures !BandLossy((x: real) => x, a, b, threshold)
  {
    var exact := (x: real) => x;
    if BandLossy(exact, a, b, threshold) { LossNeedsRoundingUp(exact, a, b, threshold); }
  }

  /** At the production threshold the scan finds every near-duplicate. */
  lemma ProductionScanIsLossless(rnd: real -> real, body: string, candidate: string)
    requires Binary64(rnd) && |body| < 1_000_000_000_000_000 && |candidate| < 1_000_000_000_000_000
    ensures Hit(rnd, BandFor(rnd, body, T_07), body, candidate, T_07) <==> IsNearDuplicate(rnd, body, candidate, T_07)
  {
    TrigramCount(body);
    TrigramCount(candidate);
    ProductionBandIsLossless(rnd, |PackedTrigrams(body)|, |PackedTrigrams(candidate)|);
    BandIsLossless(rnd, body, candidate, T_07);
  }
}
