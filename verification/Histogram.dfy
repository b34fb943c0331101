/** Bucket histograms of packed trigram sets and the intersection ceiling they
    give (src/dedup.rs, `histogram` and `histo_intersection_ceiling`). The
    reasoning holds for every bucket function. */
module Histogram {
  import opened Sets
  import opened Options
  import opened SortedSets
  import opened SigCodec

  const HISTO_BUCKETS: nat := 256

  /** Fibonacci hashing: the top byte of the wrapped product with the 64-bit
      golden ratio. */
  function HistoBucket(v: u64): (b: nat)
    ensures b < HISTO_BUCKETS
  {
    v * 0x9E37_79B9_7F4A_7C15 % U64_LIMIT / 0x100_0000_0000_0000
  }

  /** Elements of s that fall into bucket j. */
  ghost function InBucket(bucket: nat -> nat, s: seq<nat>, j: nat): set<nat> {
    set x | x in s && bucket(x) == j
  }

  lemma InBucketAppend(bucket: nat -> nat, s: seq<nat>, v: nat, j: nat)
    requires v !in s
    ensures |InBucket(bucket, s + [v], j)| == |InBucket(bucket, s, j)| + if bucket(v) == j then 1 else 0
  {
    if bucket(v) == j {
      assert InBucket(bucket, s + [v], j) == InBucket(bucket, s, j) + {v};
    } else {
      assert InBucket(bucket, s + [v], j) == InBucket(bucket, s, j);
    }
  }

  /** h counts the elements of s per bucket. */
  ghost predicate Counts(bucket: nat -> nat, s: seq<nat>, h: seq<nat>) {
    forall j: nat :: j < |h| ==> h[j] == |InBucket(bucket, s, j)|
  }

  /** The occupancy histogram, or None exactly when a bucket would overflow a
      byte. */
  method BuildHistogram(bucket: nat -> nat, n: nat, s: seq<nat>) returns (r: Option<seq<u8>>)
    requires Increasing(s) && forall x: nat :: x in s ==> bucket(x) < n
    ensures r.Some? ==> |r.value| == n && Counts(bucket, s, r.value)
    ensures r.None? <==> exists j: nat :: j < n && |InBucket(bucket, s, j)| > 255
  {
    var h: seq<u8> := seq(n, _ => 0);
    EmptyCounts(bucket, h);
    for k := 0 to |s|
      invariant |h| == n && Counts(bucket, s[..k], h)
    {
      var b := bucket(s[k]);
      CountOneMore(bucket, s, k, h);
      if h[b] == 255 {
        return None;
      }
      h := h[b := h[b] + 1];
    }
    assert s[..|s|] == s;
    r := Some(h);
  }

  lemma EmptyCounts(bucket: nat -> nat, h: seq<nat>)
    requires forall j :: 0 <= j < |h| ==> h[j] == 0
    ensures Counts(bucket, [], h)
  {
    assert forall j: nat :: InBucket(bucket, [], j) == {};
  }

  /** The next element raises one count by one. */
  lemma CountOneMore(bucket: nat -> nat, s: seq<nat>, k: nat, h: seq<nat>)
    requires Increasing(s) && k < |s| && bucket(s[k]) < |h| && Counts(bucket, s[..k], h)
    ensures var b := bucket(s[k]);
      Counts(bucket, s[..k + 1], h[b := h[b] + 1]) && h[b] + 1 <= |InBucket(bucket, s, b)|
  {
    var v, b := s[k], bucket(s[k]);
    assert s[..k + 1] == s[..k] + [v];
    forall j: nat ensures |InBucket(bucket, s[..k + 1], j)| == |InBucket(bucket, s[..k], j)| + if b == j then 1 else 0 {
      InBucketAppend(bucket, s[..k], v, j);
    }
    SubsetCardinality(InBucket(bucket, s[..k + 1], b), InBucket(bucket, s, b));
  }

  /** Sum over the buckets of the smaller of the two counts. */
  function MinSum(ha: seq<nat>, hb: seq<nat>): nat
    requires |ha| == |hb|
  {
    if ha == [] then 0
    else
      var n := |ha| - 1;
      MinSum(ha[..n], hb[..n]) + if ha[n] < hb[n] then ha[n] else hb[n]
  }

  ghost function CommonIn(bucket: nat -> nat, a: seq<nat>, b: seq<nat>, n: nat): set<nat> {
    set x | x in SetOf(a) * SetOf(b) && bucket(x) < n
  }

  /** Common elements in the first n buckets are bounded bucket by bucket. */
  lemma {:induction false} CommonBelow(bucket: nat -> nat, a: seq<nat>, b: seq<nat>, ha: seq<nat>, hb: seq<nat>)
    requires |ha| == |hb| && Counts(bucket, a, ha) && Counts(bucket, b, hb)
    ensures |CommonIn(bucket, a, b, |ha|)| <= MinSum(ha, hb)
  {
    if ha == [] {
      assert CommonIn(bucket, a, b, 0) == {};
    } else {
      var n := |ha| - 1;
      CommonBelow(bucket, a, b, ha[..n], hb[..n]);
      var below, here := CommonIn(bucket, a, b, n), InBucket(bucket, a, n) * InBucket(bucket, b, n);
      assert CommonIn(bucket, a, b, n + 1) == below + here;
      CardinalityOfUnion(below, here);
      SubsetCardinality(here, InBucket(bucket, a, n));
      SubsetCardinality(here, InBucket(bucket, b, n));
    }
  }

  /** The min-sum of two histograms never understates the intersection. */
  lemma CeilingIsLossless(bucket: nat -> nat, a: seq<nat>, b: seq<nat>, ha: seq<nat>, hb: seq<nat>)
    requires |ha| == |hb| && Counts(bucket, a, ha) && Counts(bucket, b, hb)
    requires forall x: nat :: x in a ==> bucket(x) < |ha|
    ensures |SetOf(a) * SetOf(b)| <= MinSum(ha, hb)
  {
    CommonBelow(bucket, a, b, ha, hb);
    assert CommonIn(bucket, a, b, |ha|) == SetOf(a) * SetOf(b);
  }

  /** `histo_intersection_ceiling` as a loop over both byte strings. */
  method IntersectionCeiling(ha: seq<u8>, hb: seq<u8>) returns (sum: nat)
    requires |ha| == |hb|
    ensures sum == MinSum(ha, hb)
  {
    sum := 0;
    for j := 0 to |ha|
      invariant sum == MinSum(ha[..j], hb[..j])
    {
      assert ha[..j + 1][..j] == ha[..j] && hb[..j + 1][..j] == hb[..j];
      sum := sum + if ha[j] < hb[j] then ha[j] else hb[j];
    }
    assert ha[..|ha|] == ha && hb[..|hb|] == hb;
  }
}
