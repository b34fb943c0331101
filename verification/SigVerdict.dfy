/** The near-duplicate verdict from a stored signature, with early abandon
    (src/dedup.rs, `jaccard_verdict_from_sig`). */
module SigVerdict {
  import opened Sets
  import opened Options
  import opened SortedSets
  import opened SigCodec

  /** The target has been consumed up to ai against the decoded prefix p: what
      remains lies above p, what was consumed does not lie above its last value. */
  ghost predicate Swept(t: seq<nat>, ai: nat, p: seq<nat>) {
    && ai <= |t|
    && (forall k, j :: ai <= k < |t| && 0 <= j < |p| ==> p[j] < t[k])
    && (forall k :: 0 <= k < ai ==> |p| > 0 && t[k] <= p[|p| - 1])
  }

  ghost function Shared(t: seq<nat>, ai: nat, p: seq<nat>): set<nat>
    requires ai <= |t|
  {
    SetOf(t[..ai]) * SetOf(p)
  }

  /** The target is swept up to ai, and i values were shared so far. */
  ghost predicate Tracks(t: seq<nat>, ai: nat, p: seq<nat>, i: nat) {
    Swept(t, ai, p) && i == |Shared(t, ai, p)|
  }

  lemma SetOfAppend(p: seq<nat>, v: nat)
    ensures SetOf(p + [v]) == SetOf(p) + {v}
  {}

  /** Skipping target elements below v neither reaches the prefix nor v. */
  lemma SkipBelow(t: seq<nat>, ai: nat, aj: nat, p: seq<nat>, v: nat)
    requires Increasing(t) && Increasing(p + [v]) && Swept(t, ai, p)
    requires ai <= aj <= |t| && (forall k :: ai <= k < aj ==> t[k] < v)
    ensures Shared(t, aj, p + [v]) == Shared(t, ai, p)
  {
    SetOfAppend(p, v);
    assert t[..aj] == t[..ai] + t[ai..aj];
    assert v !in SetOf(t[..aj]) by {
      forall k | 0 <= k < aj ensures t[k] < v {
        if k < ai { assert t[k] <= p[|p| - 1] == (p + [v])[|p| - 1] < (p + [v])[|p|]; }
      }
    }
    forall x | x in SetOf(t[ai..aj]) ensures x !in SetOf(p) {}
  }

  /** The target elements below aj, and at most one hit at aj, do not lie above v. */
  lemma SweptStep(t: seq<nat>, ai: nat, aj: nat, ak: nat, p: seq<nat>, v: nat)
    requires Increasing(t) && Increasing(p + [v]) && Swept(t, ai, p)
    requires ai <= aj <= ak <= |t| && (forall k :: ai <= k < aj ==> t[k] < v)
    requires ak == aj || (ak == aj + 1 && t[aj] == v)
    requires ak < |t| ==> v < t[ak]
    ensures Swept(t, ak, p + [v])
  {
    var q := p + [v];
    forall k | 0 <= k < ak ensures t[k] <= q[|q| - 1] {
      if k < ai { assert t[k] <= p[|p| - 1] == q[|p| - 1] < q[|p|]; }
    }
    forall k, j | ak <= k < |t| && 0 <= j < |q| ensures q[j] < t[k] {
      assert j < |p| ==> q[j] < q[|p|];
    }
  }

  /** One decoded value: the sweep advances past it and counts a hit. */
  lemma SweepStep(t: seq<nat>, ai: nat, aj: nat, p: seq<nat>, v: nat, i: nat, hit: bool)
    requires Increasing(t) && Increasing(p + [v]) && Tracks(t, ai, p, i) && (hit <==> aj < |t| && t[aj] == v)
    requires ai <= aj <= |t| && (forall k :: ai <= k < aj ==> t[k] < v) && (aj < |t| ==> v <= t[aj])
    ensures Tracks(t, if hit then aj + 1 else aj, p + [v], if hit then i + 1 else i)
  {
    SkipBelow(t, ai, aj, p, v);
    if hit {
      SweptStep(t, ai, aj, aj + 1, p, v);
      HitAdds(t, aj, p, v);
    } else {
      SweptStep(t, ai, aj, aj, p, v);
    }
  }

  lemma HitAdds(t: seq<nat>, aj: nat, p: seq<nat>, v: nat)
    requires Increasing(t) && aj < |t| && t[aj] == v
    ensures |Shared(t, aj + 1, p + [v])| == |Shared(t, aj, p + [v])| + 1
  {
    TakePrefix(t, aj);
    assert v in p + [v];
    assert Shared(t, aj + 1, p + [v]) == Shared(t, aj, p + [v]) + {v};
    assert v !in SetOf(t[..aj]);
  }

  lemma SharedOrRemaining(t: seq<nat>, ai: nat, p: seq<nat>, s: seq<nat>, x: nat)
    requires Increasing(t) && Increasing(s) && Swept(t, ai, p) && p <= s
    requires x in t && x in s
    ensures x in Shared(t, ai, p) || (x in t[ai..] && x in s[|p|..])
  {
    var i :| 0 <= i < |t| && t[i] == x;
    var j :| 0 <= j < |s| && s[j] == x;
    if i < ai {
      assert t[..ai][i] == x && x <= p[|p| - 1] == s[|p| - 1];
      assert j < |p| && p[j] == x;
    } else {
      assert t[ai..][i - ai] == x;
      assert j >= |p|;
      assert s[|p|..][j - |p|] == x;
    }
  }

  /** No completion of the decoded prefix can share more than i plus what is
      left of the shorter side. */
  lemma IntersectionCeiling(t: seq<nat>, ai: nat, p: seq<nat>, s: seq<nat>)
    requires Increasing(t) && Increasing(s) && Swept(t, ai, p) && p <= s
    ensures |SetOf(t) * SetOf(s)| <= |Shared(t, ai, p)| + (|t| - ai)
    ensures |SetOf(t) * SetOf(s)| <= |Shared(t, ai, p)| + (|s| - |p|)
  {
    var shared, restT, restS := Shared(t, ai, p), SetOf(t[ai..]), SetOf(s[|p|..]);
    forall x | x in SetOf(t) * SetOf(s) ensures x in shared + restT * restS { SharedOrRemaining(t, ai, p, s, x); }
    SubsetCardinality(SetOf(t) * SetOf(s), shared + restT * restS);
    CardinalityOfUnion(shared, restT * restS);
    CardinalityOfUnion(restT, restS);
    IncreasingCardinality(t[ai..]);
    IncreasingCardinality(s[|p|..]);
  }

  /** Every increasing list of b values that starts with p stays below the
      threshold. */
  ghost predicate Hopeless(rnd: real -> real, t: seq<nat>, p: seq<nat>, b: nat, threshold: real) {
    forall s: seq<nat> :: Increasing(s) && |s| == b && p <= s ==> Similarity(rnd, SetOf(t), SetOf(s)) < threshold
  }

  lemma AbandonIsSound(rnd: real -> real, t: seq<nat>, ai: nat, p: seq<nat>, b: nat, m: nat, threshold: real)
    requires Monotone(rnd) && Increasing(t) && t != [] && 0 < b && |p| <= b && Swept(t, ai, p)
    requires m <= |t| && m <= b && rnd(Ratio(|t|, b, m)) < threshold
    requires m == |Shared(t, ai, p)| + (if |t| - ai < b - |p| then |t| - ai else b - |p|)
    ensures Hopeless(rnd, t, p, b, threshold)
  {
    forall s: seq<nat> | Increasing(s) && |s| == b && p <= s ensures Similarity(rnd, SetOf(t), SetOf(s)) < threshold {
      IntersectionCeiling(t, ai, p, s);
      SimilarityOfLists(rnd, t, s);
      RatioMonotone(|t|, b, |SetOf(t) * SetOf(s)|, m);
    }
  }

  /** The bound the program tests is a proper intersection size. */
  lemma BoundIsProper(t: seq<nat>, ai: nat, p: seq<nat>, b: nat)
    requires Increasing(t) && Increasing(p) && ai <= |t| && |p| <= b
    ensures |Shared(t, ai, p)| + (if |t| - ai < b - |p| then |t| - ai else b - |p|) <= |t|
    ensures |Shared(t, ai, p)| + (if |t| - ai < b - |p| then |t| - ai else b - |p|) <= b
  {
    CardinalityOfUnion(SetOf(t[..ai]), SetOf(p));
    IncreasingCardinality(t[..ai]);
    IncreasingCardinality(p);
  }

  /** What the program may answer. A well-formed blob gets exactly the verdict of
      the exhaustive comparison. A malformed one is reported, or rejected on a
      decoded prefix that no completion could rescue; it is never accepted. */
  ghost predicate VerdictSpec(rnd: real -> real, t: seq<nat>, blob: seq<u8>, b: nat, threshold: real, r: Option<bool>) {
    if |t| == 0 || b == 0 then r == Some(0.0 >= threshold)
    else
      match Decoded(blob, b)
      case Some(s) => r == Some(Similarity(rnd, SetOf(t), SetOf(s)) >= threshold)
      case None =>
        r == None || (r == Some(false) && exists k :: 0 <= k <= b && HopelessAt(rnd, t, blob, k, b, threshold))
  }

  ghost predicate HopelessAt(rnd: real -> real, t: seq<nat>, blob: seq<u8>, k: nat, b: nat, threshold: real) {
    Decode(blob, k).Some? && Hopeless(rnd, t, Decode(blob, k).value.0, b, threshold)
  }

  lemma AbandonMeetsSpec(rnd: real -> real, t: seq<nat>, blob: seq<u8>, k: nat, b: nat, threshold: real)
    requires t != [] && 0 < b && k <= b && HopelessAt(rnd, t, blob, k, b, threshold)
    ensures VerdictSpec(rnd, t, blob, b, threshold, Some(false))
  {
    if Decoded(blob, b).Some? {
      DecodeExtends(blob, k, b);
    }
  }

  lemma MalformedMeetsSpec(rnd: real -> real, t: seq<nat>, blob: seq<u8>, k: nat, b: nat, threshold: real)
    requires t != [] && 0 < b && k <= b && Decode(blob, k) == None
    ensures VerdictSpec(rnd, t, blob, b, threshold, None)
  {
    if Decode(blob, b).Some? { DecodeExtends(blob, k, b); }
  }

  /** All b values decoded: what the program answers last. */
  method Conclude(rnd: real -> real, target: seq<nat>, ghost blob: seq<u8>, ghost p: seq<u64>,
                  exhausted: bool, i: nat, ghost ai: nat, b: nat, threshold: real) returns (r: Option<bool>)
    requires Increasing(target) && target != [] && 0 < b
    requires Decode(blob, b).Some? && p == Decode(blob, b).value.0 &&
      exhausted == (Decode(blob, b).value.1.pos >= |blob|)
    requires Tracks(target, ai, p, i)
    ensures VerdictSpec(rnd, target, blob, b, threshold, r)
  {
    if !exhausted {
      return None;
    }
    CompleteSweep(rnd, target, ai, p);
    r := Some(rnd(Ratio(|target|, b, i)) >= threshold);
  }

  lemma CompleteSweep(rnd: real -> real, t: seq<nat>, ai: nat, s: seq<nat>)
    requires Increasing(t) && Increasing(s) && t != [] && s != [] && Swept(t, ai, s)
    ensures var i := |Shared(t, ai, s)|;
      && i <= |t| && i <= |s|
      && Similarity(rnd, SetOf(t), SetOf(s)) == rnd(Ratio(|t|, |s|, i))
  {
    SharedIsAll(t, ai, s);
    SimilarityOfLists(rnd, t, s);
  }

  lemma SharedIsAll(t: seq<nat>, ai: nat, s: seq<nat>)
    requires Increasing(t) && Increasing(s) && Swept(t, ai, s)
    ensures Shared(t, ai, s) == SetOf(t) * SetOf(s)
  {
    forall x | x in SetOf(t) * SetOf(s) ensures x in Shared(t, ai, s) { SharedOrRemaining(t, ai, s, s, x); }
    forall x | x in Shared(t, ai, s) ensures x in SetOf(t) {}
  }

  /** The first target position at or after ai0 that is not below v. */
  method SkipTo(target: seq<nat>, ai0: nat, v: nat) returns (ai: nat)
    requires ai0 <= |target|
    ensures ai0 <= ai <= |target| && (forall k :: ai0 <= k < ai ==> target[k] < v)
    ensures ai < |target| ==> v <= target[ai]
  {
    ai := ai0;
    while ai < |target| && target[ai] < v
      invariant ai0 <= ai <= |target| && forall k :: ai0 <= k < ai ==> target[k] < v
    {
      ai := ai + 1;
    }
  }

  /** The early-abandon test: it fires only when the verdict is already settled. */
  method MustAbandon(rnd: real -> real, target: seq<nat>, ghost blob: seq<u8>, ghost p: seq<u64>,
                     i: nat, ai: nat, seenB: nat, b: nat, threshold: real) returns (stop: bool)
    requires Monotone(rnd) && Increasing(target) && target != [] && 0 < b
    requires Decode(blob, seenB).Some? && p == Decode(blob, seenB).value.0 && seenB <= b
    requires Tracks(target, ai, p, i)
    ensures stop ==> VerdictSpec(rnd, target, blob, b, threshold, Some(false))
  {
    var a := |target|;
    var m := i + if a - ai < b - seenB then a - ai else b - seenB;
    BoundIsProper(target, ai, p, b);
    stop := rnd(Ratio(a, b, m)) < threshold;
    if stop {
      AbandonIsSound(rnd, target, ai, p, b, m, threshold);
      AbandonMeetsSpec(rnd, target, blob, seenB, b, threshold);
    }
  }

  /** The target pointer skips to a decoded value and passes it if it is there. */
  method MatchValue(target: seq<nat>, ghost p: seq<u64>, v: u64, i0: nat, ai0: nat) returns (i: nat, ai: nat)
    requires Increasing(target) && Increasing(p + [v]) && Tracks(target, ai0, p, i0)
    ensures Tracks(target, ai, p + [v], i)
  {
    var aj := SkipTo(target, ai0, v);
    var hit := aj < |target| && target[aj] == v;
    SweepStep(target, ai0, aj, p, v, i0, hit);
    i, ai := if hit then i0 + 1 else i0, if hit then aj + 1 else aj;
  }

  /** One candidate value: decode it, skip the target elements below it and
      count it if it is the next target element. */
  method Advance(dec: SigDecoder, target: seq<nat>, ghost p: seq<u64>, i0: nat, ai0: nat)
    returns (v: Option<u64>, i: nat, ai: nat)
    requires Increasing(target) && Decode(dec.buf, |p|) == Some((p, dec.State()))
    requires Tracks(target, ai0, p, i0)
    modifies dec
    ensures v == None <==> Decode(dec.buf, |p| + 1) == None
    ensures v.Some? ==> Decode(dec.buf, |p| + 1) == Some((p + [v.value], dec.State()))
    ensures v.Some? ==> Tracks(target, ai, p + [v.value], i)
  {
    i, ai := i0, ai0;
    DecodeOneMore(dec.buf, p, dec.State());
    v := dec.NextValue();
    if v.Some? {
      i, ai := MatchValue(target, p, v.value, i0, ai0);
    }
  }

  /** The merge loop over the decoded values. */
  method StreamVerdict(rnd: real -> real, target: seq<nat>, dec: SigDecoder, b: nat, threshold: real)
    returns (r: Option<bool>)
    requires Monotone(rnd) && Increasing(target) && target != [] && 0 < b && dec.State() == START
    modifies dec
    ensures VerdictSpec(rnd, target, dec.buf, b, threshold, r)
  {
    var i: nat, ai: nat, seenB: nat := 0, 0, 0;
    ghost var p: seq<u64> := [];
    assert Shared(target, 0, p) == {};
    while seenB < b
      invariant seenB <= b
      invariant |p| == seenB && Decode(dec.buf, seenB) == Some((p, dec.State()))
      invariant Tracks(target, ai, p, i)
    {
      var v;
      v, i, ai := Advance(dec, target, p, i, ai);
      if v == None {
        MalformedMeetsSpec(rnd, target, dec.buf, seenB + 1, b, threshold);
        return None;
      }
      seenB := seenB + 1;
      p := p + [v.value];
      var stop := MustAbandon(rnd, target, dec.buf, p, i, ai, seenB, b, threshold);
      if stop {
        return Some(false);
      }
    }
    r := Conclude(rnd, target, dec.buf, p, dec.Exhausted(), i, ai, b, threshold);
  }

  /** The streaming verdict with early abandon; a yes certifies the blob. */
  method JaccardVerdict(rnd: real -> real, target: seq<nat>, blob: seq<u8>, candCount: nat, threshold: real)
    returns (r: Option<bool>)
    requires Monotone(rnd) && Increasing(target)
    ensures VerdictSpec(rnd, target, blob, candCount, threshold, r)
    ensures target != [] && candCount > 0 ==> (r == Some(true) <==>
      Decoded(blob, candCount).Some? &&
        Similarity(rnd, SetOf(target), SetOf(Decoded(blob, candCount).value)) >= threshold)
  {
    if |target| == 0 || candCount == 0 {
      return Some(0.0 >= threshold);
    }
    var dec := new SigDecoder(blob);
    r := StreamVerdict(rnd, target, dec, candCount, threshold);
  }

  /** On a signature the program itself encoded, the verdict is exactly that of
      the exhaustive scan: early abandon loses nothing. */
  lemma StoredSignatureIsLossless(rnd: real -> real, t: seq<nat>, s: seq<u64>, threshold: real, r: Option<bool>)
    requires Increasing(t) && Increasing(s)
    requires VerdictSpec(rnd, t, Signature(s), |s|, threshold, r)
    ensures r == Some(Similarity(rnd, SetOf(t), SetOf(s)) >= threshold)
  {
    RoundTrip(s);
    if |t| == 0 { assert SetOf(t) == {}; }
    if |s| == 0 { assert SetOf(s) == {}; }
  }
}
