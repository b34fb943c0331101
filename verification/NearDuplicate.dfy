/** Stored trigram signatures and the pruned near-duplicate scan that uses them
    (src/dedup.rs; src/db.rs, `find_near_duplicate_with_conn`).

    For a row it tries two cheap bounds before merging signatures, each a quotient of
    counts. The theorem is that, however the quotients are rounded, as long as it is
    done monotonically, the verdict is that of the trigram sets. */
module NearDuplicate {
  import opened Options
  import opened SortedSets
  import opened SigCodec
  import opened SigVerdict
  import opened Histogram
  import opened Text
  import opened Utf8

  // ----------------------------------------------------------- packed trigrams

  type Trigram = (char, char, char)

  /** Three 21-bit scalar values side by side: (c0 << 42) | (c1 << 21) | c2. */
  function Pack(t: Trigram): (p: u64) {
    PackScalars(t.0 as nat, t.1 as nat, t.2 as nat)
  }

  function PackScalars(x: nat, y: nat, z: nat): (p: u64)
    requires x < 0x20_0000 && y < 0x20_0000 && z < 0x20_0000
  {
    x * 0x400_0000_0000 + y * 0x20_0000 + z
  }

  /** The three fields never overlap. */
  lemma PackInjective(t: Trigram, u: Trigram)
    requires Pack(t) == Pack(u)
    ensures t == u
  {
    FieldsReadBack(t.0 as nat, t.1 as nat, t.2 as nat, u.0 as nat, u.1 as nat, u.2 as nat);
  }

  lemma FieldsReadBack(x: nat, y: nat, z: nat, x': nat, y': nat, z': nat)
    requires x < 0x20_0000 && y < 0x20_0000 && z < 0x20_0000 && x' < 0x20_0000 && y' < 0x20_0000 && z' < 0x20_0000
    requires PackScalars(x, y, z) == PackScalars(x', y', z')
    ensures x == x' && y == y' && z == z'
  {
    var low, low' := y * 0x20_0000 + z, y' * 0x20_0000 + z';
    assert low < 0x400_0000_0000 && low' < 0x400_0000_0000;
    assert x == x';
  }

  /** The fields stand where the program shifts them to. */
  lemma PackFields(t: Trigram)
    ensures var p := Pack(t);
      && p / 0x400_0000_0000 == t.0 as nat && p % 0x400_0000_0000 / 0x20_0000 == t.1 as nat
      && p % 0x20_0000 == t.2 as nat
  {
    ScalarsReadBack(t.0 as nat, t.1 as nat, t.2 as nat);
  }

  lemma ScalarsReadBack(x: nat, y: nat, z: nat)
    requires x < 0x20_0000 && y < 0x20_0000 && z < 0x20_0000
    ensures var p := PackScalars(x, y, z);
      p / 0x400_0000_0000 == x && p % 0x400_0000_0000 / 0x20_0000 == y && p % 0x20_0000 == z
  {
    var low := y * 0x20_0000 + z;
    assert low < 0x400_0000_0000 && PackScalars(x, y, z) == x * 0x400_0000_0000 + low;
    assert x * 0x400_0000_0000 + low == (x * 0x20_0000 + y) * 0x20_0000 + z;
  }

  function Window(s: string, i: nat): Trigram
    requires i + 2 < |s|
  {
    (s[i], s[i + 1], s[i + 2])
  }

  /** The character trigrams of a string. */
  ghost function Trigrams(s: string): set<Trigram> {
    set i: nat | i < |s| - 2 :: Window(s, i)
  }

  lemma LargestStaysLast(front: seq<u64>, last: u64, x: u64, r: seq<u64>)
    requires Increasing(front + [last]) && Increasing(r) && x < last && forall y :: y in r <==> y in front || y == x
    ensures Increasing(r + [last])
  {
    forall i | 0 <= i < |r| ensures r[i] < last {
      assert r[i] in r;
      if r[i] in front {
        var j :| 0 <= j < |front| && front[j] == r[i];
        assert (front + [last])[j] < (front + [last])[|front|];
      }
    }
  }

  function Insert(s: seq<u64>, x: u64): (r: seq<u64>)
    requires Increasing(s)
    ensures Increasing(r) && forall y :: y in r <==> y in s || y == x
  {
    if s == [] then [x]
    else
      var front, last := s[..|s| - 1], s[|s| - 1];
      assert s == front + [last];
      if x == last then s
      else if last < x then s + [x]
      else
        var r := Insert(front, x);
        LargestStaysLast(front, last, x, r);
        r + [last]
  }

  /** The packed trigrams of the first n windows, sorted and deduplicated. */
  function PackedWindows(s: string, n: nat): (r: seq<u64>)
    requires n <= |s| - 2 || n == 0
    ensures Increasing(r)
    ensures forall y :: y in r <==> exists i: nat :: i < n && y == Pack(Window(s, i))
  {
    if n == 0 then [] else Insert(PackedWindows(s, n - 1), Pack(Window(s, n - 1)))
  }

  function PackedTrigrams(s: string): (r: seq<u64>)
    ensures Increasing(r)
  {
    if |s| < 3 then [] else PackedWindows(s, |s| - 2)
  }

  lemma PackedIsImage(s: string)
    ensures SetOf(PackedTrigrams(s)) == Packed(Trigrams(s))
  {
    var packed, n := SetOf(PackedTrigrams(s)), if |s| < 3 then 0 else |s| - 2;
    forall y | y in packed ensures y in Packed(Trigrams(s)) {
      var i: nat :| i < n && y == Pack(Window(s, i));
      assert Window(s, i) in Trigrams(s);
    }
    forall y | y in Packed(Trigrams(s)) ensures y in packed {
      var t :| t in Trigrams(s) && y == Pack(t);
      var i: nat :| i < n && t == Window(s, i);
    }
  }

  ghost function Packed(a: set<Trigram>): set<nat> {
    set t | t in a :: Pack(t)
  }

  lemma {:induction false} PackedCardinality(a: set<Trigram>)
    ensures |Packed(a)| == |a|
  {
    if a != {} {
      var t :| t in a;
      PackedCardinality(a - {t});
      forall u | u in a - {t} ensures Pack(u) != Pack(t) { if Pack(u) == Pack(t) { PackInjective(u, t); } }
      assert Packed(a) == Packed(a - {t}) + {Pack(t)};
    }
  }

  lemma PackedIntersection(a: set<Trigram>, b: set<Trigram>)
    ensures Packed(a * b) == Packed(a) * Packed(b)
  {
    forall y | y in Packed(a) * Packed(b) ensures y in Packed(a * b) {
      var t :| t in a && Pack(t) == y;
      var u :| u in b && Pack(u) == y;
      PackInjective(t, u);
    }
  }

  /** Packing loses nothing: sizes and similarities of packed sets are those of
      the trigram sets. */
  lemma PackingIsLossless(rnd: real -> real, s: string, t: string)
    ensures |PackedTrigrams(s)| == |Trigrams(s)|
    ensures Similarity(rnd, SetOf(PackedTrigrams(s)), SetOf(PackedTrigrams(t))) ==
      Similarity(rnd, Trigrams(s), Trigrams(t))
  {
    var a, b := Trigrams(s), Trigrams(t);
    PackedIsImage(s);
    PackedIsImage(t);
    PackedCardinality(a);
    PackedCardinality(b);
    PackedCardinality(a * b);
    PackedIntersection(a, b);
    IncreasingCardinality(PackedTrigrams(s));
    if a != {} && b != {} {
      SimilarityBySize(rnd, a, b);
      SimilarityBySize(rnd, Packed(a), Packed(b));
    } else {
      assert (a == {} ==> Packed(a) == {}) && (b == {} ==> Packed(b) == {});
    }
  }

  // ------------------------------------------------------------ row signatures

  datatype RowSignature = RowSignature(bodyLen: nat, bodyHash: int, tgCount: nat, sig: seq<u8>, histo: Option<seq<u8>>)

  function BucketOf(): nat -> nat {
    (v: nat) => if v < U64_LIMIT then HistoBucket(v) else 0
  }

  /** A signature row that describes this body; `hash` is the content hash. */
  ghost predicate Describes(hash: string -> int, row: RowSignature, body: string) {
    var packed := PackedTrigrams(body);
    && row.bodyLen == Utf8Length(body) && row.bodyHash == hash(body)
    && row.tgCount == |packed| && row.sig == Signature(packed)
    && (row.histo.Some? ==> |row.histo.value| == HISTO_BUCKETS && Counts(BucketOf(), packed, row.histo.value))
    && (row.histo.None? <==> exists j: nat :: j < HISTO_BUCKETS && |InBucket(BucketOf(), packed, j)| > 255)
  }

  /** The signature stores the whole trigram set: its blob decodes to exactly the
      packed trigrams, its count is the number of distinct trigrams and its length that
      of the UTF-8 bytes. */
  method BuildRowSignature(hash: string -> int, body: string) returns (row: RowSignature)
    ensures Describes(hash, row, body)
    ensures row.tgCount == |Trigrams(body)| && row.bodyLen == |Utf8.Encode(body)|
    ensures Decoded(row.sig, row.tgCount) == Some(PackedTrigrams(body))
  {
    var packed := PackedTrigrams(body);
    var sig := EncodeSig(packed);
    var histo := BuildHistogram(BucketOf(), HISTO_BUCKETS, packed);
    row := RowSignature(Utf8Length(body), hash(body), |packed|, sig, histo);
    RoundTrip(packed);
    EncodedLength(body);
    PackingIsLossless((x: real) => x, body, body);
  }

  // ---------------------------------------------------------------- the ladder

  /** The exhaustive comparison: byte-identical bodies when the new body has no
      trigrams, otherwise Jaccard similarity of the trigram sets. */
  ghost predicate IsNearDuplicate(rnd: real -> real, body: string, candidate: string, threshold: real) {
    if |body| < 3 then candidate == body
    else Similarity(rnd, Trigrams(body), Trigrams(candidate)) >= threshold
  }

  /** Any proper bound on the intersection bounds the similarity. */
  lemma SimilarityCeiling(rnd: real -> real, a: seq<nat>, b: seq<nat>, m: nat)
    requires Monotone(rnd) && Increasing(a) && Increasing(b) && a != [] && b != []
    requires |SetOf(a) * SetOf(b)| <= m <= |a| && m <= |b|
    ensures Similarity(rnd, SetOf(a), SetOf(b)) <= rnd(Ratio(|a|, |b|, m))
  {
    SimilarityOfLists(rnd, a, b);
    RatioMonotone(|a|, |b|, |SetOf(a) * SetOf(b)|, m);
  }

  /** Similarity never exceeds the ratio of the smaller to the larger set. */
  lemma CountBound(rnd: real -> real, a: seq<nat>, b: seq<nat>)
    requires Monotone(rnd) && Increasing(a) && Increasing(b) && a != [] && b != []
    ensures var m := if |a| < |b| then |a| else |b|;
      Similarity(rnd, SetOf(a), SetOf(b)) <= rnd(Ratio(|a|, |b|, m))
  {
    SimilarityOfLists(rnd, a, b);
    SimilarityCeiling(rnd, a, b, if |a| < |b| then |a| else |b|);
  }

  /** The histogram test on two count vectors. If they are the counts of the two sets,
      it rejects only candidates below the threshold. */
  method HistogramRejects(rnd: real -> real, target: seq<u64>, th: seq<u8>, ghost cand: seq<u64>, ch: seq<u8>, b: nat,
                          threshold: real)
    returns (reject: bool)
    requires Monotone(rnd) && Increasing(target) && Increasing(cand) && target != [] && b > 0
    requires |th| == |ch| == HISTO_BUCKETS && Counts(BucketOf(), target, th)
    ensures reject && b == |cand| && Counts(BucketOf(), cand, ch) ==>
      Similarity(rnd, SetOf(target), SetOf(cand)) < threshold
  {
    var a := |target|;
    var min := if a < b then a else b;
    var ceiling := Histogram.IntersectionCeiling(th, ch);
    var s := if ceiling < min then ceiling else min;
    if b == |cand| && Counts(BucketOf(), cand, ch) {
      CeilingIsLossless(BucketOf(), target, cand, th, ch);
      SimilarityOfLists(rnd, target, cand);
      SimilarityCeiling(rnd, target, cand, s);
    }
    reject := rnd(Ratio(a, b, s)) < threshold;
  }

  /** The blob is missing, the one that was stored, or damaged beyond decoding. */
  ghost predicate BlobOk(row: RowSignature, blob: Option<seq<u8>>) {
    blob == None || blob == Some(row.sig) || Decoded(blob.value, row.tgCount) == None
  }

  /** A damaged blob whose undamaged start already looks hopeless. */
  ghost predicate Misleads(rnd: real -> real, target: seq<u64>, row: RowSignature, blob: Option<seq<u8>>,
                           threshold: real) {
    && blob.Some? && Decoded(blob.value, row.tgCount) == None
    && exists k :: 0 <= k <= row.tgCount && HopelessAt(rnd, target, blob.value, k, row.tgCount, threshold)
  }

  /** What a verdict of the signature alone is worth for the body it describes: it is
      exact with its blob, a yes is always right, and a no unless a damaged blob misleads. */
  ghost predicate VerdictHolds(rnd: real -> real, target: seq<u64>, row: RowSignature, blob: Option<seq<u8>>,
                               candidate: string, threshold: real, r: Option<bool>) {
    var dup := Similarity(rnd, SetOf(target), SetOf(PackedTrigrams(candidate))) >= threshold;
    && (blob == Some(row.sig) ==> r == Some(dup))
    && (r == Some(true) ==> dup)
    && (r == Some(false) && dup ==> Misleads(rnd, target, row, blob, threshold))
  }

  /** The signature verdict on its metadata and blob (src/db.rs:9003-9047), for any row;
      `candidate` is a body that the row may or may not describe. */
  method SignatureVerdict(hash: string -> int, rnd: real -> real, target: seq<u64>, targetHisto: Option<seq<u8>>,
                          row: RowSignature, blob: Option<seq<u8>>, ghost candidate: string, threshold: real)
    returns (r: Option<bool>)
    requires Monotone(rnd) && Increasing(target) && target != []
    requires targetHisto.Some? ==> |targetHisto.value| == HISTO_BUCKETS && Counts(BucketOf(), target, targetHisto.value)
    ensures Describes(hash, row, candidate) && BlobOk(row, blob) ==>
      VerdictHolds(rnd, target, row, blob, candidate, threshold, r)
  {
    ghost var cand := PackedTrigrams(candidate);
    var a, b := |target|, row.tgCount;
    if b == 0 {
      assert |cand| == 0 ==> SetOf(cand) == {};
      return Some(0.0 >= threshold);
    }
    if |cand| == b { CountBound(rnd, target, cand); }
    if rnd(Ratio(a, b, if a < b then a else b)) < threshold {
      return Some(false);
    }
    if targetHisto.Some? && row.histo.Some? && |row.histo.value| == |targetHisto.value| {
      var reject := HistogramRejects(rnd, target, targetHisto.value, cand, row.histo.value, b, threshold);
      if reject {
        return Some(false);
      }
    }
    if blob == None {
      return None;
    }
    r := JaccardVerdict(rnd, target, blob.value, b, threshold);
    if Describes(hash, row, candidate) && blob == Some(row.sig) {
      StoredSignatureIsLossless(rnd, target, cand, threshold, r);
    }
  }

  /** A string has trigrams exactly when it has three characters, and never more
      than its windows. */
  lemma TrigramCount(s: string)
    ensures |PackedTrigrams(s)| == 0 <==> |s| < 3
    ensures |s| >= 3 ==> |PackedTrigrams(s)| <= |s| - 2
  {
    if |s| >= 3 {
      WindowCount(s, |s| - 2);
      assert Pack(Window(s, 0)) in PackedTrigrams(s);
    }
  }

  lemma {:induction false} WindowCount(s: string, n: nat)
    requires n <= |s| - 2
    ensures |PackedWindows(s, n)| <= n
  {
    if n > 0 {
      WindowCount(s, n - 1);
      InsertLength(PackedWindows(s, n - 1), Pack(Window(s, n - 1)));
    }
  }

  lemma {:induction false} InsertLength(s: seq<u64>, x: u64)
    requires Increasing(s)
    ensures |Insert(s, x)| <= |s| + 1
  {
    if s != [] { InsertLength(s[..|s| - 1], x); }
  }
}
