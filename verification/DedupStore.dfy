/** The near-duplicate scan over stored signatures (src/db.rs,
    `find_near_duplicate_with_conn` and `flush_dedup_sig_backfill`). Signatures are a
    cache: entities may have been rewritten, moved, archived or deleted since, and
    blobs may be missing or damaged. A candidate is verified against its entity only
    when its signature does not rule it out, and what the scan finds out of date is
    repaired or evicted after it. */
module DedupStore {
  import opened Options
  import opened Text
  import opened SortedSets
  import opened SigCodec
  import opened Histogram
  import opened NearDuplicate
  import opened DedupScan

  /** An entity, with its body as the scan compares it. */
  datatype Entity = Entity(body: string, category: string, workspace: string, archived: bool)

  datatype SignatureRow =
    SignatureRow(id: string, category: string, workspace: string, signature: RowSignature, blob: Option<seq<u8>>)

  datatype Healing = Keep | Evict | Repair(signature: RowSignature)

  datatype Scope = Scope(category: string, workspace: string)

  predicate Eligible(e: Option<Entity>, scope: Scope) {
    e.Some? && !e.value.archived && e.value.category == scope.category && e.value.workspace == scope.workspace
  }

  /** The freshness guard: length and hash agree with the current body. */
  predicate Fresh(hash: string -> int, row: RowSignature, body: string) {
    row.bodyLen == Utf8Length(body) && row.bodyHash == hash(body)
  }

  /** The signature of some body. */
  ghost predicate Built(hash: string -> int, rs: RowSignature) {
    exists origin: string :: Describes(hash, rs, origin)
  }

  /** Signatures are only ever built from a body. */
  ghost predicate Honest(hash: string -> int, row: SignatureRow) {
    BlobOk(row.signature, row.blob) && Built(hash, row.signature)
  }

  /** The signature describes another body of the same length and hash, and not this one. */
  ghost predicate Collides(hash: string -> int, row: RowSignature, body: string) {
    && !Describes(hash, row, body)
    && exists origin: string ::
         Describes(hash, row, origin) && hash(origin) == hash(body) && Utf8Length(origin) == Utf8Length(body)
  }

  /** Up to date, with its blob, and not built from a colliding body. */
  ghost predicate Certain(hash: string -> int, row: SignatureRow, e: Option<Entity>) {
    e.Some? && Describes(hash, row.signature, e.value.body) && row.blob == Some(row.signature.sig)
  }

  /** The exhaustive comparison of two bodies with trigrams, as far as the length
      prefilter lets it come. */
  ghost predicate BodySays(rnd: real -> real, body: string, current: string, threshold: real) {
    && !Prefiltered(rnd, MaxTrigrams(current), |PackedTrigrams(body)|, threshold)
    && IsNearDuplicate(rnd, body, current, threshold)
  }

  /** The body that the signature was built from is a near-duplicate, and its blob does
      not mislead: then the signature cannot rule the row out. */
  ghost predicate Suspected(hash: string -> int, rnd: real -> real, body: string, row: SignatureRow, threshold: real) {
    && !Misleads(rnd, PackedTrigrams(body), row.signature, row.blob, threshold)
    && exists origin: string :: Describes(hash, row.signature, origin) && IsNearDuplicate(rnd, body, origin, threshold)
  }

  // ------------------------------------------------------------------ one candidate

  /** What visiting a row establishes, whatever state its signature is in. */
  ghost predicate Visited(hash: string -> int, rnd: real -> real, scope: Scope, body: string, row: SignatureRow,
                          e: Option<Entity>, threshold: real, dup: bool, healing: Healing) {
    && (dup ==> Eligible(e, scope))
    && (dup && (threshold > 0.0 || |body| >= 3) ==>
         IsNearDuplicate(rnd, body, e.value.body, threshold) || Collides(hash, row.signature, e.value.body))
    && (Certain(hash, row, e) && Eligible(e, scope) ==> (dup <==> IsNearDuplicate(rnd, body, e.value.body, threshold)))
    && (|body| < 3 && Eligible(e, scope) && Describes(hash, row.signature, e.value.body) ==>
         (dup <==> e.value.body == body))
    && (|body| >= 3 && Eligible(e, scope) && Suspected(hash, rnd, body, row, threshold) ==>
         BodySays(rnd, body, e.value.body, threshold) ==> dup)
    && (|body| >= 3 && dup && !Fresh(hash, row.signature, e.value.body) ==>
         BodySays(rnd, body, e.value.body, threshold))
    && (healing.Evict? ==> e.None? || e.value.archived)
    && (healing.Repair? ==> e.Some? && !e.value.archived && Describes(hash, healing.signature, e.value.body))
    && (dup && !Fresh(hash, row.signature, e.value.body) ==> healing.Repair?)
  }

  /** What the signature alone allows to say about the body it describes. */
  ghost predicate Provisional(hash: string -> int, rnd: real -> real, body: string, row: SignatureRow, current: string,
                              threshold: real, v: Option<bool>) {
    if |body| < 3 then
      v == Some((row.signature.tgCount == 0 && row.signature.bodyLen == Utf8Length(body)) || 0.0 >= threshold)
    else
      && (Describes(hash, row.signature, current) && BlobOk(row.signature, row.blob) ==>
           VerdictHolds(rnd, PackedTrigrams(body), row.signature, row.blob, current, threshold, v))
      && (v == Some(false) ==> !Suspected(hash, rnd, body, row, threshold))
  }

  lemma NearDuplicateByPacking(rnd: real -> real, body: string, candidate: string, threshold: real)
    requires |body| >= 3
    ensures IsNearDuplicate(rnd, body, candidate, threshold) <==>
      Similarity(rnd, SetOf(PackedTrigrams(body)), SetOf(PackedTrigrams(candidate))) >= threshold
  {
    PackingIsLossless(rnd, body, candidate);
  }

  /** A signature fixes the trigrams of the bodies it describes. */
  lemma SameTrigrams(hash: string -> int, row: RowSignature, x: string, y: string)
    requires Describes(hash, row, x) && Describes(hash, row, y)
    ensures PackedTrigrams(x) == PackedTrigrams(y)
  {
    RoundTrip(PackedTrigrams(x));
    RoundTrip(PackedTrigrams(y));
  }

  lemma VerdictCarriesOver(hash: string -> int, rnd: real -> real, body: string, row: SignatureRow, origin: string,
                           current: string, threshold: real, v: Option<bool>)
    requires |body| >= 3 && Describes(hash, row.signature, origin)
    requires VerdictHolds(rnd, PackedTrigrams(body), row.signature, row.blob, origin, threshold, v)
    ensures Provisional(hash, rnd, body, row, current, threshold, v)
  {
    if Describes(hash, row.signature, current) { SameTrigrams(hash, row.signature, origin, current); }
    if v == Some(false) && Suspected(hash, rnd, body, row, threshold) {
      var x: string :| Describes(hash, row.signature, x) && IsNearDuplicate(rnd, body, x, threshold);
      SameTrigrams(hash, row.signature, origin, x);
      NearDuplicateByPacking(rnd, body, x, threshold);
    }
  }

  method ProvisionalVerdict(hash: string -> int, rnd: real -> real, body: string, target: seq<u64>,
                            targetHisto: Option<seq<u8>>, row: SignatureRow, ghost current: string, threshold: real)
    returns (v: Option<bool>)
    requires Monotone(rnd) && target == PackedTrigrams(body) && Honest(hash, row)
    requires targetHisto.Some? ==> |targetHisto.value| == HISTO_BUCKETS && Counts(BucketOf(), target, targetHisto.value)
    ensures Provisional(hash, rnd, body, row, current, threshold, v)
  {
    TrigramCount(body);
    if |target| == 0 {
      v := Some((row.signature.tgCount == 0 && row.signature.bodyLen == Utf8Length(body)) || 0.0 >= threshold);
    } else {
      ghost var origin: string :| Describes(hash, row.signature, origin);
      v := SignatureVerdict(hash, rnd, target, targetHisto, row.signature, row.blob, origin, threshold);
      VerdictCarriesOver(hash, rnd, body, row, origin, current, threshold, v);
    }
  }

  /** A row that its signature rules out is no duplicate if the signature is up to date. */
  lemma RuledOut(hash: string -> int, rnd: real -> real, scope: Scope, body: string, row: SignatureRow,
                 e: Option<Entity>, threshold: real)
    requires e.Some? ==> Provisional(hash, rnd, body, row, e.value.body, threshold, Some(false))
    ensures Visited(hash, rnd, scope, body, row, e, threshold, false, Keep)
  {
    if Certain(hash, row, e) && Eligible(e, scope) {
      TrigramCount(e.value.body);
      if |body| >= 3 { NearDuplicateByPacking(rnd, body, e.value.body, threshold); }
    }
  }

  /** An entity that is not there, or not in scope, is no duplicate. */
  lemma NotEligible(hash: string -> int, rnd: real -> real, scope: Scope, body: string, row: SignatureRow,
                    e: Option<Entity>, threshold: real, healing: Healing)
    requires !Eligible(e, scope)
    requires healing.Evict? ==> e.None? || e.value.archived
    requires healing.Repair? ==> e.Some? && !e.value.archived && Describes(hash, healing.signature, e.value.body)
    ensures Visited(hash, rnd, scope, body, row, e, threshold, false, healing)
  {}

  /** Out of date or without a usable blob: the current body decides. */
  lemma BodyDecides(hash: string -> int, rnd: real -> real, scope: Scope, body: string, row: SignatureRow,
                    e: Option<Entity>, threshold: real, v: Option<bool>, dup: bool, rebuilt: RowSignature)
    requires Eligible(e, scope) && Provisional(hash, rnd, body, row, e.value.body, threshold, v)
    requires !Fresh(hash, row.signature, e.value.body) || v == None
    requires dup <==>
      && !Prefiltered(rnd, MaxTrigrams(e.value.body), |PackedTrigrams(body)|, threshold)
      && Similarity(rnd, SetOf(PackedTrigrams(body)), SetOf(PackedTrigrams(e.value.body))) >= threshold
    requires Describes(hash, rebuilt, e.value.body)
    ensures Visited(hash, rnd, scope, body, row, e, threshold, dup, Repair(rebuilt))
  {
    if |body| >= 3 {
      NearDuplicateByPacking(rnd, body, e.value.body, threshold);
    } else {
      TrigramCount(body);
      assert SetOf(PackedTrigrams(body)) == {};
    }
  }

  /** Up to date: bodies without trigrams are compared, and otherwise the signature's
      yes is right unless its hash collides. */
  lemma SignatureDecides(hash: string -> int, rnd: real -> real, scope: Scope, body: string, row: SignatureRow,
                         e: Option<Entity>, threshold: real, v: Option<bool>, dup: bool)
    requires Eligible(e, scope) && Provisional(hash, rnd, body, row, e.value.body, threshold, v) && v == Some(true)
    requires Honest(hash, row) && Fresh(hash, row.signature, e.value.body)
    requires dup <==> |body| >= 3 || e.value.body == body
    ensures Visited(hash, rnd, scope, body, row, e, threshold, dup, Keep)
  {
    if |body| >= 3 { NearDuplicateByPacking(rnd, body, e.value.body, threshold); }
  }

  /** Verify on hit: the entity of a candidate that its signature does not rule out. */
  method VerifyHit(hash: string -> int, rnd: real -> real, scope: Scope, body: string, target: seq<u64>,
                   row: SignatureRow, e: Option<Entity>, v: Option<bool>, threshold: real)
    returns (dup: bool, healing: Healing)
    requires Monotone(rnd) && target == PackedTrigrams(body) && Honest(hash, row) && v != Some(false)
    requires e.Some? ==> Provisional(hash, rnd, body, row, e.value.body, threshold, v)
    ensures Visited(hash, rnd, scope, body, row, e, threshold, dup, healing)
  {
    dup, healing := false, Evict;
    if e == None || e.value.archived {
      NotEligible(hash, rnd, scope, body, row, e, threshold, healing);
      return;
    }
    if !Eligible(e, scope) {
      var rebuilt := BuildRowSignature(hash, e.value.body);
      healing := Repair(rebuilt);
      NotEligible(hash, rnd, scope, body, row, e, threshold, healing);
      return;
    }
    dup, healing := DecideDuplicate(hash, rnd, scope, body, target, row, e, v, threshold);
  }

  lemma YesOrNo(v: Option<bool>)
    requires v.Some?
    ensures v == Some(true) || v == Some(false)
  {
    if v.value { assert v == Some(true); } else { assert v == Some(false); }
  }

  method DecideDuplicate(hash: string -> int, rnd: real -> real, scope: Scope, body: string, target: seq<u64>,
                         row: SignatureRow, e: Option<Entity>, v: Option<bool>, threshold: real)
    returns (dup: bool, healing: Healing)
    requires Monotone(rnd) && target == PackedTrigrams(body) && Honest(hash, row) && v != Some(false)
    requires Eligible(e, scope) && Provisional(hash, rnd, body, row, e.value.body, threshold, v)
    ensures Visited(hash, rnd, scope, body, row, e, threshold, dup, healing)
  {
    if !Fresh(hash, row.signature, e.value.body) || v == None {
      var rebuilt := BuildRowSignature(hash, e.value.body);
      dup := VerdictFromBody(rnd, target, e.value.body, threshold);
      BodyDecides(hash, rnd, scope, body, row, e, threshold, v, dup, rebuilt);
      healing := Repair(rebuilt);
    } else {
      dup := |target| > 0 || e.value.body == body;
      TrigramCount(body);
      assert |target| > 0 <==> |body| >= 3;
      YesOrNo(v);
      SignatureDecides(hash, rnd, scope, body, row, e, threshold, v, dup);
      healing := Keep;
    }
  }

  /** One candidate of the query. */
  method VisitRow(hash: string -> int, rnd: real -> real, scope: Scope, body: string, target: seq<u64>,
                  targetHisto: Option<seq<u8>>, row: SignatureRow, e: Option<Entity>, threshold: real)
    returns (dup: bool, healing: Healing)
    requires Monotone(rnd) && target == PackedTrigrams(body) && Honest(hash, row)
    requires targetHisto.Some? ==> |targetHisto.value| == HISTO_BUCKETS && Counts(BucketOf(), target, targetHisto.value)
    ensures Visited(hash, rnd, scope, body, row, e, threshold, dup, healing)
  {
    ghost var current := if e.Some? then e.value.body else "";
    var v := ProvisionalVerdict(hash, rnd, body, target, targetHisto, row, current, threshold);
    if v == Some(false) {
      RuledOut(hash, rnd, scope, body, row, e, threshold);
      return false, Keep;
    }
    dup, healing := VerifyHit(hash, rnd, scope, body, target, row, e, v, threshold);
  }

  // ----------------------------------------------------------------------- the scan

  predicate Queried(row: SignatureRow, scope: Scope, band: Band) {
    row.category == scope.category && row.workspace == scope.workspace && Admits(band, row.signature.tgCount)
  }

  function Lookup(entities: map<string, Entity>, id: string): Option<Entity> {
    if id in entities then Some(entities[id]) else None
  }

  /** A live duplicate in scope, as the exhaustive comparison finds it. */
  ghost predicate IsDuplicate(rnd: real -> real, scope: Scope, body: string, e: Option<Entity>, threshold: real) {
    Eligible(e, scope) && IsNearDuplicate(rnd, body, e.value.body, threshold)
  }

  /** Never a false positive, unless the hash collides. */
  ghost predicate Genuine(hash: string -> int, rnd: real -> real, scope: Scope, body: string, row: SignatureRow,
                          entities: map<string, Entity>, threshold: real) {
    && row.id in entities && !entities[row.id].archived
    && entities[row.id].category == scope.category && entities[row.id].workspace == scope.workspace
    && (threshold > 0.0 || |body| >= 3 ==>
         || IsNearDuplicate(rnd, body, entities[row.id].body, threshold)
         || Collides(hash, row.signature, entities[row.id].body))
  }

  /** A row that the query returns is no duplicate if its signature is up to date, and
      none that the current body would show if its signature cannot rule it out. */
  ghost predicate Cleared(hash: string -> int, rnd: real -> real, scope: Scope, band: Band, body: string,
                          row: SignatureRow, entities: map<string, Entity>, threshold: real) {
    var e := Lookup(entities, row.id);
    && row.category == scope.category && row.workspace == scope.workspace && Admits(band, row.signature.tgCount)
    && row.id in entities && !entities[row.id].archived
    && entities[row.id].category == scope.category && entities[row.id].workspace == scope.workspace ==>
      && (Certain(hash, row, e) ==> !IsNearDuplicate(rnd, body, e.value.body, threshold))
      && (|body| < 3 && Describes(hash, row.signature, e.value.body) ==> e.value.body != body)
      && (|body| >= 3 && Suspected(hash, rnd, body, row, threshold) ==> !BodySays(rnd, body, e.value.body, threshold))
  }

  /** Repairs hold signatures of current, unarchived bodies. */
  ghost predicate GoodRepair(hash: string -> int, entities: map<string, Entity>, x: (string, RowSignature)) {
    x.0 in entities && !entities[x.0].archived && Describes(hash, x.1, entities[x.0].body)
  }

  predicate GoodEviction(entities: map<string, Entity>, id: string) {
    id !in entities || entities[id].archived
  }

  function WithRepair(repair: seq<(string, RowSignature)>, id: string, healing: Healing): seq<(string, RowSignature)> {
    if healing.Repair? then repair + [(id, healing.signature)] else repair
  }

  function WithEviction(evict: seq<string>, id: string, healing: Healing): seq<string> {
    if healing.Evict? then evict + [id] else evict
  }

  ghost predicate GoodHealing(hash: string -> int, entities: map<string, Entity>, repair: seq<(string, RowSignature)>,
                              evict: seq<string>) {
    && (forall x :: x in repair ==> GoodRepair(hash, entities, x))
    && (forall id :: id in evict ==> GoodEviction(entities, id))
  }

  ghost predicate AllCleared(hash: string -> int, rnd: real -> real, scope: Scope, body: string,
                             rows: seq<SignatureRow>, entities: map<string, Entity>, threshold: real, n: nat) {
    forall k :: 0 <= k < n && k < |rows| ==>
      Cleared(hash, rnd, scope, BandFor(rnd, body, threshold), body, rows[k], entities, threshold)
  }

  lemma HealingGrows(hash: string -> int, rnd: real -> real, scope: Scope, body: string, row: SignatureRow,
                     entities: map<string, Entity>, threshold: real, dup: bool, healing: Healing,
                     repair: seq<(string, RowSignature)>, evict: seq<string>)
    requires Visited(hash, rnd, scope, body, row, Lookup(entities, row.id), threshold, dup, healing)
    requires GoodHealing(hash, entities, repair, evict)
    ensures GoodHealing(hash, entities, WithRepair(repair, row.id, healing), WithEviction(evict, row.id, healing))
  {}

  lemma VisitSettles(hash: string -> int, rnd: real -> real, scope: Scope, body: string, row: SignatureRow,
                     entities: map<string, Entity>, threshold: real, dup: bool, healing: Healing)
    requires Visited(hash, rnd, scope, body, row, Lookup(entities, row.id), threshold, dup, healing)
    ensures dup ==> Genuine(hash, rnd, scope, body, row, entities, threshold)
    ensures !dup ==> Cleared(hash, rnd, scope, BandFor(rnd, body, threshold), body, row, entities, threshold)
  {}

  lemma OneMoreCleared(hash: string -> int, rnd: real -> real, scope: Scope, body: string, rows: seq<SignatureRow>,
                       entities: map<string, Entity>, threshold: real, k: nat)
    requires k < |rows| && AllCleared(hash, rnd, scope, body, rows, entities, threshold, k)
    requires Cleared(hash, rnd, scope, BandFor(rnd, body, threshold), body, rows[k], entities, threshold)
    ensures AllCleared(hash, rnd, scope, body, rows, entities, threshold, k + 1)
  {}

  lemma NotQueried(hash: string -> int, rnd: real -> real, scope: Scope, body: string, row: SignatureRow,
                   entities: map<string, Entity>, threshold: real)
    requires !Queried(row, scope, BandFor(rnd, body, threshold))
    ensures Cleared(hash, rnd, scope, BandFor(rnd, body, threshold), body, row, entities, threshold)
  {}

  /** The first row that is taken for a duplicate, with what is to be healed. */
  method FindNearDuplicate(hash: string -> int, rnd: real -> real, scope: Scope, body: string, rows: seq<SignatureRow>,
                           entities: map<string, Entity>, threshold: real)
    returns (found: Option<nat>, repair: seq<(string, RowSignature)>, evict: seq<string>)
    requires Monotone(rnd) && forall i :: 0 <= i < |rows| ==> Honest(hash, rows[i])
    ensures body == "" ==> found == None && repair == [] && evict == []
    ensures found.Some? ==>
      && found.value < |rows| && Queried(rows[found.value], scope, BandFor(rnd, body, threshold))
      && Genuine(hash, rnd, scope, body, rows[found.value], entities, threshold)
    ensures body != "" ==>
      AllCleared(hash, rnd, scope, body, rows, entities, threshold, if found.Some? then found.value else |rows|)
    ensures GoodHealing(hash, entities, repair, evict)
    ensures found.Some? && !UpToDateRow(hash, entities, rows[found.value]) ==>
      exists x :: x in repair && x.0 == rows[found.value].id
  {
    found, repair, evict := None, [], [];
    if body == "" {
      return;
    }
    var target := PackedTrigrams(body);
    var targetHisto := BuildHistogram(BucketOf(), HISTO_BUCKETS, target);
    var band := BandOf(rnd, |target|, threshold);
    for k: nat := 0 to |rows|
      invariant found == None && AllCleared(hash, rnd, scope, body, rows, entities, threshold, k)
      invariant GoodHealing(hash, entities, repair, evict)
    {
      var dup := false;
      if Queried(rows[k], scope, band) {
        dup, repair, evict := ScanRow(hash, rnd, scope, body, target, targetHisto, rows[k], entities, threshold, repair,
                                      evict);
      } else {
        NotQueried(hash, rnd, scope, body, rows[k], entities, threshold);
      }
      if dup {
        found := Some(k);
        return;
      }
      OneMoreCleared(hash, rnd, scope, body, rows, entities, threshold, k);
    }
  }

  predicate UpToDateRow(hash: string -> int, entities: map<string, Entity>, row: SignatureRow) {
    row.id in entities && Fresh(hash, row.signature, entities[row.id].body)
  }

  method ScanRow(hash: string -> int, rnd: real -> real, scope: Scope, body: string, target: seq<u64>,
                 targetHisto: Option<seq<u8>>, row: SignatureRow, entities: map<string, Entity>, threshold: real,
                 repair0: seq<(string, RowSignature)>, evict0: seq<string>)
    returns (dup: bool, repair: seq<(string, RowSignature)>, evict: seq<string>)
    requires Monotone(rnd) && target == PackedTrigrams(body) && Honest(hash, row)
    requires targetHisto.Some? ==> |targetHisto.value| == HISTO_BUCKETS && Counts(BucketOf(), target, targetHisto.value)
    requires GoodHealing(hash, entities, repair0, evict0)
    ensures dup ==> Genuine(hash, rnd, scope, body, row, entities, threshold)
    ensures !dup ==> Cleared(hash, rnd, scope, BandFor(rnd, body, threshold), body, row, entities, threshold)
    ensures GoodHealing(hash, entities, repair, evict)
    ensures dup && !UpToDateRow(hash, entities, row) ==> exists x :: x in repair && x.0 == row.id
  {
    var healing;
    dup, healing := VisitRow(hash, rnd, scope, body, target, targetHisto, row, Lookup(entities, row.id), threshold);
    HealingGrows(hash, rnd, scope, body, row, entities, threshold, dup, healing, repair0, evict0);
    VisitSettles(hash, rnd, scope, body, row, entities, threshold, dup, healing);
    repair, evict := WithRepair(repair0, row.id, healing), WithEviction(evict0, row.id, healing);
    if healing.Repair? { assert repair[|repair0|] == (row.id, healing.signature); }
  }

  /** At the production threshold a row that is up to date but for its missing blob is
      taken for a duplicate exactly when it is one. */
  lemma MissingBlobIsHarmless(hash: string -> int, rnd: real -> real, scope: Scope, body: string, row: SignatureRow,
                              e: Option<Entity>, dup: bool, healing: Healing)
    requires Visited(hash, rnd, scope, body, row, e, T_07, dup, healing) && Binary64(rnd) && Eligible(e, scope)
    requires Describes(hash, row.signature, e.value.body) && row.blob == None
    requires |body| < 1_000_000_000_000_000 && |e.value.body| < 1_000_000_000_000_000
    ensures dup <==> IsNearDuplicate(rnd, body, e.value.body, T_07)
  {
    if |body| >= 3 && IsNearDuplicate(rnd, body, e.value.body, T_07) {
      ProductionBodySays(rnd, body, e.value.body);
      assert Suspected(hash, rnd, body, row, T_07);
    }
  }

  /** At the production threshold a scan that finds nothing has missed no duplicate
      whose signature is up to date, whether or not its blob is still there. */
  lemma ProductionScanMissesNothing(hash: string -> int, rnd: real -> real, scope: Scope, body: string,
                                    row: SignatureRow, entities: map<string, Entity>)
    requires Binary64(rnd) && row.category == scope.category && row.workspace == scope.workspace
    requires var e := Lookup(entities, row.id);
      e.Some? && Describes(hash, row.signature, e.value.body) && |e.value.body| < 1_000_000_000_000_000
    requires !Misleads(rnd, PackedTrigrams(body), row.signature, row.blob, T_07) && |body| < 1_000_000_000_000_000
    requires Cleared(hash, rnd, scope, BandFor(rnd, body, T_07), body, row, entities, T_07)
    ensures !IsDuplicate(rnd, scope, body, Lookup(entities, row.id), T_07)
  {
    var e := Lookup(entities, row.id);
    if IsDuplicate(rnd, scope, body, e, T_07) {
      ProductionScanIsLossless(rnd, body, e.value.body);
      if |body| >= 3 { ProductionBodySays(rnd, body, e.value.body); }
      assert Suspected(hash, rnd, body, row, T_07);
    }
  }

  /** At the production threshold the prefilter holds nothing back. */
  lemma ProductionBodySays(rnd: real -> real, body: string, current: string)
    requires Binary64(rnd) && 3 <= |body| < 1_000_000_000_000_000 && |current| < 1_000_000_000_000_000
    ensures BodySays(rnd, body, current, T_07) <==> IsNearDuplicate(rnd, body, current, T_07)
  {
    TrigramCount(body);
    NearDuplicateByPacking(rnd, body, current, T_07);
    if Prefiltered(rnd, MaxTrigrams(current), |PackedTrigrams(body)|, T_07) {
      ProductionPrefilterIsExact(rnd, PackedTrigrams(body), current);
    }
  }

  // -------------------------------------------------------------------- self-healing

  type Table = map<string, SignatureRow>

  /** The row under this id agrees with the current entity. */
  ghost predicate UpToDate(hash: string -> int, entities: map<string, Entity>, table: Table, id: string) {
    && id in table && id in entities && table[id].category == entities[id].category
    && table[id].workspace == entities[id].workspace
    && table[id].signature.bodyLen == Utf8Length(entities[id].body)
    && table[id].signature.bodyHash == hash(entities[id].body)
  }

  ghost predicate AllHonest(hash: string -> int, table: Table) {
    forall id :: id in table ==> Honest(hash, table[id])
  }

  /** One repair, checked again against the entity as it is now. */
  function Repaired(hash: string -> int, entities: map<string, Entity>, table: Table, id: string, rs: RowSignature)
    : Table
  {
    if id in entities && Fresh(hash, rs, entities[id].body)
    then table[id := SignatureRow(id, entities[id].category, entities[id].workspace, rs, Some(rs.sig))]
    else table
  }

  lemma RepairIsHonest(hash: string -> int, entities: map<string, Entity>, table: Table, x: (string, RowSignature))
    requires AllHonest(hash, table) && Built(hash, x.1)
    ensures AllHonest(hash, Repaired(hash, entities, table, x.0, x.1))
  {}

  /** Every repair whose body is still the current one has been written. */
  ghost predicate Written(hash: string -> int, entities: map<string, Entity>, table: Table,
                          repair: seq<(string, RowSignature)>) {
    forall x :: x in repair && x.0 in entities && Fresh(hash, x.1, entities[x.0].body) ==>
      UpToDate(hash, entities, table, x.0)
  }

  /** Nothing that was up to date has been lost. */
  ghost predicate Kept(hash: string -> int, entities: map<string, Entity>, table0: Table, table: Table) {
    forall id :: UpToDate(hash, entities, table0, id) ==> UpToDate(hash, entities, table, id)
  }

  lemma MendOne(hash: string -> int, entities: map<string, Entity>, table0: Table, table: Table,
                done: seq<(string, RowSignature)>, x: (string, RowSignature))
    requires Kept(hash, entities, table0, table) && Written(hash, entities, table, done)
    ensures var after := Repaired(hash, entities, table, x.0, x.1);
      Kept(hash, entities, table0, after) && Written(hash, entities, after, done + [x])
  {}

  function Mended(hash: string -> int, entities: map<string, Entity>, table: Table,
                  repair: seq<(string, RowSignature)>): Table
  {
    if repair == [] then table
    else
      var x := repair[|repair| - 1];
      Repaired(hash, entities, Mended(hash, entities, table, repair[..|repair| - 1]), x.0, x.1)
  }

  lemma {:induction false} MendingKeeps(hash: string -> int, entities: map<string, Entity>, table: Table,
                                        repair: seq<(string, RowSignature)>)
    ensures var after := Mended(hash, entities, table, repair);
      Kept(hash, entities, table, after) && Written(hash, entities, after, repair)
  {
    if repair != [] {
      var n := |repair| - 1;
      MendingKeeps(hash, entities, table, repair[..n]);
      MendOne(hash, entities, table, Mended(hash, entities, table, repair[..n]), repair[..n], repair[n]);
      assert repair == repair[..n] + [repair[n]];
    }
  }

  lemma {:induction false} MendingIsHonest(hash: string -> int, entities: map<string, Entity>, table: Table,
                                           repair: seq<(string, RowSignature)>)
    requires AllHonest(hash, table) && forall k :: 0 <= k < |repair| ==> Built(hash, repair[k].1)
    ensures AllHonest(hash, Mended(hash, entities, table, repair))
  {
    if repair != [] {
      var n := |repair| - 1;
      MendingIsHonest(hash, entities, table, repair[..n]);
      RepairIsHonest(hash, entities, Mended(hash, entities, table, repair[..n]), repair[n]);
    }
  }

  method Mend(hash: string -> int, entities: map<string, Entity>, table0: Table, repair: seq<(string, RowSignature)>)
    returns (table: Table)
    ensures table == Mended(hash, entities, table0, repair)
  {
    table := table0;
    for k: nat := 0 to |repair|
      invariant table == Mended(hash, entities, table0, repair[..k])
    {
      assert repair[..k + 1][..k] == repair[..k];
      table := Repaired(hash, entities, table, repair[k].0, repair[k].1);
    }
    assert repair[..|repair|] == repair;
  }

  method EvictAll(table0: Table, evict: seq<string>) returns (table: Table)
    ensures table == map id | id in table0 && id !in evict :: table0[id]
  {
    table := table0;
    for k: nat := 0 to |evict|
      invariant table == map id | id in table0 && id !in evict[..k] :: table0[id]
    {
      assert evict[..k + 1] == evict[..k] + [evict[k]];
      table := table - {evict[k]};
    }
    assert evict[..|evict|] == evict;
  }

  /** Repairs, then evictions, on the entities as they are now, which may have changed
      since the scan: a row that is up to date stays so exactly if it is not evicted. */
  method Flush(hash: string -> int, entities: map<string, Entity>, table0: Table, repair: seq<(string, RowSignature)>,
               evict: seq<string>)
    returns (table: Table)
    requires AllHonest(hash, table0) && forall k :: 0 <= k < |repair| ==> Built(hash, repair[k].1)
    ensures AllHonest(hash, table)
    ensures forall id :: UpToDate(hash, entities, table0, id) ==>
      (UpToDate(hash, entities, table, id) <==> id !in evict)
    ensures forall x :: x in repair && x.0 in entities && Fresh(hash, x.1, entities[x.0].body) && x.0 !in evict ==>
      UpToDate(hash, entities, table, x.0)
    ensures forall id :: id in evict ==> id !in table
  {
    var mended := Mend(hash, entities, table0, repair);
    MendingKeeps(hash, entities, table0, repair);
    MendingIsHonest(hash, entities, table0, repair);
    table := EvictAll(mended, evict);
    forall id ensures UpToDate(hash, entities, table, id) <==> UpToDate(hash, entities, mended, id) && id !in evict {}
  }

  lemma RepairsAreBuilt(hash: string -> int, entities: map<string, Entity>, repair: seq<(string, RowSignature)>,
                        evict: seq<string>)
    requires GoodHealing(hash, entities, repair, evict)
    ensures forall k :: 0 <= k < |repair| ==> Built(hash, repair[k].1)
  {
    forall k | 0 <= k < |repair| ensures Built(hash, repair[k].1) {
      assert GoodRepair(hash, entities, repair[k]);
    }
  }

  /** The scan and its healing. `later` holds the entities when the healing is written:
      a row that is up to date then is lost only if the scan saw no live entity for it.
      If nothing has changed in between, the row found is up to date afterwards. */
  method ScanAndHeal(hash: string -> int, rnd: real -> real, scope: Scope, body: string, rows: seq<SignatureRow>,
                     table0: Table, entities: map<string, Entity>, later: map<string, Entity>, threshold: real)
    returns (found: Option<nat>, table: Table)
    requires Monotone(rnd) && AllHonest(hash, table0)
    requires forall i :: 0 <= i < |rows| ==> rows[i].id in table0 && table0[rows[i].id] == rows[i]
    ensures found.Some? ==>
      found.value < |rows| && Genuine(hash, rnd, scope, body, rows[found.value], entities, threshold)
    ensures body != "" ==>
      AllCleared(hash, rnd, scope, body, rows, entities, threshold, if found.Some? then found.value else |rows|)
    ensures AllHonest(hash, table)
    ensures forall id :: UpToDate(hash, later, table0, id) && !UpToDate(hash, later, table, id) ==>
      GoodEviction(entities, id)
    ensures found.Some? && later == entities ==> UpToDate(hash, entities, table, rows[found.value].id)
  {
    var repair, evict;
    found, repair, evict := FindNearDuplicate(hash, rnd, scope, body, rows, entities, threshold);
    RepairsAreBuilt(hash, entities, repair, evict);
    table := Flush(hash, later, table0, repair, evict);
    if found.Some? && later == entities {
      FoundIsHealed(hash, rnd, scope, body, rows[found.value], table0, table, entities, threshold, repair, evict);
    }
  }

  lemma FoundIsHealed(hash: string -> int, rnd: real -> real, scope: Scope, body: string, row: SignatureRow,
                      table0: Table, table: Table, entities: map<string, Entity>, threshold: real,
                      repair: seq<(string, RowSignature)>, evict: seq<string>)
    requires row.id in table0 && table0[row.id] == row && Queried(row, scope, BandFor(rnd, body, threshold))
    requires Genuine(hash, rnd, scope, body, row, entities, threshold) && GoodHealing(hash, entities, repair, evict)
    requires !UpToDateRow(hash, entities, row) ==> exists x :: x in repair && x.0 == row.id
    requires forall id :: UpToDate(hash, entities, table0, id) && id !in evict ==> UpToDate(hash, entities, table, id)
    requires forall x :: x in repair && x.0 in entities && Fresh(hash, x.1, entities[x.0].body) && x.0 !in evict ==>
      UpToDate(hash, entities, table, x.0)
    ensures UpToDate(hash, entities, table, row.id)
  {
    assert row.id !in evict;
    if UpToDateRow(hash, entities, row) {
      assert UpToDate(hash, entities, table0, row.id);
    } else {
      var x :| x in repair && x.0 == row.id;
      assert GoodRepair(hash, entities, x);
    }
  }
}
