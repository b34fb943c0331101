# Perseus Vault: a verified model of its algorithmic cores

This project models eight parts of Perseus Vault, a memory store, and proves what
the vault promises about them. `dafny verify dfyconfig.toml` checks every file.

| part | files | main result |
|---|---|---|
| Community detection | `RealSums`, `LinkGraph`, `BuildGraph`, `Modularity`, `ModularityBounds`, `ComputeModularity`, `GreedyModularity`, `GreedyTermination`, `LabelPropagation`, `LabelTermination`, `LabelOverlap` | the incremental optimiser refines one that recomputes Newman's double sum for every candidate move; its score never falls, both detectors come to rest without their caps, no community spans two components, and cliques joined by a single edge share no label |
| Citation scheduling | `RoundRobin` | the schedule is the only fair one of its size |
| Near-duplicate signatures | `SortedSets`, `SigCodec`, `SigVerdict`, `Histogram`, `NearDuplicate`, `DedupScan`, `DedupStore` | the signature cache gives the verdict of the exhaustive comparison under every monotone rounding, the scan never reports a false duplicate however stale the cache is, and the exact condition under which its size shortcuts drop a body |
| Declared-graph manifests | `Text`, `DeclaredGraph`, `DeclaredGraphKeys`, `DeclaredGraphStore`, `DeclaredGraphHistory`, `DeclaredGraphDatabase`, `DeclaredGraphNodes`, `DeclaredGraphEffects` | an invariant of every reachable state, append-only history, replay that changes nothing in any later state, what each request writes, and over every run which edges are attested |
| Context transform | `ContextMessages`, `ContextDiff`, `ContextReplay`, `ProviderShape`, `ContextTransform`, `ContextAdmission`, `ContextOverflow` | exactly when a proposal is served; it is served whole or not at all, protected content is carried verbatim, and the emitted plan replays |
| Evidence projection | `ChainSelection`, `EvidenceProjection` | the greedy selection is the rank-first feasible one, with exact books |
| Capture | `Utf8`, `LineRuns`, `CaptureSpans`, `CaptureSplit`, `CapturePrune` | spans quote the payload, nothing visible is lost, pruning removes determined windows, and the text it returns is tidy and has the paragraphs of the rest |
| Drift repair | `DriftRepair` | repair never lowers the score and is complete after one run unless the query was cut off |
| Sufficiency | `EvidenceSufficiency`, `EvidenceOutcomes` | the exact condition for each outcome, and an exact account of every omission |

`Options` and `Sets` hold what several parts share.

## Conventions

- `f64` scores and weights are `real`. Where the near-duplicate code divides and
  compares, rounding is a parameter: the streaming merge with its early abandon, the
  count bound, the histogram test and the signature verdict are exact for every monotone
  rounding function `rnd`, the identity included. The count band of the query and the
  length prefilter are not, and `DedupScan` says exactly when they lose a row.
- `DedupScan.Binary64` is rounding to nearest on the binades that the three thresholds
  0.55, 0.07 and 0.7 meet; everything else about `rnd` is monotonicity and exactness on
  integers below 2^53.
- SHA-256 and FNV digests and the ids built from them are datatypes over the
  digested content, so they are injective; no property of a hash is proved.
- The content hash of a body is an arbitrary function, so what depends on it holds up to
  a collision, which is named.
- The near-duplicate scan is `find_near_duplicate_with_conn`, `dedup_verdict_from_body` and
  `flush_dedup_sig_backfill` in src/db.rs (lines 8949-9256); its rows in the table cite the
  places where the repository states what that scan promises.
- The clock, the file system, JSON parsing and database lookups are parameters. A
  failed transaction leaves the tables unchanged.
- Tables are maps or sequences of rows, with the program's update statements as
  methods of a class (`Database`, `Vault`). Loops of the program are loops here,
  each proved equal to a specification function or predicate; the theorems are
  about those specifications.

## Findings

- The duplicate check of a declared-graph request compares `from|predicate|to|direction`
  strings (src/declared_graph.rs:439-447), so a bar inside a field can make two different
  relations share a string, and the second is refused although their row ids differ.
  `DeclaredGraphKeys.CollisionExactlyWhen` gives the condition: the directions agree, the
  bar-delimited pieces of the three fields are the same in order, and at least one piece
  lies in another field. `DeclaredGraphKeys.RefusedExactlyWhen` carries it to requests
  that are proper in every other respect, and `DeclaredGraphKeys.SampleIsRefused` is such
  a request.
- The trigram-count band of the scan (`ceil(t * a)` to `floor(a / t)`) and the length
  prefilter are evaluated in `f64` and can drop a near-duplicate: at threshold 0.55 a row
  of 60 trigrams that holds all 33 of the body (`DedupScan.BandCanDropADuplicate`), at
  0.07 a candidate of 9 characters against 100 trigrams
  (`DedupScan.PrefilterCanSkipADuplicate`). Two sizes that the band keeps apart have such a
  pair of bodies exactly when the rounded ratio of the smaller to the larger size reaches
  the threshold (`DedupScan.BandDropsExactlyWhen`, `DedupScan.PrefilterSkipsExactlyWhen`),
  and then that ratio was rounded up across it. At the production threshold 0.7 neither
  loses anything for sizes below 10^15.
- Self-healing re-checks a repair against the entity as it is when the repair is written,
  but not an eviction (src/db.rs:9136-9151): a signature written between the scan and the
  healing for an entity that the scan saw archived or missing is deleted.
  `DedupStore.Flush` states that this is the only way to lose a row that is up to date.
- The overlap factor of label propagation keeps two cliques apart that are joined by one
  edge of the same weight (src/communities.rs:117-124), whatever the order of the nodes,
  exactly when in both a clique edge pulls more than the bridge by more than the tolerance,
  that is, when (size - 2) * weight exceeds 1e-12 (`LabelOverlap.StayApartExactlyWhen`).
- Of an up-to-date row only a damaged blob whose undamaged start already looks hopeless
  can hide a duplicate (`NearDuplicate.Misleads`); with a missing blob nothing is lost at
  0.7 (`DedupStore.MissingBlobIsHarmless`).
- Pruning promises to leave what was not captured untouched (src/capture.rs:595-596). It
  rewrites the line ends: a carriage return before a break goes from every line that stays
  (`CapturePrune.ReturnsAreDropped`).
- A replay outside its validity window is refused before the replay lookup
  (src/declared_graph.rs:592-621). The theorems on replay say exactly this: nothing
  changes in either case, and the answer is "idempotent" exactly inside the window.
- `transform_context` fails on a changed proposal that touches more than 128 content
  classes (src/context_transform.rs:656); `ContextTransform.TransformContext` states this
  as the only failure after a valid request, and `ContextOverflow.ValidRequestsCanFail`
  shows such requests for every size from 65 to 128 messages.
- `span_text` refuses an empty span at the very end of a payload although it is in
  bounds (src/capture.rs:308-324); `CaptureSpans.SpanTextIsVerbatim` states both cases.
- The two chain selectors rank by members and by distinct ids. They settle on the same
  chain, and return the same entities up to order, exactly when the largest chain also has
  the most distinct ids, ties to the first occurrence (`ChainSelection.FormsAgreeExactlyWhen`); ids distinct within each
  chain suffice, and `ChainSelection.RepeatedIdsMayDiverge` is an input on which they differ.
- The shortfall counters of a sufficiency report add up to its omissions except that
  evidence both unavailable and stale counts twice
  (`EvidenceSufficiency.OmissionsBreakDown`); the context path never produces such evidence.

## Model

| member | source | states |
|---|---|---|
| `BuildGraph.FoldLinks` | src/communities.rs:62-92 | the folded weight of an unordered pair is the sum over all directed links between the two ids, both ways, non-positive strengths counted as one half, self-links and unknown targets dropped |
| `BuildGraph.FoldedIsSum` | src/communities.rs:70-92 | the folded weight is the double sum over rows and links, each link that joins the two ids adding its weight, or one half if that is not positive |
| `BuildGraph.BuildAdjacency` | src/communities.rs:94-103 | adjacency lists are sorted, loop free and hold exactly the folded weights; the total is each edge counted once |
| `BuildGraph.Build` | src/communities.rs:62-109 | the graph is symmetric, loop free, positively weighted and its pairwise weights are those of the links |
| `LinkGraphs.DegreesSumToTwiceTotal` | src/communities.rs:94-107 | handshake identity: degrees sum to twice the total weight |
| `Modularity.NewmanByCommunity` | src/communities.rs:234-258 | the per-community form of modularity equals Newman's double sum over pairs |
| `Modularity.MoveGain` | src/communities.rs:211-213 | the local gain expression equals the change of the global double sum when one node changes community |
| `ComputeModularity.Accumulate` | src/communities.rs:240-250 | the two maps hold the internal weight and the degree sum of every community |
| `ComputeModularity.Compute` | src/communities.rs:234-258 | the score returned is Newman's modularity for every labelling, zero for a weightless graph |
| `ModularityBounds.ModularityRange` | src/communities.rs:232-258 | for every graph with an edge and every labelling the score is in [-1/2, 1) |
| `ModularityBounds.SingleCommunityScoresZero` | src/communities.rs:232-258 | one community for all nodes scores exactly zero |
| `GreedyModularity.BestMoveIsBest` | src/communities.rs:204-218 | the move chosen has the largest true gain up to the tolerance, ties to the smallest label, and gains more than the tolerance if it leaves the community |
| `GreedyModularity.RunImproves` | src/communities.rs:178-230 | after any number of passes the score is at least the initial one, and greater if any label changed |
| `GreedyModularity.RunKeepsPaths` | src/communities.rs:178-230 | after any number of passes nodes of one community are joined by a path |
| `GreedyModularity.FixedPointIsLocalOptimum` | src/communities.rs:191-228 | once a pass changes nothing, no move of a single node to a neighbour's community gains more than the tolerance |
| `GreedyTermination.ComesToRest` | src/communities.rs:191-228 | from any labelling, passes whose tolerances add up to 3/2 are enough to reach a labelling that a pass leaves alone, so the loop ends without its cap |
| `GreedyTermination.UncappedRunIsLocalOptimum` | src/communities.rs:191-228 | that many passes from singletons end where no node gains more than the tolerance by joining a neighbour |
| `GreedyModularity.ChooseCommunity` | src/communities.rs:202-218 | the scan with incrementally kept degrees finds the move of the reference that recomputes the global score |
| `GreedyModularity.VisitNode` | src/communities.rs:193-224 | one visit keeps every community degree equal to the summed degree of its nodes and makes the reference move |
| `GreedyModularity.Optimise` | src/communities.rs:178-230 | the program's optimiser computes the reference run from singletons, early exit included |
| `GreedyModularity.OptimiserTheorem` | src/communities.rs:172-230 | its result has connected communities and a score at least that of singletons, greater if any node moved |
| `LabelPropagation.PullOfEdge` | src/communities.rs:131-149 | the effective weight of an edge is its weight times one plus the number of common neighbours |
| `LabelOverlap.OverlapFactor` | src/communities.rs:131-149 | in terms of the weight matrix alone, the effective weight of two nodes is their weight times one plus the number of nodes linked to both |
| `LabelOverlap.CliquesStayApart` | src/communities.rs:111-170 | two cliques of equal weights joined by one such edge never share a label, after any number of sweeps from singletons, if a clique edge pulls more than the bridge by more than the tolerance |
| `LabelOverlap.StayApartExactlyWhen` | src/communities.rs:111-170 | they stay apart in every graph of given clique sizes exactly when the surplus of a clique edge over the bridge exceeds the tolerance in both |
| `LabelPropagation.StrongestIsBest` | src/communities.rs:150-159 | the label chosen has the strongest pull up to the tolerance, ties to the smallest label, and exists exactly when there is a neighbour |
| `LabelPropagation.FixedPointIsStable` | src/communities.rs:139-168 | once a sweep changes nothing, every node holds a label of its neighbourhood that no other beats |
| `LabelTermination.ComesToRest` | src/communities.rs:125-170 | if all edge weights are multiples of a step above the tolerance, a stated number of sweeps from any labelling is enough to reach one that a sweep leaves alone, so the loop ends without its cap |
| `LabelTermination.AgreementChange` | src/communities.rs:131-149 | a node that changes its label changes the pull between equally labelled nodes by twice the difference of the two labels' pulls |
| `LabelTermination.UncappedRunIsStable` | src/communities.rs:125-170 | there every node with a neighbour has the smallest of the labels that pull it most |
| `LabelPropagation.VisitLabel` | src/communities.rs:141-164 | one visit with its tally map makes the reference choice and reports a change exactly if there is one |
| `LabelPropagation.Propagate` | src/communities.rs:125-170 | the program computes the reference sweeps from singletons, early exit included |
| `LabelPropagation.PropagationTheorem` | src/communities.rs:111-170 | after any number of sweeps nodes of one community are joined by a path |
| `RoundRobin.Cite` | src/communities.rs:1061-1089 | exactly min(max(limit, 1), members) citations, prefixes of the ranked lists, earlier communities ahead by at most one unless exhausted |
| `RoundRobin.FairIsUnique` | src/communities.rs:1061-1089 | fairness and the number of citations leave only one schedule |
| `SortedSets.CountCommon` | src/dedup.rs:68-80 | the merge counts the intersection of the two sets |
| `SortedSets.ExactJaccard` | src/dedup.rs:64-86 | the merge returns the rounded ratio of intersection to union, and zero if either set is empty |
| `SigCodec.OrIsSum` | src/dedup.rs:144 | or-ing a shifted group onto an accumulator below the shift is addition; the decoder step uses it |
| `SigCodec.GroupIsShiftInWord` | src/dedup.rs:144 | the group the decoder adds is the shift of the seven bits truncated to 64 bits, for every shift it can reach |
| `SigCodec.EncodeSig` | src/dedup.rs:90-108 | the encoder writes the first value and the deltas as unsigned LEB128 (section 7.6 of DWARF 5) |
| `SigCodec.VarintIsLeb128` | src/dedup.rs:96-106 | the bytes of a delta have their top bit set but for the last, and their seven-bit groups, low group first, stand for it |
| `SigCodec.VarintReadsBack` | src/dedup.rs:135-164 | any delta that fits the word is read back wherever it stands in a buffer |
| `SigCodec.RoundTrip` | src/dedup.rs:90-164 | decoding an encoded set returns it, for every strictly increasing set of 64-bit values |
| `SigCodec.SigDecoder.NextValue` | src/dedup.rs:135-164 | one step of the stateful decoder is one step of the decoding function, refusing truncation, overflow and zero deltas |
| `SigVerdict.AbandonIsSound` | src/dedup.rs:306-310 | when the abandon test fires no completion of the candidate could reach the threshold |
| `SigVerdict.JaccardVerdict` | src/dedup.rs:280-318 | on arbitrary bytes: with both counts positive the answer is yes exactly for a fully consumed blob of the declared count whose similarity reaches the threshold; a well-formed blob below it is a no, a malformed one undecided or a no that no completion could turn |
| `SigVerdict.StoredSignatureIsLossless` | src/dedup.rs:266-318 | on an encoded set the verdict is exactly whether the similarity reaches the threshold, for every threshold and monotone rounding |
| `Histogram.BuildHistogram` | src/dedup.rs:184-194 | absent exactly when some bucket holds more than 255 elements, otherwise the exact bucket counts |
| `Histogram.CeilingIsLossless` | src/dedup.rs:196-204 | the sum of bucket minima is at least the true intersection |
| `Histogram.IntersectionCeiling` | src/dedup.rs:199-204 | the value returned is that sum |
| `NearDuplicate.PackInjective` | src/dedup.rs:40-42 | different trigrams of Unicode scalars pack to different words |
| `NearDuplicate.PackFields` | src/dedup.rs:40-42 | the three scalars stand at bits 42, 21 and 0 |
| `NearDuplicate.PackingIsLossless` | src/dedup.rs:40-58 | the packed set has as many elements as there are trigrams, and similarities of packed sets are those of the trigram sets |
| `NearDuplicate.BuildRowSignature` | src/dedup.rs:255-264 | the stored signature decodes to exactly the packed trigrams, its count is the number of distinct trigrams, its length that of the UTF-8 bytes, and it carries the content hash |
| `NearDuplicate.SignatureVerdict` | PERF.md:359-361 | for the body a row describes and every monotone rounding, count bound, histogram ceiling and merge together give the verdict of the exhaustive comparison; without a usable blob a yes is never given wrongly |
| `DedupScan.BandDropsExactlyWhen` | PERF.md:359-361 | for two sizes up to the number of characters there are a body and a row of these sizes that the band drops though they are near duplicates exactly when the row size is outside the band and the rounded ratio of the sizes reaches the threshold |
| `DedupScan.LossNeedsRoundingUp` | PERF.md:359-361 | a loss needs a ratio below the threshold that rounds up to it, so exact arithmetic loses nothing |
| `DedupScan.ExactBandIsLossless` | PERF.md:359-361 | without rounding the band is never lossy |
| `DedupScan.BandCanDropADuplicate` | PERF.md:359-361 | in binary64 the band at 0.55 drops a body and a row of 33 and 60 trigrams that are near duplicates |
| `DedupScan.BandMeans` | PERF.md:359-361 | the band admits exactly the sizes between the two rounded bounds |
| `DedupScan.ProductionBandIsLossless` | PERF.md:359-361 | in binary64 the band at 0.7 loses nothing for sizes below 10^15 |
| `DedupScan.BandIsLossless` | PERF.md:359-361 | unless the band is lossy at the two sizes, the near duplicates it lets through are all of them |
| `DedupScan.ProductionScanIsLossless` | PERF.md:359-361 | at 0.7 the rows the scan can hit are exactly the near duplicates |
| `DedupScan.PrefilterSkipsExactlyWhen` | src/dedup.rs:9-12 | for a length and a size there are a body and a candidate that the prefilter skips though they reach the threshold exactly when the length is filtered and the best rounded ratio it allows reaches the threshold |
| `DedupScan.PrefilterCanSkipADuplicate` | src/dedup.rs:9-12 | in binary64 the prefilter at 0.07 skips a candidate of 9 characters that reaches the threshold against 100 trigrams |
| `DedupScan.ProductionPrefilterIsExact` | src/dedup.rs:9-12 | in binary64 whatever the prefilter skips at 0.7 is below the threshold, for sizes below 10^15 |
| `DedupScan.VerdictFromBody` | src/dedup.rs:9-12 | the comparison from the body is the exhaustive one except for the lengths the prefilter skips, and at 0.7 without exception |
| `DedupStore.VisitRow` | PERF.md:362-367 | for any state of a signature, a yes is about a live entity in scope that is a near duplicate or collides in its hash; with an up-to-date signature the answer is exact; a stale row, or one without a usable blob, whose signature cannot rule it out is decided by its current body; evictions are of dead entities and repairs describe the current body |
| `DedupStore.FindNearDuplicate` | PERF.md:354-367 | never a false positive: the row found is a live duplicate, up to a hash collision; no earlier row in scope and band is a duplicate if its signature is up to date, nor one that its current body shows if the body it was signed for is a near duplicate; what is to be healed is right |
| `DedupStore.MissingBlobIsHarmless` | PERF.md:362-367 | at 0.7 a row up to date but for its missing blob is taken for a duplicate exactly when it is one |
| `DedupStore.ProductionScanMissesNothing` | PERF.md:359-367 | at 0.7 a row that was passed over with an up-to-date signature is no duplicate, whether or not its blob is still there |
| `DedupStore.Flush` | PERF.md:362-367 | healing keeps every signature honest, writes the repairs whose body is still current, and a row up to date stays so exactly if it is not evicted |
| `DedupStore.ScanAndHeal` | PERF.md:362-367 | scan and healing with changes in between: an up-to-date row is lost only if the scan saw no live entity for it, and without changes the row found is up to date afterwards |
| `DeclaredGraph.SplitNodeRefIsInverse` | src/declared_graph.rs:214-230 | splitting undoes joining exactly for two non-empty parts without colons |
| `DeclaredGraph.Validate` | src/declared_graph.rs:287-450 | a request is accepted exactly when its header is in bounds, node identities and relation keys are distinct and every edge joins declared nodes; a delete carries none |
| `DeclaredGraph.ValidateAttest` | src/declared_graph.rs:232-285 | an attestation is accepted exactly when its texts are in bounds and it names 1 to 512 distinct edges |
| `DeclaredGraph.DistinctKeysDistinctIds` | src/declared_graph.rs:491-510 | relations with different keys have different row ids |
| `DeclaredGraphKeys.KeysEqualExactlyWhen` | src/declared_graph.rs:439-447 | keys are equal exactly when the directions are and the fields hold the same bar-delimited pieces in order |
| `DeclaredGraphKeys.CollisionExactlyWhen` | src/declared_graph.rs:439-447 | different relations share a key exactly when, besides, a piece lies in another field |
| `DeclaredGraphKeys.RefusedExactlyWhen` | src/declared_graph.rs:439-447 | a request proper in every other respect, with different row ids, is refused exactly when pieces have moved between two of its relations |
| `DeclaredGraphKeys.SampleIsRefused` | src/declared_graph.rs:439-447 | a concrete such request |
| `DeclaredGraphKeys.DifferentRelationsMayShareAKey` | src/declared_graph.rs:439-447 | a family of well-formed pairs that collide |
| `DeclaredGraphKeys.BarFreeKeysAreFaithful` | src/declared_graph.rs:439-447 | without bars in the source reference and the predicate, keys are equal exactly when the relations are |
| `DeclaredGraphHistory.RunKeepsHistory` | src/declared_graph.rs:579-795 | over every run no row disappears, nodes, events and contents never change, edges only leave active, attestations are never altered |
| `DeclaredGraphHistory.ReachableStatesAreSound` | src/declared_graph.rs:579-795 | in every reachable state at most one manifest is active per workspace and source, edges mirror their manifest's state, endpoints exist in the same workspace, attestation data is on attested edges only |
| `DeclaredGraphHistory.ReplayChangesNothing` | src/declared_graph.rs:592-645 | an accepted request applied again in any later state changes nothing; it is idempotent exactly when valid and in its window |
| `DeclaredGraphHistory.ConflictingRevisionFails` | src/declared_graph.rs:627-641 | a different request for a retained revision fails without effect in every later state |
| `DeclaredGraphHistory.AttestReplayChangesNothing` | src/declared_graph.rs:731-795 | an attestation applied again in any later state changes nothing; it is idempotent exactly while its manifest is active |
| `DeclaredGraphHistory.AttestedAtMostOnce` | src/declared_graph.rs:743-774 | an attested edge is never attested again in any later state |
| `DeclaredGraphHistory.NodeIdentityIsSettled` | src/declared_graph.rs:657-676 | a submission that gives a recorded node another type or external reference is never applied and leaves the store alone, after any run |
| `DeclaredGraphNodes.OtherNodeIdentityFails` | src/declared_graph.rs:657-676 | for raw requests over every run from the empty store such a request fails with an error and has no effect |
| `DeclaredGraphHistory.QueryShowsOneRevision` | src/declared_graph.rs:797-880 | the current edges of a source are all edges of one manifest and nothing else |
| `DeclaredGraphHistory.AppliedRevisionIsCurrent` | src/declared_graph.rs:579-729 | after an upsert the current edges are exactly its own, after a delete none |
| `DeclaredGraphDatabase.ValidRequestIsProper` | src/declared_graph.rs:287-510 | validation guarantees the plan the store needs: declared endpoints, one workspace, distinct row ids |
| `DeclaredGraphDatabase.Database.ApplyManifest` | src/declared_graph.rs:579-729 | validation, window check and the row updates take the tables from one state to the specified next one, unchanged on every error |
| `DeclaredGraphDatabase.Database.AttestEdgesOf` | src/declared_graph.rs:731-795 | the same for attestation |
| `DeclaredGraphEffects.AppliedExactlyWhen` | src/declared_graph.rs:579-660 | a manifest request is applied exactly when it is valid, it and its edges are in their windows, its revision is new and no node of it is known with another type or reference |
| `DeclaredGraphEffects.ApplyWrites` | src/declared_graph.rs:645-729 | an applied request retires the active revision of its source and its edges, superseded by an upsert and tombstoned by a delete, adds the new manifest, its unknown nodes and its edges with their own data, and one event, and leaves every other row alone |
| `DeclaredGraphEffects.AttestAppliedExactlyWhen` | src/declared_graph.rs:738-766 | an attestation is applied exactly when it is valid, its manifest is active, it is new, and every edge it names is an active edge of that manifest that is not attested |
| `DeclaredGraphEffects.AttestWrites` | src/declared_graph.rs:767-795 | an applied attestation sets support state, attester and reference on every edge it names, and changes nothing else but the event |
| `DeclaredGraphEffects.AttestedExactlyWhen` | src/declared_graph.rs:731-795 | over every run of raw requests an edge is attested exactly when some applied attestation named it, with that one's two fields |
| `DeclaredGraphDatabase.EveryRunOfRequestsIsSound` | src/declared_graph.rs:579-795 | the invariant and the history hold over every run of raw requests from the empty store |
| `DeclaredGraphDatabase.ResubmissionChangesNothing` | src/declared_graph.rs:592-645 | resubmitting an accepted raw request after any run, by any agent, leaves the store as it was |
| `DeclaredGraphDatabase.RevisionsAreImmutable` | src/declared_graph.rs:627-641 | a raw request with other content for an accepted revision fails after any run |
| `ContextMessages.ValidateList` | src/context_transform.rs:1120-1152 | a list is accepted exactly when it is bounded, its orders are contiguous, its ids distinct and every message well formed |
| `ContextDiff.CompareMessages` | src/context_transform.rs:1268-1355 | the diff is the membership, changed classes and changed count of the two lists, and fails exactly for unsupported membership, an invalid message or too many changes |
| `ContextDiff.UnchangedIsIdentity` | src/context_transform.rs:1268-1355 | a diff with no change means the two lists are equal |
| `ContextDiff.RetainedIsVerbatim` | src/context_transform.rs:1306-1319 | a retained message stands unchanged at its own position in the proposal |
| `ContextDiff.ChangedClassIsReported` | src/context_transform.rs:1320-1333 | the class of every message that is not retained is among the changed classes |
| `ContextAdmission.DispositionMeans` | src/context_transform.rs:1268-1355 | a message is recorded as omitted without a message of its id, retained unchanged in its place, reordered with its content in another place, and transformed otherwise |
| `ContextAdmission.MemberMeans` | src/context_transform.rs:1268-1355 | a membership record names its message, its place before and after and the digests of both contents |
| `ContextDiff.ComparisonYieldsValidPlan` | src/context_transform.rs:388-474 | the plan built from any comparison passes plan validation exactly when the input is not empty |
| `ContextReplay.ValidatePlan` | src/context_transform.rs:403-474 | a plan is accepted exactly when its members are well formed, its orders distinct and contiguous and its fingerprint matches |
| `ContextReplay.ReplayMembership` | src/context_transform.rs:495-544 | replay succeeds exactly for a valid plan that matches the original, and returns ids in output order and omissions in input order |
| `ContextReplay.PlanReconstructsProposal` | src/context_transform.rs:495-544 | replaying a comparison's plan recovers the proposal's ids in order and exactly the left-out inputs |
| `ContextReplay.ReplayNeedsTheOriginal` | src/context_transform.rs:495-544 | the plan of a comparison replays against exactly the lists that hold every input message with its class, body and chain |
| `ContextReplay.ReplayedCommitments` | src/context_transform.rs:495-544 | a replay hands out the chain commitment of each message whose chain is known |
| `ProviderShape.ValidateOpenAI` | src/context_transform.rs:1158-1266 | a list is accepted exactly when each message has the provider shape and tool calls and results match |
| `ProviderShape.ToolCallsArePaired` | src/context_transform.rs:1158-1222 | in an accepted list every tool call is issued once and answered by exactly one later message |
| `ProviderShape.ShapeExactlyWhen` | src/context_transform.rs:1158-1258 | a list is accepted exactly when every message has a known role, well-formed content parts and calls, and calls and answers are paired; stated on the JSON fields |
| `ContextTransform.ValidateHeader` | src/context_transform.rs:274-305 | the request checks apart from the message list, exactly |
| `ContextTransform.SealsExactlyWhen` | src/context_transform.rs:605-712 | a decision's receipt passes its own validation in every case but a contested proposal with more than 128 changed classes |
| `ContextOverflow.ValidRequestsCanFail` | src/context_transform.rs:605-712 | for every size from 65 to 128 a valid request and a contested proposal that cannot be sealed |
| `ContextAdmission.ServedExactlyWhen` | src/context_transform.rs:779-980 | the proposal is served exactly when it is valid, shaped, brings no new id, alters 1 to 128 messages, the format is OpenAI, a stage is enabled, the policy is not passthrough, every class altered is known, protected classes only with trusted stages and both references, and a reversible policy only with both references |
| `ContextAdmission.OutcomeExactlyWhen` | src/context_transform.rs:779-980 | each of the four outcomes, exactly, in the same terms |
| `ContextAdmission.ReasonTells` | src/context_transform.rs:779-980 | the reason code names the guard that decided |
| `ContextAdmission.DigestsMean` | src/context_transform.rs:1024-1089 | the digests of the receipt are those of the input, of what is served and of a compared proposal that is not served, and its lossiness follows what is served |
| `ContextAdmission.ComparisonRecorded` | src/context_transform.rs:1024-1089 | the receipt records exactly the altered classes, the number of altered messages and the replay plan |
| `ContextTransform.AdmittedOnlyIf` | src/context_transform.rs:779-980 | an admitted proposal is valid, provider shaped, brings no new id, and no rule stands against it; its outcome follows recoverability |
| `ContextTransform.ProtectedContentIsCarried` | src/context_transform.rs:910-955 | every protected message is served verbatim at its position unless no untrusted stage is enabled and both recovery references exist |
| `ContextTransform.AdmittedProposalReplays` | src/context_transform.rs:1024-1089 | an admitted proposal leaves a plan whose replay recovers the served ids in order and the omissions |
| `ContextTransform.Decide` | src/context_transform.rs:779-980 | the branches of the procedure yield the specified list and receipt |
| `ContextTransform.TransformContext` | src/context_transform.rs:779-980 | exactly when the procedure fails; its decision is the served list with its receipt, and unless the proposal is admitted that is the input, with equal digests and outcome passthrough or rejected |
| `ChainSelection.PickLeader` | src/evidence_lanes.rs:771-783 | the maximum over chains is the largest one, ties to the earliest first occurrence |
| `ChainSelection.LeaderIsUnique` | src/evidence_lanes.rs:771-783 | there is only one such chain |
| `ChainSelection.RefusalsMean` | src/evidence_lanes.rs:757-769 | each reason is recorded once for each entity without a known chain that it applies to |
| `ChainSelection.SelectEntities` | src/evidence_lanes.rs:751-791 | every entity of the leading chain is kept in input order, nothing if no chain is known; each entity without a known chain is excluded for its reason, the other chains as incompatible, and kept plus excluded is the input |
| `ChainSelection.SelectScored` | src/evidence_lanes.rs:793-847 | the chain with the most distinct ids is kept, as the stable descending sort of its entries; exclusions have their reasons and counts, and kept plus excluded is the input |
| `ChainSelection.StableSortIsUnique` | src/evidence_lanes.rs:841-845 | descending order and input order within each score determine the result |
| `ChainSelection.FormsAgreeExactlyWhen` | src/evidence_lanes.rs:751-847 | both forms pick the same chain, and return the same entities up to order, exactly when the largest chain has the most distinct ids, ties to the first occurrence |
| `ChainSelection.FormsAgree` | src/evidence_lanes.rs:751-847 | ids distinct within each chain are enough for that |
| `ChainSelection.RepeatedIdsMayDiverge` | src/evidence_lanes.rs:751-847 | with a repeated id the two forms can pick different chains |
| `EvidenceProjection.GreedyIsSound` | src/evidence_lanes.rs:892-980 | the selection keeps to the budget, no source group occurs twice across lanes, every item omitted for budget would still overflow the final selection and every repeated item still shares a group |
| `EvidenceProjection.GreedyPartitions` | src/evidence_lanes.rs:892-980 | every offered item is selected, omitted or repeated, exactly once |
| `EvidenceProjection.GreedyPrefersHigherRank` | src/evidence_lanes.rs:892-980 | any other feasible selection gives up, at the first difference, an item the projection keeps |
| `EvidenceProjection.DerivedHasPrecedence` | src/evidence_lanes.rs:892-980 | the derived lane wins what it would win alone, the verbatim lane gets what is left, and a lane that is not requested gets nothing |
| `EvidenceProjection.LanesAddUp` | src/evidence_lanes.rs:464-480 | items and tokens of the lanes sum to the totals |
| `EvidenceProjection.LedgerUpdate` | src/evidence_lanes.rs:497-513 | opening and updating a lane's line keeps the ledger sorted, one line a lane, every line right |
| `EvidenceProjection.EvidenceBudget.AccountSelected` | src/evidence_lanes.rs:515-520 | the counters stay the exact books of the selection, token counts saturating |
| `EvidenceProjection.EvidenceBudget.AccountOmitted` | src/evidence_lanes.rs:522-527 | the same for the omissions |
| `EvidenceProjection.AccountItem` | src/evidence_lanes.rs:1011-1026 | an item is taken exactly when it fits, and goes to the selected or the omitted books |
| `EvidenceProjection.Project` | src/evidence_lanes.rs:855-1009 | the projection is the greedy selection of derived then verbatim offers with exact books and one exclusion for each refusal and omission; it fails exactly for a token limit out of range |
| `Utf8.SliceIsEncoding` | src/capture.rs:308-324 | slicing the UTF-8 bytes (section 3 of RFC 3629) at character offsets yields the encoding of the substring |
| `Utf8.EncodeIsInjective` | src/capture.rs:308-324 | equal bytes come from equal text |
| `CaptureSpans.TrimmedSpanIsCore` | src/capture.rs:270-304 | a range yields its core, bounded by visible characters with only white space outside, or nothing if it is all white space |
| `CaptureSpans.SpanTextIsVerbatim` | src/capture.rs:308-324 | reading a span returns its text, except an empty span at the end of the payload, which is refused |
| `CaptureSpans.SplitJoins` | src/capture.rs:364-368 | the lines of a payload join back to it |
| `CaptureSpans.RecordRanges` | src/capture.rs:370-383 | the offsets computed are those of the record lines |
| `CaptureSpans.SectionRanges` | src/capture.rs:384-397 | the offsets computed are those of the sections that headings open |
| `CaptureSpans.ParagraphRanges` | src/capture.rs:399-422 | the offsets computed are those of the runs of non-blank lines |
| `LineRuns.RunsAreRuns` | src/capture.rs:364-422 | runs are ordered and disjoint, hold exactly the lines labelled as inside and begin exactly at the lines labelled as opening |
| `CaptureSplit.SplitCandidates` | src/capture.rs:348-433 | the three shapes, detected and split, yield the specified candidates |
| `CaptureSplit.CandidatesAreGood` | src/capture.rs:348-433 | candidates are in bounds, in order and apart, begin and end on visible characters, have at least 16 characters and quote the payload |
| `CaptureSplit.SpanReadsBack` | src/capture.rs:308-324 | reading a candidate's span returns the candidate |
| `CaptureSplit.PiecesAreCut` | src/capture.rs:348-433 | record payloads are cut by line, headed text at exactly the lines whose first visible character is a hash, and plain text at its blank lines |
| `CaptureSplit.VisibleTextIsCaptured` | src/capture.rs:348-433 | in every shape each visible character lies in the core of one of the pieces, which is a candidate exactly when it has at least 16 characters |
| `CapturePrune.MarkNotes` | src/capture.rs:607-637 | each counted note takes the first match, up to trimming, that the windows of earlier notes leave free, an uncounted note has none, windows are disjoint and the flagged lines are exactly theirs |
| `CapturePrune.WindowsAreUnique` | src/capture.rs:607-637 | these conditions leave only one list of windows |
| `CapturePrune.Collapse` | src/capture.rs:643-657 | what is rebuilt are, in order, the unflagged lines except blanks that repeat a blank; it has their paragraphs and no two blank lines together |
| `CapturePrune.DropEnds` | src/capture.rs:658-664 | a slice of the lines, with only blank lines outside it and visible lines at its ends, and the same paragraphs |
| `CapturePrune.ParagraphsHoldVisible` | src/capture.rs:643-664 | paragraphs group the visible lines in order, so equal paragraphs mean equal visible lines |
| `CapturePrune.LinesReadBack` | src/capture.rs:607-610 | lines ended by LF or by CRLF are read back, with or without an end at the very end |
| `CapturePrune.RebuiltReadsBack` | src/capture.rs:666-671 | the rebuilt text reads back as the kept lines, each without a carriage return before its break |
| `CapturePrune.ReturnsAreDropped` | src/capture.rs:666-671 | the rebuilt text has a carriage return before a break exactly where a kept line still ends in one |
| `CapturePrune.Prune` | src/capture.rs:607-673 | verbatim source if nothing was removed; otherwise the lines of the text are the unflagged source lines except blanks that repeat a blank or stand at an end, it has no adjacent or outer blank lines, and up to trimming its paragraphs are those of the lines outside the windows |
| `DriftRepair.Vault.CheckReferences` | src/drift_check.rs:67-120 | one issue for each dangling citation of a row in scope, in order |
| `DriftRepair.ReferenceIssuesMean` | src/drift_check.rs:67-120 | an issue names exactly a live row of the workspace with a derived_from link to an id that no live entity has |
| `DriftRepair.Vault.CheckGrounding` | src/drift_check.rs:124-171 | the unreviewed findings in scope, newest first, at most 500 |
| `DriftRepair.FindingsMean` | src/drift_check.rs:124-171 | a finding is exactly a row in scope that is neither ok nor reviewed, an error if it is gone and a warning otherwise |
| `DriftRepair.Vault.Check` | src/drift_check.rs:315-344 | all issues in checker order and a score between 0 and 100 |
| `DriftRepair.ScoreMeans` | src/drift_check.rs:57-62 | the score is a hundred less ten for each error, three for each warning and one for each information, and never negative |
| `DriftRepair.RepairNeverRegresses` | src/drift_check.rs:469-475 | the score after a repair is at least the score before, for every store, cut-off queries included |
| `DriftRepair.CutOffMeansZero` | src/drift_check.rs:57-62 | when the query limit hides findings the score is already zero |
| `DriftRepair.RepairedHasNoIssues` | src/drift_check.rs:361-442 | a repaired table has no dangling citation in scope |
| `DriftRepair.SoundHasNoIssues` | src/drift_check.rs:381-417 | sweeping leaves no dangling citation, changes a row exactly when it had one, and drops as many links as there were issues |
| `DriftRepair.SweepKeepsTheRest` | src/drift_check.rs:381-417 | it keeps exactly the links that do not dangle, each once and in order |
| `DriftRepair.SweepDropsExactly` | src/drift_check.rs:381-417 | a link goes exactly if it says derived_from and names an id that no live entity has |
| `DriftRepair.RepairTouchesOnly` | src/drift_check.rs:361-442 | rows outside the workspace, archived rows and columns other than the links are left alone |
| `DriftRepair.ScoreAfter` | src/drift_check.rs:352-483 | unless the query was cut off, what is left after a repair is exactly what repair never touches |
| `DriftRepair.SecondRepairUnlinksNothing` | src/drift_check.rs:361-442 | a second repair changes no links |
| `DriftRepair.RowsAreReportedOnce` | src/drift_check.rs:361-442 | the first occurrences among the reference issues are the changed rows in table order |
| `DriftRepair.Vault.UnlinkAll` | src/drift_check.rs:361-442 | the row-by-row updates repair the table and report each changed row once, in table order |
| `DriftRepair.Vault.AcknowledgeAll` | src/drift_check.rs:444-458 | every finding shown is acknowledged by target, and no other row |
| `DriftRepair.Vault.Repair` | src/drift_check.rs:352-483 | the loop always succeeds, leaves the tables repaired, reports the changed rows and then the acknowledged findings, and hands over for review exactly the issues repair never serves |
| `EvidenceSufficiency.Validate` | src/evidence_sufficiency.rs:113-193 | a requirement set is accepted exactly when it is bounded, its ids are distinct identifiers and its sublists are drawn from the required ids |
| `EvidenceSufficiency.CompleteExactlyWhen` | src/evidence_sufficiency.rs:546-570 | the outcome is complete exactly when no conflict is declared, every required item is selected, available and fresh, every anchor holds and recall was sound |
| `EvidenceOutcomes.OutcomeExactlyWhen` | src/evidence_sufficiency.rs:546-570 | each of the five outcomes, exactly, over the candidate list: abstained on a live conflict or a shortfall under that policy, unavailable when something required is absent or recall is unreachable, partial, degraded and complete |
| `EvidenceOutcomes.CountsMean` | src/evidence_sufficiency.rs:407-440 | the counts are the numbers of required ids delivered, not delivered, stale and unavailable |
| `EvidenceOutcomes.ReasonsMean` | src/evidence_sufficiency.rs:441-545 | budget and coverage drops are counted apart |
| `EvidenceOutcomes.HerringMeans` | src/evidence_sufficiency.rs:486-530 | red herrings are reported exactly if something selected was not required |
| `EvidenceOutcomes.MissingMeans` | src/evidence_sufficiency.rs:486-530 | missing, unavailable, stale and conflicting evidence are given as reasons exactly when there is any |
| `EvidenceOutcomes.CoverageReasonsMean` | src/evidence_sufficiency.rs:486-530 | so are gaps in latest versions, source groups and anchors, the last by two codes for requests with and without an anchor time |
| `EvidenceOutcomes.RecallReasonsMean` | src/evidence_sufficiency.rs:531-545 | and each degraded state of recall by its own code |
| `EvidenceOutcomes.CoverageMeans` | src/evidence_sufficiency.rs:474-500 | coverage is full exactly when each latest version is delivered, each anchor holds and each source group is served; the live conflicts and the fallback policy are reported |
| `EvidenceSufficiency.AllChosenCovers` | src/evidence_sufficiency.rs:474-498 | when all required evidence is chosen, latest and group coverage follow and any declared conflict is live |
| `EvidenceSufficiency.OmissionsBreakDown` | src/evidence_sufficiency.rs:407-466 | unavailable, stale, budget and coverage drops add up to the omissions plus the evidence that is both unavailable and stale |
| `EvidenceSufficiency.ShortfallIsExplained` | src/evidence_sufficiency.rs:500-570 | an outcome is complete exactly when no reason but ignored red herrings applies |
| `EvidenceSufficiency.ReportsAreValid` | src/evidence_sufficiency.rs:330-373 | every report that can be built passes its own validation |
| `EvidenceSufficiency.Evaluate` | src/evidence_sufficiency.rs:381-624 | evaluation fails exactly for malformed requirements or candidates, and its report is the one the counts define |
| `EvidenceSufficiency.ContextOmissionsBreakDown` | src/evidence_sufficiency.rs:644-728 | for candidates of the context path the four drops add up to the omissions exactly |
| `EvidenceOutcomes.ContextMeans` | src/evidence_sufficiency.rs:644-705 | a required id is delivered exactly when its entity is visible to the requester in scope, not withdrawn, not past its time and among the delivered; availability, staleness, anchors and drops likewise |
| `EvidenceOutcomes.OfferedMeans` | src/evidence_sufficiency.rs:706-727 | an id that is offered and not required is available and fresh, selected exactly if it was delivered, and no other id has a candidate |
| `EvidenceSufficiency.EvaluateContext` | src/evidence_sufficiency.rs:632-728 | the context path fails exactly for malformed requirements or offered ids, its report is the one defined by the required and other offered candidates, and it accounts for every omission |

## Left out

- Floating-point rounding outside the near-duplicate code: weights, gains and scores are exact reals, so the claims on modularity are those of exact arithmetic; NaN and infinite thresholds and scores are not modelled.
- DeclaredGraph.ValidateAttest: edge ids are tuples over the digested content, so the length check on the text of an id is not modelled.
- DeclaredGraphHistory.QueryShowsOneRevision: covers which edges a query without history returns, not their order, limit or the node view.
- DedupStore.FindNearDuplicate: signatures are assumed to have been built from some body, and blobs to be intact, missing or undecodable; bodies are taken as the scan compares them, without their governance metadata.
- NearDuplicate.BuildRowSignature: the content hash is an arbitrary function instead of the program's.
- DedupScan.BandDropsExactlyWhen: sizes up to 1,112,062, which strings of distinct characters reach.
- LabelTermination.ComesToRest: weights on a grid are a sufficient condition; whether sweeps can cycle when pulls differ by less than the tolerance is open.
- ContextDiff.CompareMessages: the changed spans of a diff are reduced to their number.
- ContextTransform.TransformContext: reason codes are an enumeration; token counts, character counts and the receipt's text fields are not modelled; neither is the unavailable-context receipt.
- EvidenceProjection.Project: which items a candidate offers (governance, classification, span recovery from stored sources) is an input, and the normalisation of exclusion records and the receipt are not modelled.
- CaptureSplit.SplitCandidates: whether a line parses as a JSON object is an input; a parsed record always has a non-empty note text, so that test is not repeated. Keys, summaries and classification of notes (`distill`) are not modelled.
- CapturePrune.Prune: the rewriting of the file on disk is not modelled.
- DriftRepair.Vault.Repair: path existence, contradiction and staleness checkers are an arbitrary function of the columns repair does not write; the journal is not modelled.
- EvidenceSufficiency.Evaluate: receipts and digests are not modelled, and reasons are an enumeration instead of text codes.
- Grouping labels into communities of a minimum size (`group_communities`), summaries, member digests and the rest of `global_recall`.
- SQLite, full-text search, retries, connection handling, encryption, embeddings, language-model calls and every status report: external or settled by reading one branch.
