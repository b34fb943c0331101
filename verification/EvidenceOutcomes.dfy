/** The outcomes and counts of a sufficiency report (src/evidence_sufficiency.rs,
    `evaluate` and `evaluate_context_requirements`), stated over the candidate list and
    the requirements alone, and what makes a required id count on the context path. */
module EvidenceOutcomes {
  import opened Options
  import opened EvidenceSufficiency

  // --------------------------------------------------- what the candidates say of an id

  /** Selected, available and fresh. */
  ghost predicate Delivered(cs: seq<Candidate>, id: string) {
    exists i :: 0 <= i < |cs| && cs[i].id == id && cs[i].selected && cs[i].available && !cs[i].stale
  }

  ghost predicate Available(cs: seq<Candidate>, id: string) {
    exists i :: 0 <= i < |cs| && cs[i].id == id && cs[i].available
  }

  ghost predicate OutOfDate(cs: seq<Candidate>, id: string) {
    exists i :: 0 <= i < |cs| && cs[i].id == id && cs[i].stale
  }

  /** Delivered, and valid at the anchor. */
  ghost predicate HeldAtAnchor(cs: seq<Candidate>, id: string) {
    exists i ::
      && 0 <= i < |cs| && cs[i].id == id && cs[i].selected && cs[i].available && !cs[i].stale
      && cs[i].temporalValid
  }

  /** Usable, but not selected; `budget` says whether the budget is to blame. */
  ghost predicate Dropped(cs: seq<Candidate>, id: string, budget: bool) {
    exists i ::
      && 0 <= i < |cs| && cs[i].id == id && !cs[i].selected && cs[i].available && !cs[i].stale
      && cs[i].budgetOmitted == budget
  }

  /** What the index says of an id is what its one candidate says. */
  lemma IndexMeans(cs: seq<Candidate>, ix: Index, id: string)
    requires CandidatesOk(cs) && Indexes(cs, ix)
    ensures Chosen(ix)(id) <==> Delivered(cs, id)
    ensures Missing(ix)(id) <==> !Available(cs, id)
    ensures Stale(ix)(id) <==> OutOfDate(cs, id)
    ensures Anchored(ix)(id) <==> HeldAtAnchor(cs, id)
    ensures BudgetDrop(ix)(id) <==> Dropped(cs, id, true)
    ensures CoverageDrop(ix)(id) <==> Dropped(cs, id, false)
  {
    if id in ix {
      var i :| 0 <= i < |cs| && cs[i].id == id;
      assert ix[id] == cs[i];
      forall j | 0 <= j < |cs| && cs[j].id == id ensures cs[j] == cs[i] { assert ix[id] == cs[j]; }
    } else {
      forall j | 0 <= j < |cs| ensures cs[j].id != id {}
    }
  }

  // ---------------------------------------------------------------------- the outcomes

  /** A member of a declared conflict is delivered. */
  ghost predicate ConflictLive(q: Requirements, cs: seq<Candidate>) {
    exists g :: g in q.conflicts && GroupServed(cs, g)
  }

  ghost predicate GroupServed(cs: seq<Candidate>, g: Group) {
    exists i :: 0 <= i < |g.ids| && Delivered(cs, g.ids[i])
  }

  ghost predicate AllAvailable(q: Requirements, cs: seq<Candidate>) {
    forall id :: id in q.required ==> Available(cs, id)
  }

  /** Something required is not delivered, or an anchor does not hold. */
  ghost predicate Short(q: Requirements, cs: seq<Candidate>) {
    (exists id :: id in q.required && !Delivered(cs, id)) || (exists id :: id in q.anchors && !HeldAtAnchor(cs, id))
  }

  lemma LiveMeans(q: Requirements, cs: seq<Candidate>, ix: Index)
    requires CandidatesOk(cs) && Indexes(cs, ix)
    ensures Count(q.conflicts, Represented(ix)) > 0 <==> ConflictLive(q, cs)
  {
    CountBounds(q.conflicts, Represented(ix));
    forall g ensures Represented(ix)(g) <==> GroupServed(cs, g) { ServedMeans(cs, ix, g); }
    forall i | 0 <= i < |q.conflicts| ensures q.conflicts[i] in q.conflicts {}
  }

  lemma AvailableMeans(q: Requirements, cs: seq<Candidate>, ix: Index)
    requires CandidatesOk(cs) && Indexes(cs, ix)
    ensures Count(q.required, Missing(ix)) == 0 <==> AllAvailable(q, cs)
  {
    CountBounds(q.required, Missing(ix));
    forall id ensures Missing(ix)(id) <==> !Available(cs, id) { IndexMeans(cs, ix, id); }
    forall i | 0 <= i < |q.required| ensures q.required[i] in q.required {}
  }

  /** Latest versions and source groups can only be missing if something required is. */
  lemma GapMeans(q: Requirements, cs: seq<Candidate>, ix: Index)
    requires RequirementsOk(q) && CandidatesOk(cs) && Indexes(cs, ix)
    ensures Gap(q, ix) <==> Short(q, cs)
  {
    forall id ensures (Chosen(ix)(id) <==> Delivered(cs, id)) && (Anchored(ix)(id) <==> HeldAtAnchor(cs, id)) {
      IndexMeans(cs, ix, id);
    }
    NothingOmitted(q.required, ix);
    CountBounds(q.anchors, Anchored(ix));
    if Count(q.required, Omitted(ix)) == 0 {
      AllChosenCovers(q, ix);
      forall id | id in q.required ensures Delivered(cs, id) {}
      AnchorGap(q, cs, ix);
    } else {
      var i :| 0 <= i < |q.required| && !Chosen(ix)(q.required[i]);
      assert q.required[i] in q.required && !Delivered(cs, q.required[i]);
    }
  }

  lemma AnchorGap(q: Requirements, cs: seq<Candidate>, ix: Index)
    requires forall id :: Anchored(ix)(id) <==> HeldAtAnchor(cs, id)
    ensures Temporal(q, ix).missing != 0 <==> exists id :: id in q.anchors && !HeldAtAnchor(cs, id)
  {
    CountBounds(q.anchors, Anchored(ix));
    if i :| 0 <= i < |q.anchors| && !Anchored(ix)(q.anchors[i]) { assert q.anchors[i] in q.anchors; }
  }

  /** Each outcome, exactly. */
  lemma OutcomeExactlyWhen(q: Requirements, cs: seq<Candidate>, ix: Index, status: Recall)
    requires RequirementsOk(q) && CandidatesOk(cs) && Indexes(cs, ix)
    ensures var outcome := OutcomeOf(q, ix, status);
      var live, usable, short := ConflictLive(q, cs), AllAvailable(q, cs) && status != Unreachable, Short(q, cs);
      && (outcome == Abstained <==> live || (usable && short && q.policy == Abstain))
      && (outcome == Unavailable <==> !live && !usable)
      && (outcome == Partial <==> !live && usable && short && q.policy == CanonicalRetrieval)
      && (outcome == Degraded <==> !live && usable && !short && status in {Partially, Timeout, Outdated})
      && (outcome == Complete <==> !live && usable && !short && status in {Fresh, Empty})
  {
    LiveMeans(q, cs, ix);
    AvailableMeans(q, cs, ix);
    GapMeans(q, cs, ix);
  }

  // ------------------------------------------------------------------------ the counts

  /** Among distinct ids, the count is the size of a set. */
  lemma {:induction false} CountIsSize(ids: seq<string>, p: string -> bool, s: set<string>)
    requires Distinct(ids) && forall id :: id in s <==> id in ids && p(id)
    ensures Count(ids, p) == |s|
  {
    if ids == [] {
      assert s == {};
    } else {
      var front, last := ids[..|ids| - 1], ids[|ids| - 1];
      assert ids == front + [last];
      CountIsSize(front, p, s - {last});
    }
  }

  /** The counts of a report are the numbers of required ids with each property, of live
      conflicts and of selected candidates that nobody required. */
  lemma CountsMean(q: Requirements, cs: seq<Candidate>, ix: Index, status: Recall, delivered: set<string>,
                   stale: set<string>, absent: set<string>)
    requires RequirementsOk(q) && CandidatesOk(cs) && Indexes(cs, ix)
    requires forall id :: id in delivered <==> id in q.required && Delivered(cs, id)
    requires forall id :: id in stale <==> id in q.required && OutOfDate(cs, id)
    requires forall id :: id in absent <==> id in q.required && !Available(cs, id)
    ensures var c := ReportOf(q, cs, ix, status).counts;
      && c.required == |q.required| && c.selected == |delivered| && c.omitted == |q.required| - |delivered|
      && c.stale == |stale| && c.unavailable == |absent|
  {
    forall id ensures (Chosen(ix)(id) <==> Delivered(cs, id)) && (Stale(ix)(id) <==> OutOfDate(cs, id))
      && (Missing(ix)(id) <==> !Available(cs, id))
    {
      IndexMeans(cs, ix, id);
    }
    CountIsSize(q.required, Chosen(ix), delivered);
    CountIsSize(q.required, Stale(ix), stale);
    CountIsSize(q.required, Missing(ix), absent);
    ChosenOrOmitted(q.required, ix);
  }

  lemma DropsMean(q: Requirements, cs: seq<Candidate>, ix: Index, overBudget: set<string>, uncovered: set<string>)
    requires RequirementsOk(q) && CandidatesOk(cs) && Indexes(cs, ix)
    requires forall id :: id in overBudget <==> id in q.required && Dropped(cs, id, true)
    requires forall id :: id in uncovered <==> id in q.required && Dropped(cs, id, false)
    ensures Count(q.required, BudgetDrop(ix)) == |overBudget| && Count(q.required, CoverageDrop(ix)) == |uncovered|
  {
    forall id
      ensures BudgetDrop(ix)(id) <==> Dropped(cs, id, true)
      ensures CoverageDrop(ix)(id) <==> Dropped(cs, id, false)
    {
      IndexMeans(cs, ix, id);
    }
    CountIsSize(q.required, BudgetDrop(ix), overBudget);
    CountIsSize(q.required, CoverageDrop(ix), uncovered);
  }

  /** The two kinds of drops among the reasons. */
  lemma ReasonsMean(q: Requirements, cs: seq<Candidate>, ix: Index, status: Recall, overBudget: set<string>,
                    uncovered: set<string>)
    requires RequirementsOk(q) && CandidatesOk(cs) && Indexes(cs, ix)
    requires forall id :: id in overBudget <==> id in q.required && Dropped(cs, id, true)
    requires forall id :: id in uncovered <==> id in q.required && Dropped(cs, id, false)
    ensures var reasons := Reasons(q, cs, ix, status);
      && (DroppedBudget in reasons <==> overBudget != {})
      && (DroppedBudget in reasons ==> reasons[DroppedBudget] == |overBudget|)
      && (DroppedCoverage in reasons <==> uncovered != {})
      && (DroppedCoverage in reasons ==> reasons[DroppedCoverage] == |uncovered|)
  {
    DropsMean(q, cs, ix, overBudget, uncovered);
    ReasonIn(q, cs, ix, status, DroppedBudget);
    ReasonIn(q, cs, ix, status, DroppedCoverage);
  }

  /** Red herrings are reported exactly if a candidate is selected that nobody required. */
  lemma HerringMeans(q: Requirements, cs: seq<Candidate>, ix: Index, status: Recall)
    ensures RedHerringIgnored in Reasons(q, cs, ix, status) <==>
      exists i :: 0 <= i < |cs| && cs[i].selected && cs[i].id !in q.required
  {
    CountBounds(cs, Herring(q.required));
    ReasonIn(q, cs, ix, status, RedHerringIgnored);
  }

  /** The reasons that stand for something missing, each exactly when it is. */
  lemma MissingMeans(q: Requirements, cs: seq<Candidate>, ix: Index, status: Recall)
    requires RequirementsOk(q) && CandidatesOk(cs) && Indexes(cs, ix)
    ensures var reasons := Reasons(q, cs, ix, status);
      && (MissingRequired in reasons <==> exists id :: id in q.required && !Delivered(cs, id))
      && (UnavailableEvidence in reasons <==> exists id :: id in q.required && !Available(cs, id))
      && (StaleEvidence in reasons <==> exists id :: id in q.required && OutOfDate(cs, id))
      && (ConflictingEvidence in reasons <==> ConflictLive(q, cs))
  {
    RequiredReasons(q, cs, ix);
    LiveMeans(q, cs, ix);
    ReasonIn(q, cs, ix, status, MissingRequired);
    ReasonIn(q, cs, ix, status, UnavailableEvidence);
    ReasonIn(q, cs, ix, status, StaleEvidence);
    ReasonIn(q, cs, ix, status, ConflictingEvidence);
  }

  lemma RequiredReasons(q: Requirements, cs: seq<Candidate>, ix: Index)
    requires CandidatesOk(cs) && Indexes(cs, ix)
    ensures Count(q.required, Omitted(ix)) > 0 <==> exists id :: id in q.required && !Delivered(cs, id)
    ensures Count(q.required, Missing(ix)) > 0 <==> exists id :: id in q.required && !Available(cs, id)
    ensures Count(q.required, Stale(ix)) > 0 <==> exists id :: id in q.required && OutOfDate(cs, id)
  {
    forall id
      ensures Omitted(ix)(id) <==> !Delivered(cs, id)
      ensures Missing(ix)(id) <==> !Available(cs, id)
      ensures Stale(ix)(id) <==> OutOfDate(cs, id)
    {
      IndexMeans(cs, ix, id);
    }
    SomeCounted(q.required, Omitted(ix));
    SomeCounted(q.required, Missing(ix));
    SomeCounted(q.required, Stale(ix));
  }

  lemma SomeCounted(ids: seq<string>, p: string -> bool)
    ensures Count(ids, p) > 0 <==> exists id :: id in ids && p(id)
  {
    CountBounds(ids, p);
    if i :| 0 <= i < |ids| && p(ids[i]) { assert ids[i] in ids; }
  }

  /** The reasons that stand for coverage; which one an unmet anchor gives depends on
      whether an anchor time was named. */
  lemma CoverageReasonsMean(q: Requirements, cs: seq<Candidate>, ix: Index, status: Recall)
    requires RequirementsOk(q) && CandidatesOk(cs) && Indexes(cs, ix)
    ensures var reasons := Reasons(q, cs, ix, status);
      && (MissingLatestVersion in reasons <==> !(forall i :: 0 <= i < |q.latest| ==> Delivered(cs, q.latest[i])))
      && (MissingSourceGroup in reasons <==> !(forall i :: 0 <= i < |q.groups| ==> GroupServed(cs, q.groups[i])))
      && (MissingTemporalAnchor in reasons <==> q.anchorTime.None? && AnchorUnmet(q, cs))
      && (MissingTemporalEvidence in reasons <==> q.anchorTime.Some? && AnchorUnmet(q, cs))
  {
    ListsMean(q, cs, ix);
    GroupsMean(q, cs, ix);
    ReasonIn(q, cs, ix, status, MissingLatestVersion);
    ReasonIn(q, cs, ix, status, MissingSourceGroup);
    ReasonIn(q, cs, ix, status, MissingTemporalAnchor);
    ReasonIn(q, cs, ix, status, MissingTemporalEvidence);
  }

  ghost predicate AnchorUnmet(q: Requirements, cs: seq<Candidate>) {
    !(forall i :: 0 <= i < |q.anchors| ==> HeldAtAnchor(cs, q.anchors[i]))
  }

  /** The reasons that stand for the state of recall. */
  lemma RecallReasonsMean(q: Requirements, cs: seq<Candidate>, ix: Index, status: Recall)
    ensures var reasons := Reasons(q, cs, ix, status);
      && (RecallPartial in reasons <==> status == Partially) && (RecallTimeout in reasons <==> status == Timeout)
      && (RecallStale in reasons <==> status == Outdated) && (RecallUnavailable in reasons <==> status == Unreachable)
  {
    ReasonIn(q, cs, ix, status, RecallPartial);
    ReasonIn(q, cs, ix, status, RecallTimeout);
    ReasonIn(q, cs, ix, status, RecallStale);
    ReasonIn(q, cs, ix, status, RecallUnavailable);
  }

  lemma ReasonIn(q: Requirements, cs: seq<Candidate>, ix: Index, status: Recall, r: Reason)
    ensures r in Reasons(q, cs, ix, status) <==> ReasonCount(q, cs, ix, status, r) > 0
    ensures r in Reasons(q, cs, ix, status) ==> Reasons(q, cs, ix, status)[r] == ReasonCount(q, cs, ix, status, r)
  {}

  /** Coverage is full exactly when each latest version is delivered, each anchor holds and
      each source group has a delivered member; the live conflicts are reported, and the
      fallback policy exactly when the outcome is not complete. */
  lemma CoverageMeans(q: Requirements, cs: seq<Candidate>, ix: Index, status: Recall)
    requires RequirementsOk(q) && CandidatesOk(cs) && Indexes(cs, ix)
    ensures var r := ReportOf(q, cs, ix, status);
      && r.latest.required == |q.latest| && r.temporal.required == |q.anchors| && r.groups.required == |q.groups|
      && (r.latest.missing == 0 <==> forall i :: 0 <= i < |q.latest| ==> Delivered(cs, q.latest[i]))
      && (r.temporal.missing == 0 <==> forall i :: 0 <= i < |q.anchors| ==> HeldAtAnchor(cs, q.anchors[i]))
      && (r.groups.missing == 0 <==> forall i :: 0 <= i < |q.groups| ==> GroupServed(cs, q.groups[i]))
      && (forall g :: g in r.conflicts <==> g in q.conflicts && GroupServed(cs, g))
      && r.fallback == if r.outcome == Complete then None else Some(q.policy)
  {
    ListsMean(q, cs, ix);
    GroupsMean(q, cs, ix);
    forall g ensures g in Live(q.conflicts, ix) <==> g in q.conflicts && GroupServed(cs, g) {
      LiveHas(q.conflicts, ix, g);
      ServedMeans(cs, ix, g);
    }
  }

  lemma ListsMean(q: Requirements, cs: seq<Candidate>, ix: Index)
    requires CandidatesOk(cs) && Indexes(cs, ix)
    ensures Latest(q, ix).missing == 0 <==> forall i :: 0 <= i < |q.latest| ==> Delivered(cs, q.latest[i])
    ensures Temporal(q, ix).missing == 0 <==> forall i :: 0 <= i < |q.anchors| ==> HeldAtAnchor(cs, q.anchors[i])
  {
    forall id ensures (Chosen(ix)(id) <==> Delivered(cs, id)) && (Anchored(ix)(id) <==> HeldAtAnchor(cs, id)) {
      IndexMeans(cs, ix, id);
    }
    CountBounds(q.latest, Chosen(ix));
    CountBounds(q.anchors, Anchored(ix));
  }

  lemma GroupsMean(q: Requirements, cs: seq<Candidate>, ix: Index)
    requires RequirementsOk(q) && CandidatesOk(cs) && Indexes(cs, ix)
    ensures SourceGroups(q, ix).missing == 0 <==> forall i :: 0 <= i < |q.groups| ==> GroupServed(cs, q.groups[i])
  {
    CountBounds(Names(q.groups), GroupChosen(ix, q.groups));
    forall i | 0 <= i < |q.groups|
      ensures GroupChosen(ix, q.groups)(Names(q.groups)[i]) <==> GroupServed(cs, q.groups[i])
    {
      NamedGroup(q.groups, i);
      ServedMeans(cs, ix, q.groups[i]);
    }
  }

  lemma ServedMeans(cs: seq<Candidate>, ix: Index, g: Group)
    requires CandidatesOk(cs) && Indexes(cs, ix)
    ensures Represented(ix)(g) <==> GroupServed(cs, g)
  {
    forall i | 0 <= i < |g.ids| ensures Chosen(ix)(g.ids[i]) <==> Delivered(cs, g.ids[i]) {
      IndexMeans(cs, ix, g.ids[i]);
    }
  }

  lemma {:induction false} LiveHas(conflicts: seq<Group>, ix: Index, g: Group)
    ensures g in Live(conflicts, ix) <==> g in conflicts && Represented(ix)(g)
  {
    if conflicts != [] { LiveHas(conflicts[..|conflicts| - 1], ix, g); }
  }

  // ------------------------------------------------------------------ the context path

  /** The entity exists, is in scope, and the requester may see it. */
  predicate Visible(found: Lookup) {
    && found.Found? && found.inScope && found.allowed
    && (found.readable || found.status == "deprecated" || found.status == "expired")
  }

  predicate Withdrawn(found: Lookup)
    requires found.Found?
  {
    found.archived || found.status == "redacted" || found.status == "quarantined" || found.status == "compacted"
  }

  predicate PastItsTime(found: Lookup)
    requires found.Found?
  {
    found.expired || found.status == "deprecated" || found.status == "expired"
  }

  /** What becomes of a required id on the context path. */
  lemma ContextMeans(q: Requirements, lookup: string -> Lookup, offered: seq<string>, delivered: set<string>,
                     id: string)
    requires RequirementsOk(q) && Distinct(offered) && id in q.required
    ensures var cs := LookedUp(q, lookup, offered, delivered) + Others(offered, q.required, delivered);
      var found := lookup(id);
      && (Available(cs, id) <==> Visible(found) && !Withdrawn(found))
      && (OutOfDate(cs, id) <==> Visible(found) && !Withdrawn(found) && PastItsTime(found))
      && (Delivered(cs, id) <==> Visible(found) && !Withdrawn(found) && !PastItsTime(found) && id in delivered)
      && (HeldAtAnchor(cs, id) <==> Delivered(cs, id) && q.anchorTime.Some? && found.holdsAtAnchor)
      && (Dropped(cs, id, true) <==>
           Visible(found) && !Withdrawn(found) && !PastItsTime(found) && id !in delivered && id in offered)
      && (Dropped(cs, id, false) <==>
           Visible(found) && !Withdrawn(found) && !PastItsTime(found) && id !in delivered && id !in offered)
  {
    var cs := LookedUp(q, lookup, offered, delivered) + Others(offered, q.required, delivered);
    var k := OnlyCandidate(q, lookup, offered, delivered, id);
    CandidateMeans(cs, id, k);
  }

  /** An id that is offered and not required is available and fresh, and selected exactly
      if it was delivered; no other id has a candidate. */
  lemma OfferedMeans(q: Requirements, lookup: string -> Lookup, offered: seq<string>, delivered: set<string>,
                     id: string)
    requires RequirementsOk(q) && Distinct(offered) && id !in q.required
    ensures var cs := LookedUp(q, lookup, offered, delivered) + Others(offered, q.required, delivered);
      && (Available(cs, id) <==> id in offered) && !OutOfDate(cs, id)
      && (Delivered(cs, id) <==> id in offered && id in delivered)
  {
    var a, b := LookedUp(q, lookup, offered, delivered), Others(offered, q.required, delivered);
    var cs := a + b;
    forall j | 0 <= j < |a| ensures cs[j].id != id { assert a[j].id == q.required[j] && q.required[j] in q.required; }
    forall j | |a| <= j < |cs| && cs[j].id == id
      ensures cs[j] == Candidate(id, id in delivered, true, false, false, false) && id in offered
    {
      OtherMeans(offered, q.required, delivered, j - |a|);
      assert cs[j] == b[j - |a|];
    }
    if id in offered {
      OthersAreAll(offered, q.required, delivered, id);
      var k :| 0 <= k < |b| && b[k].id == id;
      assert cs[|a| + k] == b[k];
    }
  }

  lemma {:induction false} OtherMeans(offered: seq<string>, required: seq<string>, delivered: set<string>, k: int)
    requires 0 <= k < |Others(offered, required, delivered)|
    ensures var c := Others(offered, required, delivered)[k];
      c == Candidate(c.id, c.id in delivered, true, false, false, false) && c.id in offered
  {
    var front := offered[..|offered| - 1];
    if k < |Others(front, required, delivered)| {
      OtherMeans(front, required, delivered, k);
      assert offered == front + [offered[|offered| - 1]];
    }
  }

  /** The one candidate for a required id is its lookup. */
  lemma OnlyCandidate(q: Requirements, lookup: string -> Lookup, offered: seq<string>, delivered: set<string>,
                      id: string)
    returns (k: nat)
    requires RequirementsOk(q) && Distinct(offered) && id in q.required
    ensures var cs := LookedUp(q, lookup, offered, delivered) + Others(offered, q.required, delivered);
      && k < |cs| && (forall j :: 0 <= j < |cs| ==> (cs[j].id == id <==> j == k))
      && cs[k] == Fetch(id, lookup(id), q.anchorTime.Some?, id in offered, id in delivered)
  {
    var a, b := LookedUp(q, lookup, offered, delivered), Others(offered, q.required, delivered);
    k :| 0 <= k < |q.required| && q.required[k] == id;
    assert a[k] == Fetch(id, lookup(id), q.anchorTime.Some?, id in offered, id in delivered);
    assert (a + b)[k] == a[k] && a[k].id == id;
    ContextIdsAreDistinct(q, lookup, offered, delivered);
    OnlyOne(a + b, k);
  }

  lemma OnlyOne(cs: seq<Candidate>, k: nat)
    requires k < |cs| && DistinctIds(cs)
    ensures forall j :: 0 <= j < |cs| ==> (cs[j].id == cs[k].id <==> j == k)
  {}

  lemma CandidateMeans(cs: seq<Candidate>, id: string, k: nat)
    requires k < |cs| && forall j :: 0 <= j < |cs| ==> (cs[j].id == id <==> j == k)
    ensures Available(cs, id) <==> cs[k].available
    ensures OutOfDate(cs, id) <==> cs[k].stale
    ensures Delivered(cs, id) <==> cs[k].selected && cs[k].available && !cs[k].stale
    ensures HeldAtAnchor(cs, id) <==> cs[k].selected && cs[k].available && !cs[k].stale && cs[k].temporalValid
    ensures forall budget :: Dropped(cs, id, budget) <==>
      !cs[k].selected && cs[k].available && !cs[k].stale && cs[k].budgetOmitted == budget
  {}
}
