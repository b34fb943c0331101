/** The answer-serving sufficiency contract (src/evidence_sufficiency.rs): whether
    the evidence a task requires was delivered, reduced to one outcome and a set of
    counts. Digests and receipts are not modelled. */
module EvidenceSufficiency {
  import opened Options

  const SCHEMA := "perseus-vault-evidence-sufficiency/v1"
  const MAX_REQUIRED_EVIDENCE := 256
  const MAX_SOURCE_GROUPS := 128
  const MAX_CONFLICTS := 128
  const MAX_IDENTIFIER_CHARS := 128

  datatype Policy = Abstain | CanonicalRetrieval
  datatype Group = Group(name: string, ids: seq<string>)
  datatype Requirements = Requirements(schema: string, required: seq<string>, latest: seq<string>, anchors: seq<string>,
                                       groups: seq<Group>, conflicts: seq<Group>, anchorTime: Option<int>,
                                       policy: Policy)

  datatype Candidate = Candidate(id: string, selected: bool, available: bool, stale: bool, temporalValid: bool,
                                 budgetOmitted: bool)
  datatype Recall = Fresh | Empty | Partially | Timeout | Outdated | Unreachable
  datatype Outcome = Complete | Partial | Degraded | Abstained | Unavailable

  // ------------------------------------------------------------------ validation

  predicate AlphaNumeric(c: char) {
    'a' <= c <= 'z' || 'A' <= c <= 'Z' || '0' <= c <= '9'
  }

  predicate OpaqueId(s: string) {
    && 0 < |s| <= MAX_IDENTIFIER_CHARS && AlphaNumeric(s[0])
    && forall i :: 0 < i < |s| ==> AlphaNumeric(s[i]) || s[i] in {'.', '_', ':', '/', '-'}
  }

  ghost predicate Distinct<T>(xs: seq<T>) {
    forall i, j :: 0 <= i < j < |xs| ==> xs[i] != xs[j]
  }

  ghost predicate UniqueIds(ids: seq<string>) {
    Distinct(ids) && forall i :: 0 <= i < |ids| ==> OpaqueId(ids[i])
  }

  ghost predicate UniqueIdsIn(ids: seq<string>, parent: seq<string>) {
    UniqueIds(ids) && forall i :: 0 <= i < |ids| ==> ids[i] in parent
  }

  ghost predicate GroupsOk(groups: seq<Group>, least: nat, required: seq<string>) {
    && (forall i :: 0 <= i < |groups| ==>
         OpaqueId(groups[i].name) && |groups[i].ids| >= least && UniqueIdsIn(groups[i].ids, required))
    && (forall i, j :: 0 <= i < j < |groups| ==> groups[i].name != groups[j].name)
  }

  ghost predicate RequirementsOk(q: Requirements) {
    && q.schema == SCHEMA && 0 < |q.required| <= MAX_REQUIRED_EVIDENCE && UniqueIds(q.required)
    && UniqueIdsIn(q.latest, q.required) && UniqueIdsIn(q.anchors, q.required)
    && (q.anchorTime.Some? ==> q.anchorTime.value >= 0)
    && |q.groups| <= MAX_SOURCE_GROUPS && GroupsOk(q.groups, 1, q.required)
    && |q.conflicts| <= MAX_CONFLICTS && GroupsOk(q.conflicts, 2, q.required)
  }

  method ValidateUniqueIds(ids: seq<string>) returns (ok: bool)
    ensures ok <==> UniqueIds(ids)
  {
    var seen: set<string> := {};
    for k := 0 to |ids|
      invariant forall i :: 0 <= i < k ==> OpaqueId(ids[i])
      invariant forall s :: s in seen <==> exists i :: 0 <= i < k && ids[i] == s
      invariant Distinct(ids[..k])
    {
      if !OpaqueId(ids[k]) || ids[k] in seen {
        if OpaqueId(ids[k]) {
          var i :| 0 <= i < k && ids[i] == ids[k];
        }
        return false;
      }
      seen := seen + {ids[k]};
    }
    assert ids[..|ids|] == ids;
    ok := true;
  }

  method ValidateSubset(ids: seq<string>, parent: seq<string>) returns (ok: bool)
    ensures ok <==> UniqueIdsIn(ids, parent)
  {
    ok := ValidateUniqueIds(ids);
    ok := ok && forall i :: 0 <= i < |ids| ==> ids[i] in parent;
  }

  method ValidateGroups(groups: seq<Group>, least: nat, required: seq<string>) returns (ok: bool)
    ensures ok <==> GroupsOk(groups, least, required)
  {
    var names: set<string> := {};
    for k := 0 to |groups|
      invariant GroupsOk(groups[..k], least, required)
      invariant forall s :: s in names <==> exists i :: 0 <= i < k && groups[i].name == s
    {
      var subset := ValidateSubset(groups[k].ids, required);
      if !OpaqueId(groups[k].name) || groups[k].name in names || |groups[k].ids| < least || !subset {
        BadGroup(groups, k, least, required);
        return false;
      }
      assert groups[..k + 1] == groups[..k] + [groups[k]];
      names := names + {groups[k].name};
    }
    assert groups[..|groups|] == groups;
    ok := true;
  }

  lemma BadGroup(groups: seq<Group>, k: nat, least: nat, required: seq<string>)
    requires k < |groups|
    requires !OpaqueId(groups[k].name) || |groups[k].ids| < least || !UniqueIdsIn(groups[k].ids, required)
      || exists i :: 0 <= i < k && groups[i].name == groups[k].name
    ensures !GroupsOk(groups, least, required)
  {}

  method Validate(q: Requirements) returns (ok: bool)
    ensures ok <==> RequirementsOk(q)
  {
    if q.schema != SCHEMA || |q.required| == 0 || |q.required| > MAX_REQUIRED_EVIDENCE {
      return false;
    }
    var requiredOk := ValidateUniqueIds(q.required);
    var latestOk := ValidateSubset(q.latest, q.required);
    var anchorsOk := ValidateSubset(q.anchors, q.required);
    var groupsOk := ValidateGroups(q.groups, 1, q.required);
    var conflictsOk := ValidateGroups(q.conflicts, 2, q.required);
    ok := requiredOk && latestOk && anchorsOk && (q.anchorTime.Some? ==> q.anchorTime.value >= 0)
      && |q.groups| <= MAX_SOURCE_GROUPS && groupsOk && |q.conflicts| <= MAX_CONFLICTS && conflictsOk;
  }

  // -------------------------------------------------------------------- counting

  function Count<T>(xs: seq<T>, p: T -> bool): nat {
    if xs == [] then 0 else Count(xs[..|xs| - 1], p) + One(p(xs[|xs| - 1]))
  }

  lemma {:induction false} CountBounds<T>(xs: seq<T>, p: T -> bool)
    ensures Count(xs, p) <= |xs|
    ensures Count(xs, p) == |xs| <==> forall i :: 0 <= i < |xs| ==> p(xs[i])
    ensures Count(xs, p) == 0 <==> forall i :: 0 <= i < |xs| ==> !p(xs[i])
  {
    if xs != [] { CountBounds(xs[..|xs| - 1], p); }
  }

  type Index = map<string, Candidate>

  function Chosen(ix: Index): string -> bool {
    (id: string) => id in ix && ix[id].selected && ix[id].available && !ix[id].stale
  }

  function Omitted(ix: Index): string -> bool { (id: string) => !Chosen(ix)(id) }

  function Stale(ix: Index): string -> bool { (id: string) => id in ix && ix[id].stale }

  function Missing(ix: Index): string -> bool { (id: string) => id !in ix || !ix[id].available }

  function BudgetDrop(ix: Index): string -> bool {
    (id: string) => id in ix && ix[id].budgetOmitted && ix[id].available && !ix[id].stale && !Chosen(ix)(id)
  }

  function CoverageDrop(ix: Index): string -> bool {
    (id: string) => id in ix && ix[id].available && !ix[id].stale && !ix[id].budgetOmitted && !Chosen(ix)(id)
  }

  function Anchored(ix: Index): string -> bool {
    (id: string) => id in ix && Chosen(ix)(id) && ix[id].temporalValid
  }

  /** Both out of reach and out of date, and so counted twice. */
  function Overlap(ix: Index): string -> bool { (id: string) => id in ix && ix[id].stale && !ix[id].available }

  function Represented(ix: Index): Group -> bool {
    (g: Group) => exists i :: 0 <= i < |g.ids| && Chosen(ix)(g.ids[i])
  }

  /** A group looked up by name, as the coverage of source groups does. */
  function GroupChosen(ix: Index, groups: seq<Group>): string -> bool {
    (name: string) => FindGroup(groups, name) < |groups| && Represented(ix)(groups[FindGroup(groups, name)])
  }

  function FindGroup(groups: seq<Group>, name: string): (i: nat)
    ensures i <= |groups| && (i < |groups| ==> groups[i].name == name)
    ensures forall j :: 0 <= j < i ==> groups[j].name != name
  {
    if groups == [] || groups[0].name == name then 0 else 1 + FindGroup(groups[1..], name)
  }

  function Names(groups: seq<Group>): (names: seq<string>)
    ensures |names| == |groups| && forall i :: 0 <= i < |groups| ==> names[i] == groups[i].name
  {
    seq(|groups|, i requires 0 <= i < |groups| => groups[i].name)
  }

  function Herring(required: seq<string>): Candidate -> bool {
    (c: Candidate) => c.selected && c.id !in required
  }

  /** The four shortfalls add up to the omissions, but for evidence that is both
      unavailable and stale, which counts twice. */
  lemma {:induction false} OmissionsBreakDown(ids: seq<string>, ix: Index)
    ensures Count(ids, Missing(ix)) + Count(ids, Stale(ix)) + Count(ids, BudgetDrop(ix)) + Count(ids, CoverageDrop(ix))
         == Count(ids, Omitted(ix)) + Count(ids, Overlap(ix))
  {
    if ids != [] {
      OmissionsBreakDown(ids[..|ids| - 1], ix);
      OneOmission(ids[|ids| - 1], ix);
    }
  }

  function One(b: bool): nat { if b then 1 else 0 }

  lemma OneOmission(id: string, ix: Index)
    ensures One(Missing(ix)(id)) + One(Stale(ix)(id)) + One(BudgetDrop(ix)(id)) + One(CoverageDrop(ix)(id))
         == One(Omitted(ix)(id)) + One(Overlap(ix)(id))
  {
    assert Omitted(ix)(id) == !Chosen(ix)(id);
    if id in ix { assert Chosen(ix)(id) == (ix[id].selected && ix[id].available && !ix[id].stale); }
  }

  lemma {:induction false} ChosenOrOmitted(ids: seq<string>, ix: Index)
    ensures Count(ids, Chosen(ix)) + Count(ids, Omitted(ix)) == |ids|
  {
    if ids != [] { ChosenOrOmitted(ids[..|ids| - 1], ix); }
  }

  // ------------------------------------------------------------------ the report

  datatype Coverage = Coverage(required: nat, selected: nat, missing: nat)
  datatype Counts = Counts(required: nat, selected: nat, omitted: nat, stale: nat, conflicting: nat, unavailable: nat,
                           redHerring: nat)
  datatype Reason =
    | MissingRequired | MissingLatestVersion | MissingTemporalAnchor | MissingTemporalEvidence | MissingSourceGroup
    | StaleEvidence | UnavailableEvidence | ConflictingEvidence | DroppedBudget | DroppedCoverage | RedHerringIgnored
    | RecallPartial | RecallTimeout | RecallStale | RecallUnavailable

  datatype Report = Report(outcome: Outcome, counts: Counts, latest: Coverage, temporal: Coverage, groups: Coverage,
                           reasons: map<Reason, nat>, fallback: Option<Policy>, conflicts: seq<Group>)

  function Covered(ids: seq<string>, p: string -> bool): Coverage {
    CountBounds(ids, p);
    Coverage(|ids|, Count(ids, p), |ids| - Count(ids, p))
  }

  function Decide(conflicting: nat, unavailable: nat, gap: bool, status: Recall, policy: Policy): Outcome {
    if conflicting > 0 then Abstained
    else if unavailable > 0 || status == Unreachable then Unavailable
    else if gap then (if policy == Abstain then Abstained else Partial)
    else if status in {Partially, Timeout, Outdated} then Degraded
    else Complete
  }

  function Latest(q: Requirements, ix: Index): Coverage { Covered(q.latest, Chosen(ix)) }

  function Temporal(q: Requirements, ix: Index): Coverage { Covered(q.anchors, Anchored(ix)) }

  function SourceGroups(q: Requirements, ix: Index): Coverage { Covered(Names(q.groups), GroupChosen(ix, q.groups)) }

  predicate Gap(q: Requirements, ix: Index) {
    Count(q.required, Omitted(ix)) != 0 || Latest(q, ix).missing != 0 || Temporal(q, ix).missing != 0
    || SourceGroups(q, ix).missing != 0
  }

  function OutcomeOf(q: Requirements, ix: Index, status: Recall): Outcome {
    Decide(Count(q.conflicts, Represented(ix)), Count(q.required, Missing(ix)), Gap(q, ix), status, q.policy)
  }

  /** Exactly when the evidence is complete: no conflict is declared, every required
      item was chosen, every anchor holds, and recall was sound. */
  ghost predicate FullyCovered(q: Requirements, ix: Index, status: Recall) {
    && q.conflicts == [] && (forall i :: 0 <= i < |q.required| ==> Chosen(ix)(q.required[i]))
    && (forall i :: 0 <= i < |q.anchors| ==> q.anchors[i] in ix && ix[q.anchors[i]].temporalValid)
    && (status == Fresh || status == Empty)
  }

  lemma CompleteExactlyWhen(q: Requirements, ix: Index, status: Recall)
    requires RequirementsOk(q)
    ensures OutcomeOf(q, ix, status) == Complete <==> FullyCovered(q, ix, status)
  {
    NothingOmitted(q.required, ix);
    if Count(q.required, Omitted(ix)) == 0 {
      AllChosenCovers(q, ix);
      AnchorsHold(q.anchors, q.required, ix);
      NoneLive(q.conflicts, ix);
      DecideComplete(Count(q.conflicts, Represented(ix)), 0, Gap(q, ix), status, q.policy);
    } else {
      DecideComplete(Count(q.conflicts, Represented(ix)), Count(q.required, Missing(ix)), true, status, q.policy);
    }
  }

  lemma NoneLive(conflicts: seq<Group>, ix: Index)
    ensures conflicts == [] ==> Count(conflicts, Represented(ix)) == 0
  {}

  lemma DecideComplete(conflicting: nat, unavailable: nat, gap: bool, status: Recall, policy: Policy)
    ensures Decide(conflicting, unavailable, gap, status, policy) == Complete <==>
      conflicting == 0 && unavailable == 0 && !gap && (status == Fresh || status == Empty)
  {}

  lemma NothingOmitted(ids: seq<string>, ix: Index)
    ensures Count(ids, Omitted(ix)) == 0 <==> forall i :: 0 <= i < |ids| ==> Chosen(ix)(ids[i])
    ensures Count(ids, Omitted(ix)) == 0 ==> Count(ids, Missing(ix)) == 0
  {
    CountBounds(ids, Omitted(ix));
    CountBounds(ids, Missing(ix));
    forall id | id in ids ensures Omitted(ix)(id) == !Chosen(ix)(id) && (Chosen(ix)(id) ==> !Missing(ix)(id)) {}
  }

  lemma AnchorsHold(anchors: seq<string>, required: seq<string>, ix: Index)
    requires UniqueIdsIn(anchors, required) && forall i :: 0 <= i < |required| ==> Chosen(ix)(required[i])
    ensures Count(anchors, Anchored(ix)) == |anchors| <==>
      forall i :: 0 <= i < |anchors| ==> anchors[i] in ix && ix[anchors[i]].temporalValid
  {
    SubsetChosen(anchors, required, ix);
    CountBounds(anchors, Anchored(ix));
  }

  /** When all required evidence is chosen, the latest versions and source groups
      follow, and any declared conflict is live. */
  lemma AllChosenCovers(q: Requirements, ix: Index)
    requires RequirementsOk(q) && forall i :: 0 <= i < |q.required| ==> Chosen(ix)(q.required[i])
    ensures Latest(q, ix).missing == 0 && SourceGroups(q, ix).missing == 0
    ensures q.conflicts != [] ==> Count(q.conflicts, Represented(ix)) > 0
  {
    SubsetChosen(q.latest, q.required, ix);
    CountBounds(q.latest, Chosen(ix));
    AllGroupsChosen(q.groups, q.required, ix);
    if q.conflicts != [] { ConflictIsLive(q.conflicts, q.required, ix); }
  }

  lemma AllGroupsChosen(groups: seq<Group>, required: seq<string>, ix: Index)
    requires GroupsOk(groups, 1, required) && forall i :: 0 <= i < |required| ==> Chosen(ix)(required[i])
    ensures Count(Names(groups), GroupChosen(ix, groups)) == |Names(groups)|
  {
    forall i | 0 <= i < |groups| ensures GroupChosen(ix, groups)(Names(groups)[i]) {
      NamedGroup(groups, i);
      GroupIsRepresented(groups[i], required, ix);
    }
    CountBounds(Names(groups), GroupChosen(ix, groups));
  }

  lemma GroupIsRepresented(g: Group, required: seq<string>, ix: Index)
    requires UniqueIdsIn(g.ids, required) && |g.ids| > 0 && forall i :: 0 <= i < |required| ==> Chosen(ix)(required[i])
    ensures Represented(ix)(g)
  {
    SubsetChosen(g.ids, required, ix);
    assert Chosen(ix)(g.ids[0]);
  }

  lemma ConflictIsLive(conflicts: seq<Group>, required: seq<string>, ix: Index)
    requires conflicts != [] && GroupsOk(conflicts, 2, required) && forall i :: 0 <= i < |required| ==>
      Chosen(ix)(required[i])
    ensures Count(conflicts, Represented(ix)) > 0
  {
    GroupIsRepresented(conflicts[0], required, ix);
    CountBounds(conflicts, Represented(ix));
  }

  lemma SubsetChosen(ids: seq<string>, required: seq<string>, ix: Index)
    requires UniqueIdsIn(ids, required) && forall i :: 0 <= i < |required| ==> Chosen(ix)(required[i])
    ensures forall i :: 0 <= i < |ids| ==> Chosen(ix)(ids[i])
  {
    forall i | 0 <= i < |ids| ensures Chosen(ix)(ids[i]) {
      var j :| 0 <= j < |required| && required[j] == ids[i];
    }
  }

  lemma NamedGroup(groups: seq<Group>, i: nat)
    requires i < |groups| && forall i, j :: 0 <= i < j < |groups| ==> groups[i].name != groups[j].name
    ensures FindGroup(groups, groups[i].name) == i
  {}

  // ------------------------------------------------------------------ the reasons

  /** What each reason counts. */
  function ReasonCount(q: Requirements, cs: seq<Candidate>, ix: Index, status: Recall, r: Reason): nat {
    match r
    case MissingRequired => Count(q.required, Omitted(ix))
    case MissingLatestVersion => Latest(q, ix).missing
    case MissingTemporalAnchor => if q.anchorTime.None? then Temporal(q, ix).missing else 0
    case MissingTemporalEvidence => if q.anchorTime.Some? then Temporal(q, ix).missing else 0
    case MissingSourceGroup => SourceGroups(q, ix).missing
    case StaleEvidence => Count(q.required, Stale(ix))
    case UnavailableEvidence => Count(q.required, Missing(ix))
    case ConflictingEvidence => Count(q.conflicts, Represented(ix))
    case DroppedBudget => Count(q.required, BudgetDrop(ix))
    case DroppedCoverage => Count(q.required, CoverageDrop(ix))
    case RedHerringIgnored => Count(cs, Herring(q.required))
    case RecallPartial => One(status == Partially)
    case RecallTimeout => One(status == Timeout)
    case RecallStale => One(status == Outdated)
    case RecallUnavailable => One(status == Unreachable)
  }

  /** The reasons that apply, with their counts. */
  function Reasons(q: Requirements, cs: seq<Candidate>, ix: Index, status: Recall): map<Reason, nat> {
    map r: Reason | ReasonCount(q, cs, ix, status, r) > 0 :: ReasonCount(q, cs, ix, status, r)
  }

  /** Anything short of complete is explained by a reason other than an ignored
      red herring, and a complete report carries no other reason. */
  lemma ShortfallIsExplained(q: Requirements, cs: seq<Candidate>, ix: Index, status: Recall)
    requires RequirementsOk(q)
    ensures OutcomeOf(q, ix, status) == Complete <==> Reasons(q, cs, ix, status).Keys <= {RedHerringIgnored}
  {
    if OutcomeOf(q, ix, status) == Complete {
      CompleteExactlyWhen(q, ix, status);
      NothingOmitted(q.required, ix);
      AllChosenCovers(q, ix);
      AnchorsHold(q.anchors, q.required, ix);
      NoneLive(q.conflicts, ix);
      forall r: Reason | r != RedHerringIgnored ensures ReasonCount(q, cs, ix, status, r) == 0 {
        NoReason(q, cs, ix, status, r);
      }
    } else {
      var r := Blame(q, cs, ix, status);
      assert r in Reasons(q, cs, ix, status);
    }
  }

  lemma NoReason(q: Requirements, cs: seq<Candidate>, ix: Index, status: Recall, r: Reason)
    requires forall i :: 0 <= i < |q.required| ==> Chosen(ix)(q.required[i])
    requires Latest(q, ix).missing == 0 && Temporal(q, ix).missing == 0 && SourceGroups(q, ix).missing == 0
    requires Count(q.conflicts, Represented(ix)) == 0 && (status == Fresh || status == Empty) && r != RedHerringIgnored
    ensures ReasonCount(q, cs, ix, status, r) == 0
  {
    NothingOmitted(q.required, ix);
    OmissionsBreakDown(q.required, ix);
    NoOverlap(q.required, ix);
  }

  lemma NoOverlap(ids: seq<string>, ix: Index)
    requires forall i :: 0 <= i < |ids| ==> Chosen(ix)(ids[i])
    ensures Count(ids, Overlap(ix)) == 0
  {
    CountBounds(ids, Overlap(ix));
  }

  lemma BlameGap(q: Requirements, cs: seq<Candidate>, ix: Index, status: Recall) returns (r: Reason)
    requires Gap(q, ix)
    ensures r != RedHerringIgnored && ReasonCount(q, cs, ix, status, r) > 0
  {
    r := if Count(q.required, Omitted(ix)) > 0 then MissingRequired
         else if Latest(q, ix).missing > 0 then MissingLatestVersion
         else if SourceGroups(q, ix).missing > 0 then MissingSourceGroup
         else if q.anchorTime.None? then MissingTemporalAnchor else MissingTemporalEvidence;
  }

  /** A reason for an outcome short of complete. */
  lemma Blame(q: Requirements, cs: seq<Candidate>, ix: Index, status: Recall) returns (r: Reason)
    requires OutcomeOf(q, ix, status) != Complete
    ensures r != RedHerringIgnored && ReasonCount(q, cs, ix, status, r) > 0
  {
    if Count(q.conflicts, Represented(ix)) > 0 {
      r := ConflictingEvidence;
    } else if Count(q.required, Missing(ix)) > 0 {
      r := UnavailableEvidence;
    } else if Gap(q, ix) {
      r := BlameGap(q, cs, ix, status);
    } else {
      r := if status == Unreachable then RecallUnavailable
           else if status == Partially then RecallPartial
           else if status == Timeout then RecallTimeout
           else RecallStale;
    }
  }

  // ----------------------------------------------------------------- the evaluator

  function Live(conflicts: seq<Group>, ix: Index): seq<Group> {
    if conflicts == [] then []
    else
      var before, c := Live(conflicts[..|conflicts| - 1], ix), conflicts[|conflicts| - 1];
      if Represented(ix)(c) then before + [c] else before
  }

  function ReportOf(q: Requirements, cs: seq<Candidate>, ix: Index, status: Recall): Report {
    var outcome := OutcomeOf(q, ix, status);
    Report(outcome,
           Counts(|q.required|, Count(q.required, Chosen(ix)), Count(q.required, Omitted(ix)),
                  Count(q.required, Stale(ix)), Count(q.conflicts, Represented(ix)), Count(q.required, Missing(ix)),
                  Count(cs, Herring(q.required))),
           Latest(q, ix), Temporal(q, ix), SourceGroups(q, ix), Reasons(q, cs, ix, status),
           if outcome == Complete then None else Some(q.policy), Live(q.conflicts, ix))
  }

  predicate CoverageOk(c: Coverage) { c.selected <= c.required && c.missing == c.required - c.selected }

  /** The report's own validation, apart from its digests. */
  predicate ReportOk(r: Report) {
    && r.counts.selected <= r.counts.required && r.counts.omitted == r.counts.required - r.counts.selected
    && CoverageOk(r.latest) && CoverageOk(r.temporal) && CoverageOk(r.groups)
    && (forall k :: k in r.reasons ==> r.reasons[k] > 0)
    && (forall i :: 0 <= i < |r.conflicts| ==> |r.conflicts[i].ids| >= 2)
  }

  lemma {:induction false} LiveOk(conflicts: seq<Group>, ix: Index)
    requires forall i :: 0 <= i < |conflicts| ==> |conflicts[i].ids| >= 2
    ensures forall i :: 0 <= i < |Live(conflicts, ix)| ==> |Live(conflicts, ix)[i].ids| >= 2
    ensures |Live(conflicts, ix)| == Count(conflicts, Represented(ix))
  {
    if conflicts != [] { LiveOk(conflicts[..|conflicts| - 1], ix); }
  }

  /** Every report that can be built passes its own validation. */
  lemma ReportsAreValid(q: Requirements, cs: seq<Candidate>, ix: Index, status: Recall)
    requires RequirementsOk(q)
    ensures ReportOk(ReportOf(q, cs, ix, status))
  {
    ChosenOrOmitted(q.required, ix);
    LiveOk(q.conflicts, ix);
    CountBounds(q.latest, Chosen(ix));
    CountBounds(q.anchors, Anchored(ix));
    CountBounds(Names(q.groups), GroupChosen(ix, q.groups));
  }

  ghost predicate DistinctIds(cs: seq<Candidate>) {
    forall i, j :: 0 <= i < j < |cs| ==> cs[i].id != cs[j].id
  }

  ghost predicate CandidatesOk(cs: seq<Candidate>) {
    (forall i :: 0 <= i < |cs| ==> OpaqueId(cs[i].id)) && DistinctIds(cs)
  }

  ghost predicate Indexes(cs: seq<Candidate>, ix: Index) {
    && (forall i :: 0 <= i < |cs| ==> cs[i].id in ix && ix[cs[i].id] == cs[i])
    && (forall id :: id in ix ==> exists i :: 0 <= i < |cs| && cs[i].id == id)
  }

  method IndexCandidates(cs: seq<Candidate>) returns (ok: bool, ix: Index)
    ensures ok <==> CandidatesOk(cs)
    ensures ok ==> Indexes(cs, ix)
  {
    ix := map[];
    for k := 0 to |cs|
      invariant CandidatesOk(cs[..k]) && Indexes(cs[..k], ix)
    {
      if !OpaqueId(cs[k].id) || cs[k].id in ix {
        RefusedCandidate(cs, k, ix);
        return false, ix;
      }
      AcceptedCandidate(cs[..k], cs[k], ix);
      assert cs[..k + 1] == cs[..k] + [cs[k]];
      ix := ix[cs[k].id := cs[k]];
    }
    assert cs[..|cs|] == cs;
    ok := true;
  }

  lemma RefusedCandidate(cs: seq<Candidate>, k: nat, ix: Index)
    requires k < |cs| && Indexes(cs[..k], ix) && (!OpaqueId(cs[k].id) || cs[k].id in ix)
    ensures !CandidatesOk(cs)
  {
    if cs[k].id in ix {
      var i :| 0 <= i < |cs[..k]| && cs[..k][i].id == cs[k].id;
      assert cs[i].id == cs[k].id;
    }
  }

  lemma AcceptedCandidate(cs: seq<Candidate>, c: Candidate, ix: Index)
    requires CandidatesOk(cs) && Indexes(cs, ix) && OpaqueId(c.id) && c.id !in ix
    ensures CandidatesOk(cs + [c]) && Indexes(cs + [c], ix[c.id := c])
  {
    assert forall i :: 0 <= i < |cs| ==> cs[i].id in ix;
    IndexedOneMore(cs, c, ix);
  }

  lemma IndexedOneMore(cs: seq<Candidate>, c: Candidate, ix: Index)
    requires Indexes(cs, ix) && c.id !in ix
    ensures Indexes(cs + [c], ix[c.id := c])
  {
    var more, grown := cs + [c], ix[c.id := c];
    assert more[|cs|] == c && forall i :: 0 <= i < |cs| ==> more[i] == cs[i] && cs[i].id in ix;
    forall id | id in grown ensures exists i :: 0 <= i < |more| && more[i].id == id {
      if id != c.id {
        var i :| 0 <= i < |cs| && cs[i].id == id;
        assert more[i].id == id;
      }
    }
  }

  /** The evaluator fails exactly for a malformed requirement set or candidate list;
      its report is the one the counts define, and its own validation never refuses it. */
  method Evaluate(q: Requirements, cs: seq<Candidate>, status: Recall) returns (r: Option<Report>, ghost ix: Index)
    ensures r.Some? <==> RequirementsOk(q) && CandidatesOk(cs)
    ensures r.Some? ==> Indexes(cs, ix) && r.value == ReportOf(q, cs, ix, status) && ReportOk(r.value)
    ensures r.Some? ==> (r.value.outcome == Complete <==> FullyCovered(q, ix, status))
  {
    ix := map[];
    var valid := Validate(q);
    if !valid {
      return None, ix;
    }
    var indexed, byId := IndexCandidates(cs);
    ix := byId;
    if !indexed {
      return None, ix;
    }
    ReportsAreValid(q, cs, byId, status);
    CompleteExactlyWhen(q, byId, status);
    var report := ReportOf(q, cs, byId, status);
    r := if ReportOk(report) then Some(report) else None;
  }

  // -------------------------------------------------------------- the context path

  /** What governed lookup says about one required id. */
  datatype Lookup = Absent | Found(inScope: bool, allowed: bool, readable: bool, status: string, archived: bool,
                                   expired: bool, holdsAtAnchor: bool)

  function Fetch(id: string, found: Lookup, anchored: bool, offered: bool, delivered: bool): Candidate {
    if found.Absent? || !found.inScope || !found.allowed
       || !(found.readable || found.status in {"deprecated", "expired"})
    then Candidate(id, false, false, false, false, false)
    else
      var closed := found.status in {"redacted", "quarantined", "compacted"} || found.archived;
      var available := !closed;
      var stale := !closed && (found.status in {"deprecated", "expired"} || found.expired);
      Candidate(id, available && !stale && delivered, available, stale, anchored && found.holdsAtAnchor,
                available && !stale && offered && !delivered)
  }

  /** The required ids, each looked up. */
  function LookedUp(q: Requirements, lookup: string -> Lookup, offered: seq<string>,
                    delivered: set<string>): (cs: seq<Candidate>)
    ensures |cs| == |q.required|
    ensures forall i :: 0 <= i < |cs| ==> cs[i].id == q.required[i] && (cs[i].stale ==> cs[i].available)
  {
    seq(|q.required|, i requires 0 <= i < |q.required| =>
      Fetch(q.required[i], lookup(q.required[i]), q.anchorTime.Some?, q.required[i] in offered,
            q.required[i] in delivered))
  }

  /** The other ids the context offered. */
  function Others(offered: seq<string>, required: seq<string>, delivered: set<string>): seq<Candidate> {
    if offered == [] then []
    else
      var before, id := Others(offered[..|offered| - 1], required, delivered), offered[|offered| - 1];
      if id in required then before else before + [Candidate(id, id in delivered, true, false, false, false)]
  }

  /** Candidates for distinct ids that are offered and not required. */
  ghost predicate AreOthers(cs: seq<Candidate>, offered: seq<string>, required: seq<string>) {
    (forall i :: 0 <= i < |cs| ==> cs[i].id in offered && cs[i].id !in required) && DistinctIds(cs)
  }

  lemma {:induction false} OthersAreOther(offered: seq<string>, required: seq<string>, delivered: set<string>)
    requires Distinct(offered)
    ensures AreOthers(Others(offered, required, delivered), offered, required)
  {
    if offered != [] {
      var front, id := offered[..|offered| - 1], offered[|offered| - 1];
      OthersAreOther(front, required, delivered);
      OneMoreOther(Others(front, required, delivered), front, required, id,
                   Candidate(id, id in delivered, true, false, false, false));
      assert offered == front + [id];
    }
  }

  lemma OneMoreOther(cs: seq<Candidate>, front: seq<string>, required: seq<string>, id: string, c: Candidate)
    requires AreOthers(cs, front, required) && id !in front && c.id == id
    ensures AreOthers(cs, front + [id], required)
    ensures id !in required ==> AreOthers(cs + [c], front + [id], required)
  {
    forall x | x in front ensures x in front + [id] {}
    assert id in front + [id];
  }

  /** No id occurs twice among the candidates of the context path. */
  lemma ContextIdsAreDistinct(q: Requirements, lookup: string -> Lookup, offered: seq<string>, delivered: set<string>)
    requires Distinct(offered) && Distinct(q.required)
    ensures DistinctIds(LookedUp(q, lookup, offered, delivered) + Others(offered, q.required, delivered))
  {
    var a, b := LookedUp(q, lookup, offered, delivered), Others(offered, q.required, delivered);
    OthersAreOther(offered, q.required, delivered);
    DistinctConcat(a, b, offered, q.required);
  }

  lemma DistinctConcat(a: seq<Candidate>, b: seq<Candidate>, offered: seq<string>, ids: seq<string>)
    requires |a| == |ids| && Distinct(ids) && forall i :: 0 <= i < |a| ==> a[i].id == ids[i]
    requires AreOthers(b, offered, ids)
    ensures DistinctIds(a + b)
  {
    forall i, j | 0 <= i < j < |a + b| ensures (a + b)[i].id != (a + b)[j].id {
      if i < |a| { assert (a + b)[i].id == ids[i] && ids[i] in ids; }
    }
  }

  method CollectCandidates(q: Requirements, lookup: string -> Lookup, offered: seq<string>, delivered: set<string>)
    returns (cs: seq<Candidate>)
    ensures cs == LookedUp(q, lookup, offered, delivered) + Others(offered, q.required, delivered)
  {
    cs := [];
    for k := 0 to |q.required|
      invariant |cs| == k && forall i :: 0 <= i < k ==> cs[i] == LookedUp(q, lookup, offered, delivered)[i]
    {
      var id := q.required[k];
      cs := cs + [Fetch(id, lookup(id), q.anchorTime.Some?, id in offered, id in delivered)];
    }
    assert cs == LookedUp(q, lookup, offered, delivered);
    for k := 0 to |offered|
      invariant cs == LookedUp(q, lookup, offered, delivered) + Others(offered[..k], q.required, delivered)
    {
      assert offered[..k + 1][..k] == offered[..k];
      if offered[k] !in q.required {
        cs := cs + [Candidate(offered[k], offered[k] in delivered, true, false, false, false)];
      }
    }
    assert offered[..|offered|] == offered;
  }

  /** On the context path the four shortfalls add up to the omissions exactly. */
  lemma ContextOmissionsBreakDown(q: Requirements, lookup: string -> Lookup, offered: seq<string>,
                                  delivered: set<string>, ix: Index)
    requires Indexes(LookedUp(q, lookup, offered, delivered) + Others(offered, q.required, delivered), ix)
    ensures Count(q.required, Omitted(ix)) ==
      Count(q.required, Missing(ix)) + Count(q.required, Stale(ix)) + Count(q.required, BudgetDrop(ix)) +
        Count(q.required, CoverageDrop(ix))
  {
    var a, b := LookedUp(q, lookup, offered, delivered), Others(offered, q.required, delivered);
    OmissionsBreakDown(q.required, ix);
    CountBounds(q.required, Overlap(ix));
    forall i | 0 <= i < |q.required| ensures !Overlap(ix)(q.required[i]) {
      assert (a + b)[i] == a[i];
    }
  }

  /** The context path fails exactly for malformed requirements or a malformed id
      among those offered, and its counts split the omissions exactly. */
  method EvaluateContext(q: Requirements, lookup: string -> Lookup, offered: seq<string>, delivered: set<string>,
                         status: Recall)
    returns (r: Option<Report>, ghost ix: Index)
    requires Distinct(offered)
    ensures r.Some? <==> RequirementsOk(q) && forall i :: 0 <= i < |offered| ==> OpaqueId(offered[i])
    ensures r.Some? ==>
      var cs := LookedUp(q, lookup, offered, delivered) + Others(offered, q.required, delivered);
      Indexes(cs, ix) && r.value == ReportOf(q, cs, ix, status) && ReportOk(r.value)
    ensures r.Some? ==> (r.value.outcome == Complete <==> FullyCovered(q, ix, status))
    ensures r.Some? ==>
      var c := r.value.counts;
      c.omitted == c.unavailable + c.stale + Count(q.required, BudgetDrop(ix)) + Count(q.required, CoverageDrop(ix))
  {
    var valid := Validate(q);
    if !valid {
      return None, map[];
    }
    var cs := CollectCandidates(q, lookup, offered, delivered);
    ContextCandidatesOk(q, lookup, offered, delivered);
    r, ix := Evaluate(q, cs, status);
    if r.Some? { ContextOmissionsBreakDown(q, lookup, offered, delivered, ix); }
  }

  lemma {:induction false} OthersAreAll(offered: seq<string>, required: seq<string>, delivered: set<string>, id: string)
    requires id in offered && id !in required
    ensures exists i ::
      0 <= i < |Others(offered, required, delivered)| && Others(offered, required, delivered)[i].id == id
  {
    var front, last := offered[..|offered| - 1], offered[|offered| - 1];
    var cs := Others(offered, required, delivered);
    if id in front {
      OthersAreAll(front, required, delivered, id);
      var before := Others(front, required, delivered);
      var i :| 0 <= i < |before| && before[i].id == id;
      assert cs[i].id == id;
    } else {
      assert cs[|cs| - 1].id == id;
    }
  }

  lemma ContextCandidatesOk(q: Requirements, lookup: string -> Lookup, offered: seq<string>, delivered: set<string>)
    requires Distinct(offered) && UniqueIds(q.required)
    ensures CandidatesOk(LookedUp(q, lookup, offered, delivered) + Others(offered, q.required, delivered)) <==>
      forall i :: 0 <= i < |offered| ==> OpaqueId(offered[i])
  {
    var a, b := LookedUp(q, lookup, offered, delivered), Others(offered, q.required, delivered);
    ContextIdsAreDistinct(q, lookup, offered, delivered);
    OthersAreOther(offered, q.required, delivered);
    if CandidatesOk(a + b) {
      forall i | 0 <= i < |offered| ensures OpaqueId(offered[i]) {
        if offered[i] !in q.required {
          OthersAreAll(offered, q.required, delivered, offered[i]);
          var k :| 0 <= k < |b| && b[k].id == offered[i];
          assert (a + b)[|a| + k] == b[k];
        }
      }
    }
  }
}
