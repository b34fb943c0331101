/** Drift check, targeted repair and verify (src/drift_check.rs). The clock and the
    file system are fixed during a run. The path, contradiction and staleness
    checkers read only columns that repair does not write, so together they are an
    arbitrary function of those columns. */
module DriftRepair {
  import opened Options

  datatype Severity = Error | Warning | Info
  datatype Code = ReferenceIntegrity | GroundingStatus | PathExistence | CrossFileConflict | StaleEntity
  datatype Issue = Issue(code: Code, severity: Severity, target: string)

  datatype Link = Link(relationship: Option<string>, target: Option<string>, extra: string)

  /** The links column: not JSON, JSON but no array, or an array. */
  datatype Links = Malformed(text: string) | NoArray(text: string) | Array(links: seq<Link>)

  datatype EntityFacts = EntityFacts(id: string, archived: bool, workspace: string, extra: string)
  datatype Entity = Entity(facts: EntityFacts, links: Links)

  datatype PrintFacts = PrintFacts(targetRef: string, workspace: string, kind: string, status: string, extra: string)
  datatype Print = Print(facts: PrintFacts, reviewed: bool)

  /** The other three checkers, at one clock and file system. */
  type Others = (seq<EntityFacts>, seq<PrintFacts>) -> seq<Issue>

  const GROUNDING_LIMIT := 500

  // ------------------------------------------------------------------- the score

  function Count(issues: seq<Issue>, s: Severity): nat {
    if issues == [] then 0
    else Count(issues[..|issues| - 1], s) + if issues[|issues| - 1].severity == s then 1 else 0
  }

  function Max(a: int, b: int): int { if a < b then b else a }

  function ScoreFor(issues: seq<Issue>): int {
    Max(100 - 10 * Count(issues, Error) - 3 * Count(issues, Warning) - Count(issues, Info), 0)
  }

  lemma {:induction false} CountConcat(a: seq<Issue>, b: seq<Issue>, s: Severity)
    ensures Count(a + b, s) == Count(a, s) + Count(b, s)
  {
    if b == [] {
      assert a + b == a;
    } else {
      assert (a + b)[..|a + b| - 1] == a + b[..|b| - 1];
      CountConcat(a, b[..|b| - 1], s);
    }
  }

  lemma CountConcat3(a: seq<Issue>, b: seq<Issue>, c: seq<Issue>, s: Severity)
    ensures Count(a + b + c, s) == Count(a, s) + Count(b, s) + Count(c, s)
  {
    CountConcat(a + b, c, s);
    CountConcat(a, b, s);
  }

  lemma {:induction false} CountTotal(issues: seq<Issue>)
    ensures Count(issues, Error) + Count(issues, Warning) + Count(issues, Info) == |issues|
  {
    if issues != [] { CountTotal(issues[..|issues| - 1]); }
  }

  /** Ten points for an error, three for a warning, one for an information. */
  function Penalty(issues: seq<Issue>): nat {
    if issues == [] then 0
    else
      Penalty(issues[1..]) +
        match issues[0].severity
        case Error => 10
        case Warning => 3
        case Info => 1
  }

  /** The score is a hundred less the penalties, and never negative. */
  lemma {:induction false} ScoreMeans(issues: seq<Issue>)
    ensures ScoreFor(issues) == if Penalty(issues) > 100 then 0 else 100 - Penalty(issues)
  {
    PenaltyCounts(issues);
  }

  lemma {:induction false} PenaltyCounts(issues: seq<Issue>)
    ensures Penalty(issues) == 10 * Count(issues, Error) + 3 * Count(issues, Warning) + Count(issues, Info)
  {
    if issues != [] {
      PenaltyCounts(issues[1..]);
      assert issues == [issues[0]] + issues[1..];
      CountConcat([issues[0]], issues[1..], Error);
      CountConcat([issues[0]], issues[1..], Warning);
      CountConcat([issues[0]], issues[1..], Info);
      assert [issues[0]][..0] == [];
    }
  }

  // ---------------------------------------------------------- reference integrity

  function EntityColumns(es: seq<Entity>): (facts: seq<EntityFacts>)
    ensures |facts| == |es| && forall i :: 0 <= i < |es| ==> facts[i] == es[i].facts
  {
    seq(|es|, i requires 0 <= i < |es| => es[i].facts)
  }

  /** An unarchived entity has this id, in any workspace. */
  predicate Live(facts: seq<EntityFacts>, id: string) {
    exists i :: 0 <= i < |facts| && facts[i].id == id && !facts[i].archived
  }

  /** A citation of an entity that is not there. */
  predicate Dangling(facts: seq<EntityFacts>, l: Link) {
    l.relationship == Some("derived_from") && l.target.Some? && !Live(facts, l.target.value)
  }

  predicate InScope(e: EntityFacts, ws: string) {
    !e.archived && (ws == "" || e.workspace == ws)
  }

  function Broken(id: string): Issue { Issue(ReferenceIntegrity, Error, id) }

  function LinkIssues(facts: seq<EntityFacts>, id: string, links: seq<Link>): seq<Issue> {
    if links == [] then []
    else
      var before := LinkIssues(facts, id, links[..|links| - 1]);
      if Dangling(facts, links[|links| - 1]) then before + [Broken(id)] else before
  }

  function RowIssues(facts: seq<EntityFacts>, e: Entity, ws: string): seq<Issue> {
    if InScope(e.facts, ws) && e.links.Array? then LinkIssues(facts, e.facts.id, e.links.links) else []
  }

  function ReferenceIssues(facts: seq<EntityFacts>, es: seq<Entity>, ws: string): seq<Issue> {
    if es == [] then [] else ReferenceIssues(facts, es[..|es| - 1], ws) + RowIssues(facts, es[|es| - 1], ws)
  }

  /** The links that survive a repair, in order. */
  function Sound(facts: seq<EntityFacts>, links: seq<Link>): seq<Link> {
    if links == [] then []
    else
      var before := Sound(facts, links[..|links| - 1]);
      if Dangling(facts, links[|links| - 1]) then before else before + [links[|links| - 1]]
  }

  function Unlinked(facts: seq<EntityFacts>, e: Entity): Entity {
    if e.links.Array? then e.(links := Array(Sound(facts, e.links.links))) else e
  }

  /** Repair of a whole table: dangling citations go from the rows in scope. */
  function Repaired(facts: seq<EntityFacts>, es: seq<Entity>, ws: string): (r: seq<Entity>)
    ensures |r| == |es|
    ensures forall i :: 0 <= i < |es| ==> r[i] == if InScope(es[i].facts, ws) then Unlinked(facts, es[i]) else es[i]
  {
    seq(|es|, i requires 0 <= i < |es| => if InScope(es[i].facts, ws) then Unlinked(facts, es[i]) else es[i])
  }

  lemma {:induction false} SoundHasNoIssues(facts: seq<EntityFacts>, id: string, links: seq<Link>)
    ensures LinkIssues(facts, id, Sound(facts, links)) == []
    ensures LinkIssues(facts, id, links) == [] <==> Sound(facts, links) == links
    ensures |Sound(facts, links)| + |LinkIssues(facts, id, links)| == |links|
  {
    if links != [] {
      var front := links[..|links| - 1];
      SoundHasNoIssues(facts, id, front);
      assert (Sound(facts, front) + [links[|links| - 1]])[..|Sound(facts, front)|] == Sound(facts, front);
      assert links == front + [links[|links| - 1]];
    }
  }

  /** The positions of the links that do not dangle. */
  function SoundAt(facts: seq<EntityFacts>, links: seq<Link>): (at: seq<nat>)
    ensures forall i :: 0 <= i < |at| ==> at[i] < |links|
    ensures forall i, j :: 0 <= i < j < |at| ==> at[i] < at[j]
    ensures forall k :: 0 <= k < |links| ==> (k in at <==> !Dangling(facts, links[k]))
  {
    if links == [] then []
    else
      var n := |links| - 1;
      var before := SoundAt(facts, links[..n]);
      if Dangling(facts, links[n]) then before else before + [n]
  }

  /** Sweeping keeps the links that do not dangle, each once and in order. */
  lemma {:induction false} SweepKeepsTheRest(facts: seq<EntityFacts>, links: seq<Link>)
    ensures |SoundAt(facts, links)| == |Sound(facts, links)|
    ensures forall i :: 0 <= i < |Sound(facts, links)| ==> Sound(facts, links)[i] == links[SoundAt(facts, links)[i]]
  {
    if links != [] { SweepKeepsTheRest(facts, links[..|links| - 1]); }
  }

  /** A link is dropped exactly if it says "derived_from" and names an id that no live
      entity has; any other link of the row stays. */
  lemma SweepDropsExactly(facts: seq<EntityFacts>, links: seq<Link>, k: nat)
    requires k < |links|
    ensures k in SoundAt(facts, links) <==>
      !(links[k].relationship == Some("derived_from") && links[k].target.Some?
        && forall i :: 0 <= i < |facts| && facts[i].id == links[k].target.value ==> facts[i].archived)
  {}

  /** A repaired table has no dangling citation in scope left. */
  lemma {:induction false} RepairedHasNoIssues(facts: seq<EntityFacts>, es: seq<Entity>, ws: string)
    ensures ReferenceIssues(facts, Repaired(facts, es, ws), ws) == []
  {
    if es != [] {
      var n := |es| - 1;
      RepairedHasNoIssues(facts, es[..n], ws);
      assert Repaired(facts, es, ws)[..n] == Repaired(facts, es[..n], ws);
      if es[n].links.Array? { SoundHasNoIssues(facts, es[n].facts.id, es[n].links.links); }
    }
  }

  /** Link k of row e cites an id that no live entity has. */
  predicate CitesNothing(facts: seq<EntityFacts>, e: Entity, k: nat) {
    && e.links.Array? && k < |e.links.links|
    && e.links.links[k].relationship == Some("derived_from") && e.links.links[k].target.Some?
    && forall i :: 0 <= i < |facts| && facts[i].id == e.links.links[k].target.value ==> facts[i].archived
  }

  /** An issue names a live row of the workspace, any workspace if none is given, with such a link. */
  ghost predicate NamesBrokenRow(facts: seq<EntityFacts>, es: seq<Entity>, ws: string, x: Issue) {
    && x.code == ReferenceIntegrity && x.severity == Error
    && exists i, k: nat ::
         && 0 <= i < |es| && es[i].facts.id == x.target && !es[i].facts.archived
         && (ws == "" || es[i].facts.workspace == ws) && CitesNothing(facts, es[i], k)
  }

  lemma {:induction false} LinkIssuesMean(facts: seq<EntityFacts>, id: string, links: seq<Link>)
    ensures forall x :: x in LinkIssues(facts, id, links) ==> x == Issue(ReferenceIntegrity, Error, id)
    ensures LinkIssues(facts, id, links) != [] <==> exists k :: 0 <= k < |links| && Dangling(facts, links[k])
  {
    if links != [] { LinkIssuesMean(facts, id, links[..|links| - 1]); }
  }

  lemma RowIssuesMean(facts: seq<EntityFacts>, e: Entity, ws: string, x: Issue)
    ensures x in RowIssues(facts, e, ws) <==> NamesBrokenRow(facts, [e], ws, x)
  {
    if e.links.Array? {
      LinkIssuesMean(facts, e.facts.id, e.links.links);
      var found := LinkIssues(facts, e.facts.id, e.links.links);
      if found != [] { assert found[0] in found; }
      forall k: nat | k < |e.links.links| ensures Dangling(facts, e.links.links[k]) <==> CitesNothing(facts, e, k) {}
      if k :| 0 <= k < |e.links.links| && Dangling(facts, e.links.links[k]) {
        assert [e][0] == e && CitesNothing(facts, [e][0], k);
      }
    }
  }

  /** The reference issues, in terms of the rows. */
  lemma {:induction false} ReferenceIssuesMean(facts: seq<EntityFacts>, es: seq<Entity>, ws: string, x: Issue)
    ensures x in ReferenceIssues(facts, es, ws) <==> NamesBrokenRow(facts, es, ws, x)
  {
    if es != [] {
      var n := |es| - 1;
      ReferenceIssuesMean(facts, es[..n], ws, x);
      RowIssuesMean(facts, es[n], ws, x);
      assert es == es[..n] + [es[n]];
      BrokenRowIn(facts, es[..n], [es[n]], ws, x);
    }
  }

  lemma BrokenRowIn(facts: seq<EntityFacts>, a: seq<Entity>, b: seq<Entity>, ws: string, x: Issue)
    ensures NamesBrokenRow(facts, a + b, ws, x) <==> NamesBrokenRow(facts, a, ws, x) || NamesBrokenRow(facts, b, ws, x)
  {
    assert forall i :: 0 <= i < |a| ==> (a + b)[i] == a[i];
    assert forall i :: 0 <= i < |b| ==> (a + b)[|a| + i] == b[i];
    assert forall i :: |a| <= i < |a + b| ==> (a + b)[i] == b[i - |a|];
  }

  /** Repair leaves rows outside the workspace, archived rows and columns other than the
      links alone. */
  lemma RepairTouchesOnly(es: seq<Entity>, ws: string, i: nat)
    requires i < |es|
    ensures var after := EntitiesAfter(es, ws);
      && |after| == |es| && after[i].facts == es[i].facts
      && (after[i] != es[i] ==>
           !es[i].facts.archived && (ws == "" || es[i].facts.workspace == ws) && es[i].links.Array?)
  {}

  // ------------------------------------------------------------- grounding status

  predicate Unreviewed(p: Print, ws: string) {
    (ws == "" || p.facts.workspace == ws) && p.facts.status != "ok" && !p.reviewed
  }

  function Ground(p: PrintFacts): Issue {
    Issue(GroundingStatus, if p.status == "gone" then Error else Warning, p.targetRef)
  }

  /** All unreviewed findings, in the order of the query (newest first). */
  function Findings(prints: seq<Print>, ws: string): seq<Issue> {
    if prints == [] then []
    else
      var before, p := Findings(prints[..|prints| - 1], ws), prints[|prints| - 1];
      if Unreviewed(p, ws) then before + [Ground(p.facts)] else before
  }

  /** What the query shows. */
  function GroundingIssues(prints: seq<Print>, ws: string): seq<Issue> {
    var all := Findings(prints, ws);
    if |all| <= GROUNDING_LIMIT then all else all[..GROUNDING_LIMIT]
  }

  function Targets(issues: seq<Issue>): set<string> {
    set i | 0 <= i < |issues| :: issues[i].target
  }

  /** Acknowledging is by target, whatever the workspace or the status. */
  function Acknowledged(prints: seq<Print>, targets: set<string>): (r: seq<Print>)
    ensures |r| == |prints|
    ensures forall i :: 0 <= i < |prints| ==>
      r[i] == if prints[i].facts.targetRef in targets then prints[i].(reviewed := true) else prints[i]
  {
    seq(|prints|, i requires 0 <= i < |prints| =>
      if prints[i].facts.targetRef in targets then prints[i].(reviewed := true) else prints[i])
  }

  lemma {:induction false} FindingsAreShown(prints: seq<Print>, ws: string)
    ensures forall i :: 0 <= i < |prints| && Unreviewed(prints[i], ws) ==>
      Ground(prints[i].facts) in Findings(prints, ws)
    ensures forall x :: x in Findings(prints, ws) ==> x.code == GroundingStatus && x.severity != Info
  {
    if prints != [] { FindingsAreShown(prints[..|prints| - 1], ws); }
  }

  /** The findings, in terms of the rows: one for each row in scope that is neither "ok"
      nor reviewed, an error if it is "gone" and a warning otherwise. */
  lemma {:induction false} FindingsMean(prints: seq<Print>, ws: string, x: Issue)
    ensures x in Findings(prints, ws) <==> exists i :: 0 <= i < |prints| && IsFinding(prints[i], ws, x)
  {
    if prints != [] { FindingsMean(prints[..|prints| - 1], ws, x); }
  }

  predicate IsFinding(p: Print, ws: string, x: Issue) {
    && (ws == "" || p.facts.workspace == ws) && p.facts.status != "ok" && !p.reviewed
    && x.code == GroundingStatus && x.target == p.facts.targetRef
    && x.severity == if p.facts.status == "gone" then Error else Warning
  }

  lemma {:induction false} NoFindings(prints: seq<Print>, ws: string)
    requires forall i :: 0 <= i < |prints| ==> !Unreviewed(prints[i], ws)
    ensures Findings(prints, ws) == []
  {
    if prints != [] { NoFindings(prints[..|prints| - 1], ws); }
  }

  /** If the query shows every finding, acknowledging them leaves none. */
  lemma AcknowledgedLeavesNone(prints: seq<Print>, ws: string)
    requires |Findings(prints, ws)| <= GROUNDING_LIMIT
    ensures Findings(Acknowledged(prints, Targets(GroundingIssues(prints, ws))), ws) == []
  {
    var shown := GroundingIssues(prints, ws);
    var after := Acknowledged(prints, Targets(shown));
    FindingsAreShown(prints, ws);
    forall i | 0 <= i < |prints| ensures !Unreviewed(after[i], ws) {
      if Unreviewed(prints[i], ws) {
        assert Ground(prints[i].facts) in shown;
        assert prints[i].facts.targetRef in Targets(shown);
      }
    }
    NoFindings(after, ws);
  }

  lemma {:induction false} NoInfos(issues: seq<Issue>)
    requires forall x :: x in issues ==> x.severity != Info
    ensures Count(issues, Info) == 0
  {
    if issues != [] {
      forall x | x in issues[..|issues| - 1] ensures x.severity != Info { assert x in issues; }
      assert issues[|issues| - 1] in issues;
      NoInfos(issues[..|issues| - 1]);
    }
  }

  // ------------------------------------------------------------------ the verify leg

  function PrintColumns(prints: seq<Print>): (facts: seq<PrintFacts>)
    ensures |facts| == |prints| && forall i :: 0 <= i < |prints| ==> facts[i] == prints[i].facts
  {
    seq(|prints|, i requires 0 <= i < |prints| => prints[i].facts)
  }

  /** All issues, in checker order. */
  function AllIssues(es: seq<Entity>, prints: seq<Print>, ws: string, others: Others): seq<Issue> {
    var facts := EntityColumns(es);
    ReferenceIssues(facts, es, ws) + GroundingIssues(prints, ws) + others(facts, PrintColumns(prints))
  }

  /** The tables after a repair. */
  function EntitiesAfter(es: seq<Entity>, ws: string): (r: seq<Entity>)
    ensures EntityColumns(r) == EntityColumns(es)
  {
    Repaired(EntityColumns(es), es, ws)
  }

  function PrintsAfter(prints: seq<Print>, ws: string): (r: seq<Print>)
    ensures PrintColumns(r) == PrintColumns(prints)
  {
    Acknowledged(prints, Targets(GroundingIssues(prints, ws)))
  }

  /** After a repair only grounding findings and the issues repair never touches
      can be left, and no grounding finding if the query had shown them all. */
  lemma IssuesAfter(es: seq<Entity>, prints: seq<Print>, ws: string, others: Others)
    ensures AllIssues(EntitiesAfter(es, ws), PrintsAfter(prints, ws), ws, others)
         == GroundingIssues(PrintsAfter(prints, ws), ws) + others(EntityColumns(es), PrintColumns(prints))
    ensures |Findings(prints, ws)| <= GROUNDING_LIMIT ==> GroundingIssues(PrintsAfter(prints, ws), ws) == []
  {
    NoReferenceIssuesAfter(es, ws);
    IssuesWithoutReferences(EntitiesAfter(es, ws), PrintsAfter(prints, ws), ws, others);
    if |Findings(prints, ws)| <= GROUNDING_LIMIT { AcknowledgedLeavesNone(prints, ws); }
  }

  lemma IssuesWithoutReferences(es: seq<Entity>, prints: seq<Print>, ws: string, others: Others)
    requires ReferenceIssues(EntityColumns(es), es, ws) == []
    ensures AllIssues(es, prints, ws, others) == GroundingIssues(prints, ws) +
      others(EntityColumns(es), PrintColumns(prints))
  {
    assert [] + GroundingIssues(prints, ws) == GroundingIssues(prints, ws);
  }

  lemma NoReferenceIssuesAfter(es: seq<Entity>, ws: string)
    ensures ReferenceIssues(EntityColumns(EntitiesAfter(es, ws)), EntitiesAfter(es, ws), ws) == []
  {
    RepairedHasNoIssues(EntityColumns(es), es, ws);
  }

  /** A query cut off at its limit already means a score of zero. */
  lemma CutOffMeansZero(es: seq<Entity>, prints: seq<Print>, ws: string, others: Others)
    requires |Findings(prints, ws)| > GROUNDING_LIMIT
    ensures ScoreFor(AllIssues(es, prints, ws, others)) == 0
  {
    var r, g := ReferenceIssues(EntityColumns(es), es, ws), GroundingIssues(prints, ws);
    var o := others(EntityColumns(es), PrintColumns(prints));
    FindingsAreShown(prints, ws);
    NoInfos(g);
    CountTotal(g);
    CountConcat3(r, g, o, Error);
    CountConcat3(r, g, o, Warning);
    CountConcat3(r, g, o, Info);
  }

  /** A repair never lowers the score. */
  lemma RepairNeverRegresses(es: seq<Entity>, prints: seq<Print>, ws: string, others: Others)
    ensures ScoreFor(AllIssues(EntitiesAfter(es, ws), PrintsAfter(prints, ws), ws, others)) >=
      ScoreFor(AllIssues(es, prints, ws, others))
  {
    if |Findings(prints, ws)| > GROUNDING_LIMIT {
      CutOffMeansZero(es, prints, ws, others);
    } else {
      var r, g := ReferenceIssues(EntityColumns(es), es, ws), GroundingIssues(prints, ws);
      var o := others(EntityColumns(es), PrintColumns(prints));
      IssuesAfter(es, prints, ws, others);
      assert [] + o == o;
      CountConcat3(r, g, o, Error);
      CountConcat3(r, g, o, Warning);
      CountConcat3(r, g, o, Info);
    }
  }

  /** Unless the query was cut off, what is left after a repair is exactly what
      repair never touches, and the score is theirs. */
  lemma ScoreAfter(es: seq<Entity>, prints: seq<Print>, ws: string, others: Others)
    requires |Findings(prints, ws)| <= GROUNDING_LIMIT
    ensures AllIssues(EntitiesAfter(es, ws), PrintsAfter(prints, ws), ws, others) ==
      others(EntityColumns(es), PrintColumns(prints))
  {
    IssuesAfter(es, prints, ws, others);
  }

  /** A second repair finds nothing to unlink. */
  lemma SecondRepairUnlinksNothing(es: seq<Entity>, ws: string)
    ensures EntitiesAfter(EntitiesAfter(es, ws), ws) == EntitiesAfter(es, ws)
  {
    var facts, once := EntityColumns(es), EntitiesAfter(es, ws);
    forall i | 0 <= i < |es| ensures EntitiesAfter(once, ws)[i] == once[i] {
      if es[i].links.Array? {
        SoundHasNoIssues(facts, "", es[i].links.links);
        SoundHasNoIssues(facts, "", Sound(facts, es[i].links.links));
      }
    }
  }

  // ---------------------------------------------------------------------- the store

  /** `code:target`; no code contains a colon, so the pair can be read back. */
  datatype IssueKey = IssueKey(code: Code, target: string)

  function KeyOf(x: Issue): IssueKey { IssueKey(x.code, x.target) }

  function Keys(issues: seq<Issue>): (r: seq<IssueKey>)
    ensures |r| == |issues| && forall i :: 0 <= i < |issues| ==> r[i] == KeyOf(issues[i])
  {
    seq(|issues|, i requires 0 <= i < |issues| => KeyOf(issues[i]))
  }

  datatype RepairReport = RepairReport(beforeScore: int, afterScore: int, repaired: seq<IssueKey>,
                                       requiresReview: seq<IssueKey>)

  /** The other checkers report under codes of their own. */
  ghost predicate OwnCodes(others: Others) {
    forall e, p, x :: x in others(e, p) ==> x.code != ReferenceIntegrity && x.code != GroundingStatus
  }

  ghost predicate DistinctIds(es: seq<Entity>) {
    forall i, j :: 0 <= i < j < |es| ==> es[i].facts.id != es[j].facts.id
  }

  /** The rows of some ids unlinked. */
  ghost predicate UnlinkedRows(facts: seq<EntityFacts>, es: seq<Entity>, ids: set<string>, r: seq<Entity>) {
    |r| == |es| && forall i :: 0 <= i < |es| ==> r[i] == if es[i].facts.id in ids then Unlinked(facts, es[i]) else es[i]
  }

  lemma {:induction false} LinkIssuesAreBroken(facts: seq<EntityFacts>, id: string, links: seq<Link>)
    ensures forall x :: x in LinkIssues(facts, id, links) ==> x == Broken(id)
  {
    if links != [] { LinkIssuesAreBroken(facts, id, links[..|links| - 1]); }
  }

  /** The row with this id is in scope, and a repair changes it. */
  ghost predicate NamedRow(facts: seq<EntityFacts>, e: Entity, id: string, ws: string) {
    e.facts.id == id && InScope(e.facts, ws) && Unlinked(facts, e) != e
  }

  /** Some row with this id is in scope and changed by a repair. */
  ghost predicate SomeNamedRow(facts: seq<EntityFacts>, es: seq<Entity>, id: string, ws: string) {
    exists i :: 0 <= i < |es| && NamedRow(facts, es[i], id, ws)
  }

  /** Reference issues name exactly the rows in scope that a repair changes. */
  lemma IssuesNameRows(facts: seq<EntityFacts>, es: seq<Entity>, ws: string)
    ensures forall x :: x in ReferenceIssues(facts, es, ws) ==>
      x == Broken(x.target) && SomeNamedRow(facts, es, x.target, ws)
    ensures forall i :: 0 <= i < |es| && InScope(es[i].facts, ws) && Unlinked(facts, es[i]) != es[i] ==>
      Broken(es[i].facts.id) in ReferenceIssues(facts, es, ws)
  {
    forall x | x in ReferenceIssues(facts, es, ws)
      ensures x == Broken(x.target) && SomeNamedRow(facts, es, x.target, ws)
    {
      IssueNamesRow(facts, es, ws, x);
    }
    forall i | 0 <= i < |es| && InScope(es[i].facts, ws) && Unlinked(facts, es[i]) != es[i]
      ensures Broken(es[i].facts.id) in ReferenceIssues(facts, es, ws)
    {
      ChangedRowIsNamed(facts, es, ws, i);
    }
  }

  lemma {:induction false} IssueNamesRow(facts: seq<EntityFacts>, es: seq<Entity>, ws: string, x: Issue)
    requires x in ReferenceIssues(facts, es, ws)
    ensures x == Broken(x.target) && SomeNamedRow(facts, es, x.target, ws)
  {
    var front, e := es[..|es| - 1], es[|es| - 1];
    RowIssuesNameRow(facts, e, ws);
    if x in ReferenceIssues(facts, front, ws) {
      IssueNamesRow(facts, front, ws, x);
      var i :| 0 <= i < |front| && NamedRow(facts, front[i], x.target, ws);
      assert es[i] == front[i];
    }
  }

  lemma {:induction false} ChangedRowIsNamed(facts: seq<EntityFacts>, es: seq<Entity>, ws: string, i: nat)
    requires i < |es| && InScope(es[i].facts, ws) && Unlinked(facts, es[i]) != es[i]
    ensures Broken(es[i].facts.id) in ReferenceIssues(facts, es, ws)
  {
    var n := |es| - 1;
    if i < n { ChangedRowIsNamed(facts, es[..n], ws, i); } else { RowIssuesNameRow(facts, es[n], ws); }
  }

  lemma RowIssuesNameRow(facts: seq<EntityFacts>, e: Entity, ws: string)
    ensures forall x :: x in RowIssues(facts, e, ws) ==> x == Broken(e.facts.id) && NamedRow(facts, e, x.target, ws)
    ensures InScope(e.facts, ws) && Unlinked(facts, e) != e ==> Broken(e.facts.id) in RowIssues(facts, e, ws)
  {
    if e.links.Array? {
      LinkIssuesAreBroken(facts, e.facts.id, e.links.links);
      SoundHasNoIssues(facts, e.facts.id, e.links.links);
      var found := LinkIssues(facts, e.facts.id, e.links.links);
      if found != [] { assert found[0] in found; }
    }
  }

  /** Unlinking the rows the issues name is the repair of the table. */
  lemma NamedRowsAreRepair(es: seq<Entity>, ws: string, r: seq<Entity>)
    requires DistinctIds(es)
    requires UnlinkedRows(EntityColumns(es), es, Targets(ReferenceIssues(EntityColumns(es), es, ws)), r)
    ensures r == EntitiesAfter(es, ws)
  {
    var facts := EntityColumns(es);
    var found := ReferenceIssues(facts, es, ws);
    IssuesNameRows(facts, es, ws);
    forall i | 0 <= i < |es| ensures r[i] == EntitiesAfter(es, ws)[i] {
      if es[i].facts.id in Targets(found) {
        var k :| 0 <= k < |found| && found[k].target == es[i].facts.id;
        assert found[k] in found;
        var j :| 0 <= j < |es| && NamedRow(facts, es[j], found[k].target, ws);
        assert i == j;
      }
    }
  }

  lemma TargetsMore(issues: seq<Issue>, x: Issue)
    ensures Targets(issues + [x]) == Targets(issues) + {x.target} && Targets([]) == {}
  {
    var more := issues + [x];
    assert more[|issues|] == x && forall i :: 0 <= i < |issues| ==> more[i] == issues[i];
    forall t | t in Targets(issues) ensures t in Targets(more) {
      var i :| 0 <= i < |issues| && issues[i].target == t;
      assert more[i].target == t;
    }
  }

  /** The issues of one kind, in order. */
  function Keep(issues: seq<Issue>, p: Issue -> bool): seq<Issue> {
    if issues == [] then []
    else
      var before, last := Keep(issues[..|issues| - 1], p), issues[|issues| - 1];
      if p(last) then before + [last] else before
  }

  lemma {:induction false} KeepConcat(a: seq<Issue>, b: seq<Issue>, p: Issue -> bool)
    ensures Keep(a + b, p) == Keep(a, p) + Keep(b, p)
  {
    if b == [] {
      assert a + b == a;
    } else {
      assert (a + b)[..|a + b| - 1] == a + b[..|b| - 1];
      KeepConcat(a, b[..|b| - 1], p);
    }
  }

  lemma {:induction false} KeepUniform(issues: seq<Issue>, p: Issue -> bool, all: bool)
    requires forall x :: x in issues ==> p(x) == all
    ensures Keep(issues, p) == if all then issues else []
  {
    if issues != [] {
      var front := issues[..|issues| - 1];
      forall x | x in front ensures p(x) == all { assert x in issues; }
      assert issues[|issues| - 1] in issues;
      KeepUniform(front, p, all);
      assert issues == front + [issues[|issues| - 1]];
    }
  }

  function IsReference(): Issue -> bool { (x: Issue) => x.code == ReferenceIntegrity }

  function IsGrounding(): Issue -> bool { (x: Issue) => x.code == GroundingStatus }

  function IsOther(): Issue -> bool { (x: Issue) => !IsReference()(x) && !IsGrounding()(x) }

  /** The codes tell the checkers' issues apart. */
  lemma CodesTellApart(es: seq<Entity>, prints: seq<Print>, ws: string, others: Others)
    requires OwnCodes(others)
    ensures var all := AllIssues(es, prints, ws, others);
      && Keep(all, IsReference()) == ReferenceIssues(EntityColumns(es), es, ws)
      && Keep(all, IsGrounding()) == GroundingIssues(prints, ws)
      && Keep(all, IsOther()) == others(EntityColumns(es), PrintColumns(prints))
  {
    var r, g := ReferenceIssues(EntityColumns(es), es, ws), GroundingIssues(prints, ws);
    var o := others(EntityColumns(es), PrintColumns(prints));
    IssuesNameRows(EntityColumns(es), es, ws);
    FindingsAreShown(prints, ws);
    CodesOf(r, g, o);
  }

  lemma CodesOf(r: seq<Issue>, g: seq<Issue>, o: seq<Issue>)
    requires (forall x :: x in r ==> x.code == ReferenceIntegrity) && (forall x :: x in g ==> x.code == GroundingStatus)
    requires forall x :: x in o ==> x.code != ReferenceIntegrity && x.code != GroundingStatus
    ensures Keep(r + g + o, IsReference()) == r && Keep(r + g + o, IsGrounding()) == g &&
      Keep(r + g + o, IsOther()) == o
  {
    KeepThree(r, g, o, IsReference(), true, false, false);
    KeepThree(r, g, o, IsGrounding(), false, true, false);
    KeepThree(r, g, o, IsOther(), false, false, true);
    assert r + [] + [] == r && [] + g + [] == g && [] + [] + o == o;
  }

  lemma KeepThree(r: seq<Issue>, g: seq<Issue>, o: seq<Issue>, p: Issue -> bool, inR: bool, inG: bool, inO: bool)
    requires (forall x :: x in r ==> p(x) == inR) && (forall x :: x in g ==> p(x) == inG) &&
      (forall x :: x in o ==> p(x) == inO)
    ensures Keep(r + g + o, p) == (if inR then r else []) + (if inG then g else []) + (if inO then o else [])
  {
    KeepConcat(r + g, o, p);
    KeepConcat(r, g, p);
    KeepUniform(r, p, inR);
    KeepUniform(g, p, inG);
    KeepUniform(o, p, inO);
  }

  lemma KeepMore(issues: seq<Issue>, k: nat, p: Issue -> bool)
    requires k < |issues|
    ensures Keep(issues[..k + 1], p) == if p(issues[k]) then Keep(issues[..k], p) + [issues[k]]
      else Keep(issues[..k], p)
  {
    assert issues[..k + 1][..k] == issues[..k];
  }

  /** The row an issue names is one that a repair changes. */
  lemma NamedRowChanges(issues: seq<Issue>, k: nat, es: seq<Entity>, ws: string)
    requires k < |issues| && Keep(issues, IsReference()) == ReferenceIssues(EntityColumns(es), es, ws)
    requires issues[k].code == ReferenceIntegrity
    ensures SomeNamedRow(EntityColumns(es), es, issues[k].target, ws)
  {
    KeptIsKept(issues, k, IsReference());
    IssuesNameRows(EntityColumns(es), es, ws);
  }

  /** Unlinking a named row changes the table the first time only. */
  lemma ChangesOnce(es: seq<Entity>, ids: set<string>, id: string, ws: string, before: seq<Entity>, after: seq<Entity>)
    requires UnlinkedRows(EntityColumns(es), es, ids, before) && UnlinkedRows(EntityColumns(es), es, ids + {id}, after)
    requires SomeNamedRow(EntityColumns(es), es, id, ws)
    ensures after != before <==> id !in ids
  {
    var i :| 0 <= i < |es| && NamedRow(EntityColumns(es), es[i], id, ws);
    if id in ids {
      assert ids + {id} == ids;
    } else {
      assert before[i] == es[i] && after[i] != es[i];
    }
  }

  lemma {:induction false} KeptIsKept(issues: seq<Issue>, k: nat, p: Issue -> bool)
    requires k < |issues| && p(issues[k])
    ensures issues[k] in Keep(issues, p)
  {
    if k < |issues| - 1 { KeptIsKept(issues[..|issues| - 1], k, p); }
  }

  /** The keys of some issues, each once, in the order of their first occurrence. */
  function KeysOnce(issues: seq<Issue>): seq<IssueKey> {
    if issues == [] then []
    else
      var before, key := KeysOnce(issues[..|issues| - 1]), KeyOf(issues[|issues| - 1]);
      if key in before then before else before + [key]
  }

  /** The keys of the rows that a repair changes, in table order. */
  function ChangedRows(facts: seq<EntityFacts>, es: seq<Entity>, ws: string): seq<IssueKey> {
    if es == [] then []
    else
      var before, e := ChangedRows(facts, es[..|es| - 1], ws), es[|es| - 1];
      if InScope(e.facts, ws) && Unlinked(facts, e) != e then before + [KeyOf(Broken(e.facts.id))] else before
  }

  lemma KeysOnceMore(issues: seq<Issue>, x: Issue)
    ensures KeysOnce(issues + [x]) == if KeyOf(x) in KeysOnce(issues) then KeysOnce(issues)
      else KeysOnce(issues) + [KeyOf(x)]
  {
    assert (issues + [x])[..|issues|] == issues;
  }

  lemma {:induction false} KeysOnceRepeat(a: seq<Issue>, b: seq<Issue>, x: Issue)
    requires b != [] && forall y :: y in b ==> y == x
    ensures KeysOnce(a + b) == if KeyOf(x) in KeysOnce(a) then KeysOnce(a) else KeysOnce(a) + [KeyOf(x)]
  {
    var n := |b| - 1;
    assert a + b == a + b[..n] + [x] by { assert b[n] in b && b == b[..n] + [b[n]]; }
    KeysOnceMore(a + b[..n], x);
    if n == 0 {
      assert a + b[..n] == a;
    } else {
      forall y | y in b[..n] ensures y == x { assert y in b; }
      KeysOnceRepeat(a, b[..n], x);
    }
  }

  lemma {:induction false} ChangedRowsAreRows(facts: seq<EntityFacts>, es: seq<Entity>, ws: string)
    ensures forall key :: key in ChangedRows(facts, es, ws) ==>
      exists i :: 0 <= i < |es| && es[i].facts.id == key.target
  {
    if es != [] {
      var n := |es| - 1;
      ChangedRowsAreRows(facts, es[..n], ws);
      forall key | key in ChangedRows(facts, es[..n], ws)
        ensures exists i :: 0 <= i < |es| && es[i].facts.id == key.target
      {
        var i :| 0 <= i < n && es[..n][i].facts.id == key.target;
        assert es[i].facts.id == key.target;
      }
      assert es[n].facts.id == KeyOf(Broken(es[n].facts.id)).target;
    }
  }

  /** However many of its links dangle, a row is reported once, and rows that a repair
      leaves alone are not. */
  lemma {:induction false} RowsAreReportedOnce(facts: seq<EntityFacts>, es: seq<Entity>, ws: string)
    requires DistinctIds(es)
    ensures KeysOnce(ReferenceIssues(facts, es, ws)) == ChangedRows(facts, es, ws)
  {
    if es != [] {
      var n := |es| - 1;
      RowsAreReportedOnce(facts, es[..n], ws);
      ChangedRowsAreRows(facts, es[..n], ws);
      RowIssuesNameRow(facts, es[n], ws);
      var a, b := ReferenceIssues(facts, es[..n], ws), RowIssues(facts, es[n], ws);
      if b == [] {
        assert a + b == a;
      } else {
        assert b[0] in b;
        KeysOnceRepeat(a, b, Broken(es[n].facts.id));
      }
    }
  }

  /** Unlinking is idempotent, so unlinking one more row keeps the table in step. */
  lemma UnlinkedRow(facts: seq<EntityFacts>, es: seq<Entity>, ids: set<string>, r: seq<Entity>, i: nat)
    requires DistinctIds(es) && UnlinkedRows(facts, es, ids, r) && i < |r|
    ensures UnlinkedRows(facts, es, ids + {r[i].facts.id}, r[i := Unlinked(facts, r[i])])
    ensures r[i := r[i]] == r
  {
    if es[i].links.Array? {
      SoundHasNoIssues(facts, "", es[i].links.links);
      SoundHasNoIssues(facts, "", Sound(facts, es[i].links.links));
    }
  }

  /** The two tables repair works on. */
  class Vault {
    var entities: seq<Entity>
    var prints: seq<Print>

    ghost predicate Valid()
      reads this
    {
      DistinctIds(entities)
    }

    method CheckReferences(ws: string) returns (issues: seq<Issue>)
      ensures issues == ReferenceIssues(EntityColumns(entities), entities, ws)
    {
      issues := [];
      var facts := EntityColumns(entities);
      for i := 0 to |entities|
        invariant issues == ReferenceIssues(facts, entities[..i], ws)
      {
        assert entities[..i + 1][..i] == entities[..i];
        if !InScope(entities[i].facts, ws) || !entities[i].links.Array? {
          continue;
        }
        var found := CheckLinks(facts, entities[i].facts.id, entities[i].links.links);
        issues := issues + found;
      }
      assert entities[..|entities|] == entities;
    }

    method CheckLinks(facts: seq<EntityFacts>, id: string, links: seq<Link>) returns (issues: seq<Issue>)
      ensures issues == LinkIssues(facts, id, links)
    {
      issues := [];
      for k := 0 to |links|
        invariant issues == LinkIssues(facts, id, links[..k])
      {
        assert links[..k + 1][..k] == links[..k];
        if Dangling(facts, links[k]) {
          issues := issues + [Broken(id)];
        }
      }
      assert links[..|links|] == links;
    }

    method CheckGrounding(ws: string) returns (issues: seq<Issue>)
      ensures issues == GroundingIssues(prints, ws)
    {
      issues := [];
      for i := 0 to |prints|
        invariant issues == Findings(prints[..i], ws)
      {
        assert prints[..i + 1][..i] == prints[..i];
        if Unreviewed(prints[i], ws) {
          issues := issues + [Ground(prints[i].facts)];
        }
      }
      assert prints[..|prints|] == prints;
      if |issues| > GROUNDING_LIMIT {
        issues := issues[..GROUNDING_LIMIT];
      }
    }

    method Check(ws: string, others: Others) returns (issues: seq<Issue>, score: int)
      ensures issues == AllIssues(entities, prints, ws, others) && score == ScoreFor(issues)
      ensures 0 <= score <= 100
    {
      var references := CheckReferences(ws);
      var grounding := CheckGrounding(ws);
      issues := references + grounding + others(EntityColumns(entities), PrintColumns(prints));
      score := ScoreFor(issues);
    }

    /** One row's links without the dangling ones, and how many went. */
    method SweepLinks(facts: seq<EntityFacts>, links: seq<Link>) returns (kept: seq<Link>, removed: nat)
      ensures kept == Sound(facts, links) && removed == |links| - |kept|
    {
      kept, removed := [], 0;
      for k := 0 to |links|
        invariant kept == Sound(facts, links[..k]) && removed == k - |kept|
      {
        assert links[..k + 1][..k] == links[..k];
        if Dangling(facts, links[k]) {
          removed := removed + 1;
        } else {
          kept := kept + [links[k]];
        }
      }
      assert links[..|links|] == links;
    }

    method FindRow(id: string) returns (i: nat)
      ensures i <= |entities| && (i < |entities| ==> entities[i].facts.id == id)
      ensures i == |entities| ==> forall j :: 0 <= j < |entities| ==> entities[j].facts.id != id
    {
      i := 0;
      while i < |entities| && entities[i].facts.id != id
        invariant i <= |entities| && forall j :: 0 <= j < i ==> entities[j].facts.id != id
      {
        i := i + 1;
      }
    }

    /** The update of one row; `changed` says whether anything was removed. */
    method UnlinkRow(id: string, facts: seq<EntityFacts>, ghost es: seq<Entity>, ghost ids: set<string>)
      returns (changed: bool)
      requires DistinctIds(es) && facts == EntityColumns(es) && UnlinkedRows(facts, es, ids, entities)
      modifies this`entities
      ensures UnlinkedRows(facts, es, ids + {id}, entities)
      ensures changed <==> entities != old(entities)
    {
      var i := FindRow(id);
      changed := false;
      if i < |entities| { UnlinkedRow(facts, es, ids, entities, i); }
      if i == |entities| || !entities[i].links.Array? {
        return;
      }
      var kept, removed := SweepLinks(facts, entities[i].links.links);
      SoundHasNoIssues(facts, id, entities[i].links.links);
      if removed > 0 {
        entities := entities[i := entities[i].(links := Array(kept))];
        changed := true;
      }
    }

    method UnlinkAll(issues: seq<Issue>, ws: string, ghost es: seq<Entity>) returns (repaired: seq<IssueKey>)
      requires Valid() && es == entities && Keep(issues, IsReference()) == ReferenceIssues(EntityColumns(es), es, ws)
      modifies this`entities
      ensures entities == EntitiesAfter(es, ws)
      ensures repaired == ChangedRows(EntityColumns(es), es, ws)
      ensures forall key :: key in repaired <==>
        key.code == ReferenceIntegrity && key.target in Targets(Keep(issues, IsReference()))
    {
      repaired := [];
      var facts := EntityColumns(entities);
      ghost var ids: set<string> := {};
      TargetsMore([], Broken(""));
      for k := 0 to |issues|
        invariant ids == Targets(Keep(issues[..k], IsReference())) && UnlinkedRows(facts, es, ids, entities)
        invariant forall key :: key in repaired <==> key.code == ReferenceIntegrity && key.target in ids
        invariant repaired == KeysOnce(Keep(issues[..k], IsReference()))
      {
        KeepMore(issues, k, IsReference());
        KeysOnceMore(Keep(issues[..k], IsReference()), issues[k]);
        TargetsMore(Keep(issues[..k], IsReference()), issues[k]);
        if issues[k].code == ReferenceIntegrity {
          var id := issues[k].target;
          ghost var before := entities;
          var changed := UnlinkRow(id, facts, es, ids);
          NamedRowChanges(issues, k, es, ws);
          ChangesOnce(es, ids, id, ws, before, entities);
          assert KeyOf(issues[k]) in repaired <==> id in ids;
          if changed {
            repaired := repaired + [KeyOf(issues[k])];
          }
          ids := ids + {id};
        }
      }
      assert issues[..|issues|] == issues;
      NamedRowsAreRepair(es, ws, entities);
      RowsAreReportedOnce(facts, es, ws);
    }

    method AcknowledgeAll(issues: seq<Issue>, ws: string, ghost before: seq<Print>) returns (repaired: seq<IssueKey>)
      requires before == prints && Keep(issues, IsGrounding()) == GroundingIssues(before, ws)
      modifies this`prints
      ensures prints == PrintsAfter(before, ws)
      ensures repaired == Keys(Keep(issues, IsGrounding()))
    {
      repaired := [];
      ghost var targets: set<string> := {};
      TargetsMore([], Broken(""));
      for k := 0 to |issues|
        invariant targets == Targets(Keep(issues[..k], IsGrounding())) && prints == Acknowledged(before, targets)
        invariant repaired == Keys(Keep(issues[..k], IsGrounding()))
      {
        KeepMore(issues, k, IsGrounding());
        TargetsMore(Keep(issues[..k], IsGrounding()), issues[k]);
        if issues[k].code == GroundingStatus {
          prints := Acknowledged(prints, {issues[k].target});
          repaired := repaired + [KeyOf(issues[k])];
          targets := targets + {issues[k].target};
        }
      }
      assert issues[..|issues|] == issues;
    }

    method ListReview(issues: seq<Issue>, repaired: seq<IssueKey>) returns (review: seq<IssueKey>)
      requires forall i :: 0 <= i < |issues| ==> (KeyOf(issues[i]) in repaired <==> !IsOther()(issues[i]))
      ensures review == Keys(Keep(issues, IsOther()))
    {
      review := [];
      for k := 0 to |issues|
        invariant review == Keys(Keep(issues[..k], IsOther()))
      {
        KeepMore(issues, k, IsOther());
        if KeyOf(issues[k]) !in repaired {
          review := review + [KeyOf(issues[k])];
        }
      }
      assert issues[..|issues|] == issues;
    }

    /** The whole loop: it always succeeds, leaves the tables repaired, reports the
        rows it changed and the findings it acknowledged, and hands over for review
        exactly the issues of the checkers that repair never serves. */
    method Repair(ws: string, others: Others) returns (report: Option<RepairReport>)
      requires Valid() && OwnCodes(others)
      modifies this
      ensures Valid() && entities == EntitiesAfter(old(entities), ws) && prints == PrintsAfter(old(prints), ws)
      ensures report.Some? && report.value.beforeScore <= report.value.afterScore
      ensures report.value.beforeScore == ScoreFor(AllIssues(old(entities), old(prints), ws, others))
      ensures report.value.afterScore == ScoreFor(AllIssues(entities, prints, ws, others))
      ensures report.value.repaired ==
        ChangedRows(EntityColumns(old(entities)), old(entities), ws) + Keys(GroundingIssues(old(prints), ws))
      ensures report.value.requiresReview == Keys(others(EntityColumns(old(entities)), PrintColumns(old(prints))))
    {
      ghost var es, ps := entities, prints;
      var issues, before := Check(ws, others);
      CodesTellApart(es, ps, ws, others);
      var unlinked := UnlinkAll(issues, ws, es);
      var acknowledged := AcknowledgeAll(issues, ws, ps);
      var repaired := unlinked + acknowledged;
      RepairedKeys(issues, unlinked, acknowledged);
      var review := ListReview(issues, repaired);
      var remaining, after := Check(ws, others);
      RepairNeverRegresses(es, ps, ws, others);
      report := if after < before then None else Some(RepairReport(before, after, repaired, review));
    }
  }

  lemma RepairedKeys(issues: seq<Issue>, unlinked: seq<IssueKey>, acknowledged: seq<IssueKey>)
    requires forall key :: key in unlinked <==>
      key.code == ReferenceIntegrity && key.target in Targets(Keep(issues, IsReference()))
    requires acknowledged == Keys(Keep(issues, IsGrounding()))
    ensures forall i :: 0 <= i < |issues| ==> (KeyOf(issues[i]) in unlinked + acknowledged <==> !IsOther()(issues[i]))
  {
    KeptOnly(issues, IsGrounding());
    forall i | 0 <= i < |issues| ensures KeyOf(issues[i]) in unlinked + acknowledged <==> !IsOther()(issues[i]) {
      if IsReference()(issues[i]) {
        KeptIsKept(issues, i, IsReference());
        TargetOf(Keep(issues, IsReference()), issues[i]);
      } else if IsGrounding()(issues[i]) {
        KeptIsKept(issues, i, IsGrounding());
        KeyIn(Keep(issues, IsGrounding()), issues[i]);
      } else if KeyOf(issues[i]) in acknowledged {
        KeyFrom(Keep(issues, IsGrounding()), KeyOf(issues[i]));
      }
    }
  }

  lemma TargetOf(issues: seq<Issue>, x: Issue)
    requires x in issues
    ensures x.target in Targets(issues)
  {
    var k :| 0 <= k < |issues| && issues[k] == x;
  }

  lemma KeyIn(issues: seq<Issue>, x: Issue)
    requires x in issues
    ensures KeyOf(x) in Keys(issues)
  {
    var k :| 0 <= k < |issues| && issues[k] == x;
    assert Keys(issues)[k] == KeyOf(x);
  }

  lemma KeyFrom(issues: seq<Issue>, key: IssueKey)
    requires key in Keys(issues)
    ensures exists x :: x in issues && KeyOf(x) == key
  {
    var k :| 0 <= k < |issues| && Keys(issues)[k] == key;
    assert issues[k] in issues;
  }

  lemma {:induction false} KeptOnly(issues: seq<Issue>, p: Issue -> bool)
    ensures forall x :: x in Keep(issues, p) ==> p(x)
  {
    if issues != [] { KeptOnly(issues[..|issues| - 1], p); }
  }
}
