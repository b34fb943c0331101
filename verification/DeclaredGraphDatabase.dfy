/** The program's transactions on the declared-graph tables
    (src/declared_graph.rs), and the theorems about runs restated for requests. */
module DeclaredGraphDatabase {
  import opened Options
  import opened DeclaredGraph
  import opened DeclaredGraphStore
  import opened DeclaredGraphHistory

  // ------------------------------------------------------- requests to plans

  predicate Started(from: Option<int>, now: int) { from.Some? ==> from.value <= now }

  predicate NotEnded(to: Option<int>, now: int) { to.Some? ==> now < to.value }

  function OrElse<T>(a: Option<T>, b: Option<T>): Option<T> { if a.Some? then a else b }

  predicate EdgeInWindow(b: ManifestBody, e: EdgeInput, now: int) {
    Started(OrElse(e.validFrom, b.validFrom), now) && NotEnded(OrElse(e.validTo, b.validTo), now)
  }

  /** An upsert and all of its edges are valid at the recording time; deletes are
      not bound to a window. */
  ghost predicate InWindow(b: ManifestBody, now: int) {
    b.operation == "upsert" ==>
      && Started(b.validFrom, now) && NotEnded(b.validTo, now)
      && forall i :: 0 <= i < |b.edges| ==> EdgeInWindow(b, b.edges[i], now)
  }

  predicate RefsOk(b: ManifestBody) {
    forall i :: 0 <= i < |b.edges| ==> SplitNodeRef(b.edges[i].from).Some? && SplitNodeRef(b.edges[i].to).Some?
  }

  function PlanNode(b: ManifestBody, n: NodeInput): PlannedNode {
    PlannedNode(NodeOf(b, n), n.nodeType, n.externalRef)
  }

  function PlanEdge(b: ManifestBody, e: EdgeInput): PlannedEdge
    requires SplitNodeRef(e.from).Some? && SplitNodeRef(e.to).Some?
  {
    PlannedEdge(EdgeOf(b, e), e.context, e.spanRef, e.supportState, OrElse(e.validFrom, b.validFrom),
                OrElse(e.validTo, b.validTo))
  }

  /** The request with its identities resolved. */
  function PlanOf(b: ManifestBody): Plan
    requires RefsOk(b)
  {
    Plan(ManifestOf(b), b.operation, b,
         seq(|b.nodes|, i requires 0 <= i < |b.nodes| => PlanNode(b, b.nodes[i])),
         seq(|b.edges|, i requires 0 <= i < |b.edges| => PlanEdge(b, b.edges[i])))
  }

  /** Validation guarantees a proper plan: its edges have distinct row ids and
      join declared nodes of the manifest's workspace. */
  lemma ValidRequestIsProper(r: ManifestRequest)
    requires ValidRequest(r)
    ensures RefsOk(r.body) && ProperPlan(PlanOf(r.body))
  {
    var b := r.body;
    if b.operation != "delete" {
      FineEdgesAreProper(b);
      var p := PlanOf(b);
      forall i, j | 0 <= i < j < |p.nodes| ensures p.nodes[i].id != p.nodes[j].id {
        assert NodeOf(b, b.nodes[i]) != NodeOf(b, b.nodes[j]);
      }
    }
  }

  lemma FineEdgesAreProper(b: ManifestBody)
    requires EdgesOk(b, |b.edges|)
    ensures RefsOk(b)
    ensures var p := PlanOf(b);
      && (forall i :: 0 <= i < |p.edges| ==> ProperEdge(p, p.edges[i]))
      && (forall i, j :: 0 <= i < j < |p.edges| ==> p.edges[i].id != p.edges[j].id)
  {
    forall i | 0 <= i < |b.edges| ensures SplitNodeRef(b.edges[i].from).Some? && SplitNodeRef(b.edges[i].to).Some? {
      assert EdgeFine(b, b.edges[i]);
    }
    var p := PlanOf(b);
    forall i | 0 <= i < |p.edges| ensures ProperEdge(p, p.edges[i]) {
      assert EdgeFine(b, b.edges[i]);
      PlannedEdgeIsProper(b, i);
    }
    forall i, j | 0 <= i < j < |p.edges| ensures p.edges[i].id != p.edges[j].id {
      assert EdgeKey(b.edges[i]) != EdgeKey(b.edges[j]);
      if p.edges[i].id == p.edges[j].id { DistinctKeysDistinctIds(b, b.edges[i], b.edges[j]); }
    }
  }

  lemma PlannedEdgeIsProper(b: ManifestBody, i: nat)
    requires RefsOk(b) && i < |b.edges| && EdgeDeclared(b, b.edges[i]) && EdgeTextOk(b.edges[i])
    ensures ProperEdge(PlanOf(b), PlanOf(b).edges[i])
  {
    var e, p := b.edges[i], PlanOf(b);
    var x :| 0 <= x < |b.nodes| && NodeOf(b, b.nodes[x]) == RefNode(b, e.from);
    var y :| 0 <= y < |b.nodes| && NodeOf(b, b.nodes[y]) == RefNode(b, e.to);
    assert p.nodes[x].id == p.edges[i].id.from && p.nodes[y].id == p.edges[i].id.to;
  }

  ghost function SubmissionOf(r: ManifestRequest, now: int): (c: Submission)
    ensures Checked(c)
  {
    if ValidRequest(r) then
      ValidRequestIsProper(r);
      Submission(true, InWindow(r.body, now), PlanOf(r.body), r.agent, now)
    else Submission(false, false, PlanOf(r.body.(edges := [])), r.agent, now)
  }

  // -------------------------------------------------------------- transactions

  lemma {:induction false} InsertNodesDomain(nodes: map<NodeId, NodeRow>, p: Plan, k: nat, now: int, n: NodeId)
    requires k <= |p.nodes|
    ensures n in InsertNodes(nodes, p, k, now) <==> n in nodes || exists i :: 0 <= i < k && p.nodes[i].id == n
    ensures n in nodes ==> InsertNodes(nodes, p, k, now)[n] == nodes[n]
  {
    if k > 0 { InsertNodesDomain(nodes, p, k - 1, now, n); }
  }

  /** Primary keys are never violated: a planned edge is new to the table. */
  lemma {:induction false} EdgeRowIsNew(edges: map<EdgeId, EdgeRow>, p: Plan, k: nat, now: int, j: nat)
    requires k <= j < |p.edges| && (forall i, j :: 0 <= i < j < |p.edges| ==> p.edges[i].id != p.edges[j].id)
    requires p.edges[j].id !in edges
    ensures p.edges[j].id !in InsertEdges(edges, p, k, now)
  {
    if k > 0 { EdgeRowIsNew(edges, p, k - 1, now, j); }
  }

  class Database {
    var nodes: map<NodeId, NodeRow>
    var manifests: map<ManifestId, ManifestRow>
    var edges: map<EdgeId, EdgeRow>
    var events: map<EventId, EventRow>

    ghost function Contents(): Store
      reads this
    {
      Store(nodes, manifests, edges, events)
    }

    constructor ()
      ensures Contents() == EMPTY
    {
      nodes, manifests, edges, events := map[], map[], map[], map[];
    }

    /** Look up or insert the planned nodes in a copy of the node table. */
    method PlaceNodes(p: Plan, now: int) returns (ok: bool, tx: map<NodeId, NodeRow>)
      requires ProperPlan(p)
      ensures ok <==> NoCollision(Contents(), p)
      ensures ok ==> tx == InsertNodes(nodes, p, |p.nodes|, now)
    {
      tx := nodes;
      for k := 0 to |p.nodes|
        invariant tx == InsertNodes(nodes, p, k, now)
        invariant forall i :: 0 <= i < k && p.nodes[i].id in nodes ==> Compatible(nodes[p.nodes[i].id], p.nodes[i])
      {
        var n := p.nodes[k];
        InsertNodesDomain(nodes, p, k, now, n.id);
        if n.id in tx {
          if tx[n.id].nodeType != n.nodeType || tx[n.id].externalRef != n.externalRef {
            return false, tx;
          }
        } else {
          tx := tx[n.id := NodeRow(n.nodeType, n.externalRef, now)];
        }
      }
      ok := true;
    }

    /** Insert the planned edges into the retired edge table. */
    method PlaceEdges(p: Plan, base: map<EdgeId, EdgeRow>, now: int) returns (tx: map<EdgeId, EdgeRow>)
      requires ProperPlan(p) && forall e :: e in base ==> e.manifest != p.manifest
      ensures tx == InsertEdges(base, p, |p.edges|, now)
    {
      tx := base;
      for k := 0 to |p.edges|
        invariant tx == InsertEdges(base, p, k, now)
      {
        var e := p.edges[k];
        assert ProperEdge(p, e);
        EdgeRowIsNew(base, p, k, now, k);
        assert e.id !in tx;
        tx := tx[e.id := NewEdge(e, now)];
      }
    }

    /** UPDATE declared_graph_edges ... for the active revision of the source. */
    method RetireEdgeRows(p: Plan, now: int) returns (rows: map<EdgeId, EdgeRow>)
      ensures rows == RetireEdges(Contents(), p, now)
    {
      rows := map e | e in edges ::
        if && e.manifest in manifests && manifests[e.manifest].state == ManifestActive
           && e.manifest.workspace == p.manifest.workspace && e.manifest.sourceKey == p.manifest.sourceKey
           && edges[e].state == EdgeActive
        then edges[e].(state := if p.Deletes() then EdgeTombstoned else EdgeSuperseded, updatedAt := now) else edges[e];
    }

    /** UPDATE declared_graph_manifests ... for the active revision of the source. */
    method RetireManifestRows(p: Plan, now: int) returns (rows: map<ManifestId, ManifestRow>)
      ensures rows == RetireManifests(Contents(), p, now)
    {
      rows := map m | m in manifests ::
        if && manifests[m].state == ManifestActive
           && m.workspace == p.manifest.workspace && m.sourceKey == p.manifest.sourceKey
        then manifests[m].(state := if p.Deletes() then ManifestTombstoned else ManifestSuperseded, updatedAt := now)
        else manifests[m];
    }

    /** The transaction of `apply_declared_graph_manifest` after its checks. */
    method Commit(p: Plan, agent: string, now: int) returns (r: Result)
      requires Inv(Contents()) && ProperPlan(p)
      modifies this
      ensures (r, Contents()) == Apply(old(Contents()), Submission(true, true, p, agent, now))
    {
      if p.manifest in manifests {
        if manifests[p.manifest].digest != p.digest {
          return Err(RevisionConflict);
        }
        return Ok(Idempotent);
      }
      var retiredEdges := RetireEdgeRows(p, now);
      var retiredManifests := RetireManifestRows(p, now);
      var ok, txNodes := PlaceNodes(p, now);
      if !ok {
        return Err(NodeCollision);
      }
      var row := NewManifest(p, now);
      var txEdges := PlaceEdges(p, retiredEdges, now);
      nodes := txNodes;
      manifests := retiredManifests[p.manifest := row];
      edges := txEdges;
      events := events[ManifestEvent(p.manifest, p.operation, p.digest) := EventRow(row.state, agent, now)];
      r := Ok(Applied);
    }

    /** The window checks that precede the transaction. */
    method CheckWindow(b: ManifestBody, now: int) returns (ok: bool)
      ensures ok <==> InWindow(b, now)
    {
      if b.operation == "upsert" {
        if !Started(b.validFrom, now) || !NotEnded(b.validTo, now) {
          return false;
        }
        for k := 0 to |b.edges|
          invariant forall i :: 0 <= i < k ==> EdgeInWindow(b, b.edges[i], now)
        {
          if !EdgeInWindow(b, b.edges[k], now) {
            return false;
          }
        }
      }
      ok := true;
    }

    method ApplyManifest(request: ManifestRequest, now: int) returns (r: Result)
      requires Inv(Contents())
      modifies this
      ensures (r, Contents()) == Apply(old(Contents()), SubmissionOf(request, now))
      ensures Inv(Contents()) && Later(old(Contents()), Contents())
    {
      ghost var c := SubmissionOf(request, now);
      ApplyKeepsInv(Contents(), c);
      ApplyIsLater(Contents(), c);
      var valid := Validate(request);
      if !valid {
        return Err(InvalidRequest);
      }
      var inWindow := CheckWindow(request.body, now);
      if !inWindow {
        return Err(OutsideWindow);
      }
      ValidRequestIsProper(request);
      r := Commit(PlanOf(request.body), request.agent, now);
    }

    /** Every named edge is active, in scope and not yet attested. */
    method CheckAttestable(request: AttestRequest) returns (ok: bool)
      ensures ok <==> forall i :: 0 <= i < |request.edgeIds| ==> Attestable(Contents(), request, request.edgeIds[i])
    {
      for k := 0 to |request.edgeIds|
        invariant forall i :: 0 <= i < k ==> Attestable(Contents(), request, request.edgeIds[i])
      {
        var e := request.edgeIds[k];
        if e !in edges || e.manifest != AttestedManifest(request) || edges[e].state != EdgeActive
           || (edges[e].supportState != "sourced" && edges[e].supportState != "supported") {
          assert !Attestable(Contents(), request, request.edgeIds[k]);
          return false;
        }
      }
      ok := true;
    }

    /** Update the named edges one by one in a copy of the edge table. */
    method MarkAttested(request: AttestRequest, now: int) returns (tx: map<EdgeId, EdgeRow>)
      requires forall i :: 0 <= i < |request.edgeIds| ==> request.edgeIds[i] in edges
      ensures tx == AttestEdges(Contents(), request, now)
    {
      tx := edges;
      for k := 0 to |request.edgeIds|
        invariant tx.Keys == edges.Keys
        invariant forall e :: e in edges ==>
          tx[e] == if e in request.edgeIds[..k] then AttestRow(edges[e], request, now) else edges[e]
      {
        var e := request.edgeIds[k];
        tx := tx[e := tx[e].(supportState := "attested", attestedBy := Some(request.attestedBy),
                             attestationRef := Some(request.attestationRef), updatedAt := now)];
      }
      assert request.edgeIds[..|request.edgeIds|] == request.edgeIds;
    }

    /** The transaction of `attest_declared_graph` after validation. */
    method CommitAttest(request: AttestRequest, now: int) returns (r: Result)
      modifies this
      ensures (r, Contents()) == Attest(old(Contents()), true, request, now)
    {
      var m := AttestedManifest(request);
      if m !in manifests || manifests[m].state != ManifestActive {
        return Err(NoActiveManifest);
      }
      if AttestEvent(m, request) in events {
        return Ok(Idempotent);
      }
      var attestable := CheckAttestable(request);
      if !attestable {
        return Err(NotAttestable);
      }
      edges := MarkAttested(request, now);
      events := events[AttestEvent(m, request) := EventRow(manifests[m].state, request.agent, now)];
      r := Ok(Applied);
    }

    method AttestEdgesOf(request: AttestRequest, now: int) returns (r: Result)
      requires Inv(Contents())
      modifies this
      ensures (r, Contents()) == Attest(old(Contents()), ValidAttest(request), request, now)
      ensures Inv(Contents()) && Later(old(Contents()), Contents())
    {
      AttestKeepsInv(Contents(), ValidAttest(request), request, now);
      AttestIsLater(Contents(), ValidAttest(request), request, now);
      var valid := ValidateAttest(request);
      if !valid {
        return Err(InvalidRequest);
      }
      r := CommitAttest(request, now);
    }
  }

  // -------------------------------------------------------- runs of requests

  datatype Request =
    | ApplyRequest(manifest: ManifestRequest, now: int)
    | AttestRequestAt(attest: AttestRequest, now: int)

  ghost function OpOf(q: Request): Op {
    match q
    case ApplyRequest(r, now) => ApplyOp(SubmissionOf(r, now))
    case AttestRequestAt(r, now) => AttestOp(ValidAttest(r), r, now)
  }

  ghost function OpsOf(qs: seq<Request>): (ops: seq<Op>)
    ensures AllChecked(ops)
  {
    seq(|qs|, i requires 0 <= i < |qs| => OpOf(qs[i]))
  }

  /** Whatever requests arrive, in whatever order and at whatever times, the
      tables stay sound and history only grows. */
  lemma EveryRunOfRequestsIsSound(before: seq<Request>, after: seq<Request>)
    ensures var s := Run(EMPTY, OpsOf(before)); Inv(s) && Inv(Run(s, OpsOf(after))) && Later(s, Run(s, OpsOf(after)))
  {
    ReachableStatesAreSound(OpsOf(before));
    RunKeepsHistory(Run(EMPTY, OpsOf(before)), OpsOf(after));
  }

  /** A manifest request once accepted, submitted again by any agent at any later
      time, changes nothing; it succeeds exactly when it is still valid and inside
      its window. */
  lemma ResubmissionChangesNothing(before: seq<Request>, r: ManifestRequest, now: int, after: seq<Request>,
                                   agent: string, later: int)
    requires Apply(Run(EMPTY, OpsOf(before)), SubmissionOf(r, now)).0.Ok?
    ensures var t := Run(Apply(Run(EMPTY, OpsOf(before)), SubmissionOf(r, now)).1, OpsOf(after));
      var again := r.(agent := agent);
      && Apply(t, SubmissionOf(again, later)).1 == t
      && (Apply(t, SubmissionOf(again, later)).0 == Ok(Idempotent) <==> ValidRequest(again) && InWindow(r.body, later))
  {
    var s, c, again := Run(EMPTY, OpsOf(before)), SubmissionOf(r, now), SubmissionOf(r.(agent := agent), later);
    ReachableStatesAreSound(OpsOf(before));
    if again.valid {
      ReplayChangesNothing(s, c, OpsOf(after), again);
    }
  }

  /** Another content for a retained revision is refused for ever. */
  lemma RevisionsAreImmutable(before: seq<Request>, r: ManifestRequest, now: int, after: seq<Request>,
                              other: ManifestRequest, later: int)
    requires Apply(Run(EMPTY, OpsOf(before)), SubmissionOf(r, now)).0.Ok?
    requires ManifestOf(other.body) == ManifestOf(r.body) && other.body != r.body
    ensures var t := Run(Apply(Run(EMPTY, OpsOf(before)), SubmissionOf(r, now)).1, OpsOf(after));
      Apply(t, SubmissionOf(other, later)).0.Err? && Apply(t, SubmissionOf(other, later)).1 == t
  {
    var s, c, d := Run(EMPTY, OpsOf(before)), SubmissionOf(r, now), SubmissionOf(other, later);
    ReachableStatesAreSound(OpsOf(before));
    if d.valid { ConflictingRevisionFails(s, c, OpsOf(after), d); }
  }
}
