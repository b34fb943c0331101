/** What an accepted request writes (src/declared_graph.rs,
    `apply_declared_graph_manifest` and `attest_declared_graph`), row by row and in
    terms of the request alone, and over whole runs which edges are attested. */
module DeclaredGraphEffects {
  import opened Options
  import opened DeclaredGraph
  import opened DeclaredGraphStore
  import opened DeclaredGraphHistory
  import opened DeclaredGraphDatabase
  import opened DeclaredGraphNodes

  /** The request can be accepted: well formed, a new revision, and no node disagrees. */
  ghost predicate Acceptable(s: Store, b: ManifestBody) {
    RefsOk(b) && ProperPlan(PlanOf(b)) && PlanOf(b).manifest !in s.manifests && NoCollision(s, PlanOf(b))
  }

  ghost function After(s: Store, b: ManifestBody, agent: string, now: int): Store
    requires RefsOk(b)
  {
    Accept(s, PlanOf(b), agent, now)
  }

  // ---------------------------------------------------------------------- manifests

  predicate SameSource(m: ManifestId, b: ManifestBody) {
    m.workspace == b.workspace && m.sourceKey == b.sourceKey
  }

  /** The manifest table after request b: the active revision of the source is retired
      and the new one is recorded. */
  ghost predicate ManifestsWritten(s: Store, b: ManifestBody, now: int, t: Store) {
    var m, delete := ManifestId(b.workspace, b.sourceKey, b.revision), b.operation == "delete";
    && m !in s.manifests && t.manifests.Keys == s.manifests.Keys + {m}
    && t.manifests[m].digest == b && t.manifests[m].recordedAt == now == t.manifests[m].updatedAt
    && t.manifests[m].state == (if delete then ManifestDeleted else ManifestActive)
    && t.manifests[m].tombstonedAt == (if delete then Some(now) else None)
    && |t.manifests[m].nodeIds| == |b.nodes|
    && (forall i :: 0 <= i < |b.nodes| ==>
         t.manifests[m].nodeIds[i] == NodeId(b.workspace, b.nodes[i].namespace, b.nodes[i].canonicalId))
    && (forall x :: x in s.manifests ==> ManifestRetired(s, b, now, t, x))
  }

  ghost predicate ManifestRetired(s: Store, b: ManifestBody, now: int, t: Store, x: ManifestId)
    requires x in s.manifests
  {
    && x in t.manifests
    && t.manifests[x] ==
         if s.manifests[x].state == ManifestActive && SameSource(x, b)
         then s.manifests[x].(state := if b.operation == "delete" then ManifestTombstoned else ManifestSuperseded,
                              updatedAt := now)
         else s.manifests[x]
  }

  lemma OldManifestRetires(s: Store, p: Plan, b: ManifestBody, agent: string, now: int, x: ManifestId)
    requires ManifestOf(b) == p.manifest && b.operation == p.operation && p.manifest !in s.manifests && x in s.manifests
    ensures ManifestRetired(s, b, now, Accept(s, p, agent, now), x)
  {}

  lemma ApplyWritesManifests(s: Store, b: ManifestBody, agent: string, now: int)
    requires Inv(s) && Acceptable(s, b)
    ensures ManifestsWritten(s, b, now, After(s, b, agent, now))
  {
    var p, t := PlanOf(b), After(s, b, agent, now);
    forall x | x in s.manifests ensures ManifestRetired(s, b, now, t, x) { OldManifestRetires(s, p, b, agent, now, x); }
    NewManifestRow(b, p, now);
    ManifestKeys(s, p, agent, now);
  }

  lemma ManifestKeys(s: Store, p: Plan, agent: string, now: int)
    ensures var t := Accept(s, p, agent, now);
      t.manifests.Keys == s.manifests.Keys + {p.manifest} && t.manifests[p.manifest] == NewManifest(p, now)
  {}

  lemma NewManifestRow(b: ManifestBody, p: Plan, now: int)
    requires RefsOk(b) && p == PlanOf(b)
    ensures var row := NewManifest(p, now);
      && row.digest == b && row.recordedAt == now == row.updatedAt && |row.nodeIds| == |b.nodes|
      && row.state == (if b.operation == "delete" then ManifestDeleted else ManifestActive)
      && row.tombstonedAt == (if b.operation == "delete" then Some(now) else None)
      && forall i :: 0 <= i < |b.nodes| ==>
           row.nodeIds[i] == NodeId(b.workspace, b.nodes[i].namespace, b.nodes[i].canonicalId)
  {}

  // -------------------------------------------------------------------------- edges

  /** The row id of a relation: its manifest, its ends as the references name them, its
      predicate and its direction. */
  predicate Names(b: ManifestBody, e: EdgeInput, x: EdgeId) {
    && x.manifest == ManifestId(b.workspace, b.sourceKey, b.revision)
    && x.from.workspace == b.workspace && x.from.namespace + ":" + x.from.canonicalId == e.from
    && x.to.workspace == b.workspace && x.to.namespace + ":" + x.to.canonicalId == e.to
    && x.relation == e.relation && x.direction == e.direction
  }

  /** A new edge row: the relation's own data, its validity from the request where it has
      none, active and not attested. */
  predicate FreshRow(b: ManifestBody, e: EdgeInput, now: int, row: EdgeRow) {
    && row.context == e.context && row.spanRef == e.spanRef && row.supportState == e.supportState
    && row.attestedBy == None && row.attestationRef == None && row.state == EdgeActive
    && row.validFrom == (if e.validFrom.Some? then e.validFrom else b.validFrom)
    && row.validTo == (if e.validTo.Some? then e.validTo else b.validTo)
    && row.recordedAt == now == row.updatedAt
  }

  /** A row of the edge table before and after. */
  ghost predicate EdgeRetired(s: Store, b: ManifestBody, now: int, t: Store, x: EdgeId)
    requires x in s.edges
  {
    && x in t.edges
    && t.edges[x] ==
         if s.edges[x].state == EdgeActive && SameSource(x.manifest, b)
         then s.edges[x].(state := if b.operation == "delete" then EdgeTombstoned else EdgeSuperseded, updatedAt := now)
         else s.edges[x]
  }

  ghost predicate EdgesWritten(s: Store, b: ManifestBody, now: int, t: Store) {
    && (forall x :: x in s.edges ==> EdgeRetired(s, b, now, t, x))
    && (forall i :: 0 <= i < |b.edges| ==> EdgeAdded(s, b, b.edges[i], now, t))
    && (forall x :: x in t.edges && x !in s.edges ==> Named(b, x))
  }

  ghost predicate EdgeAdded(s: Store, b: ManifestBody, e: EdgeInput, now: int, t: Store) {
    exists x :: x in t.edges && x !in s.edges && Names(b, e, x) && FreshRow(b, e, now, t.edges[x])
  }

  ghost predicate Named(b: ManifestBody, x: EdgeId) {
    exists i :: 0 <= i < |b.edges| && Names(b, b.edges[i], x)
  }

  lemma RowIdNames(b: ManifestBody, e: EdgeInput)
    requires SplitNodeRef(e.from).Some? && SplitNodeRef(e.to).Some?
    ensures Names(b, e, EdgeOf(b, e))
  {}

  lemma OldEdgeRetires(s: Store, b: ManifestBody, agent: string, now: int, x: EdgeId)
    requires Inv(s) && Acceptable(s, b) && x in s.edges
    ensures EdgeRetired(s, b, now, After(s, b, agent, now), x)
  {
    assert x.manifest in s.manifests && Mirrors(s.edges[x].state, s.manifests[x.manifest].state);
    AcceptedEdge(s, PlanOf(b), agent, now, x);
  }

  lemma PlannedRowIsFresh(b: ManifestBody, e: EdgeInput, now: int)
    requires SplitNodeRef(e.from).Some? && SplitNodeRef(e.to).Some?
    ensures FreshRow(b, e, now, NewEdge(PlanEdge(b, e), now))
  {}

  lemma NewEdgeIsFresh(s: Store, b: ManifestBody, agent: string, now: int, i: nat)
    requires Inv(s) && Acceptable(s, b) && i < |b.edges|
    ensures EdgeAdded(s, b, b.edges[i], now, After(s, b, agent, now))
  {
    var p := PlanOf(b);
    PlannedEdgeRow(s, p, agent, now, i);
    RowIdNames(b, b.edges[i]);
    PlannedRowIsFresh(b, b.edges[i], now);
  }

  lemma PlannedEdgeRow(s: Store, p: Plan, agent: string, now: int, i: nat)
    requires Inv(s) && ProperPlan(p) && p.manifest !in s.manifests && i < |p.edges|
    ensures var x, t := p.edges[i].id, Accept(s, p, agent, now);
      x in t.edges && x !in s.edges && t.edges[x] == NewEdge(p.edges[i], now)
  {
    var x := p.edges[i].id;
    assert ProperEdge(p, p.edges[i]);
    PlannedEdgeInserted(RetireEdges(s, p, now), p, |p.edges|, now, i);
    AcceptedEdge(s, p, agent, now, x);
  }

  lemma OnlyNamedEdges(s: Store, b: ManifestBody, agent: string, now: int, x: EdgeId)
    requires Inv(s) && Acceptable(s, b) && x in After(s, b, agent, now).edges && x !in s.edges
    ensures Named(b, x)
  {
    var p := PlanOf(b);
    AcceptedEdge(s, p, agent, now, x);
    var i :| 0 <= i < |p.edges| && p.edges[i].id == x;
    RowIdNames(b, b.edges[i]);
  }

  lemma ApplyWritesEdges(s: Store, b: ManifestBody, agent: string, now: int)
    requires Inv(s) && Acceptable(s, b)
    ensures EdgesWritten(s, b, now, After(s, b, agent, now))
  {
    var t := After(s, b, agent, now);
    forall x | x in s.edges ensures EdgeRetired(s, b, now, t, x) { OldEdgeRetires(s, b, agent, now, x); }
    forall i | 0 <= i < |b.edges| ensures EdgeAdded(s, b, b.edges[i], now, t) { NewEdgeIsFresh(s, b, agent, now, i); }
    forall x | x in t.edges && x !in s.edges ensures Named(b, x) { OnlyNamedEdges(s, b, agent, now, x); }
  }

  // ------------------------------------------------------------------ nodes and events

  /** Known nodes stay, and the others of the request are added as it gives them. */
  ghost predicate NodesWritten(s: Store, b: ManifestBody, now: int, t: Store) {
    && (forall n :: n in s.nodes ==> n in t.nodes && t.nodes[n] == s.nodes[n])
    && (forall i :: 0 <= i < |b.nodes| ==>
         var n := NodeId(b.workspace, b.nodes[i].namespace, b.nodes[i].canonicalId);
         && n in t.nodes && t.nodes[n].nodeType == b.nodes[i].nodeType &&
           t.nodes[n].externalRef == b.nodes[i].externalRef
         && (n !in s.nodes ==> t.nodes[n].createdAt == now))
    && (forall n :: n in t.nodes && n !in s.nodes ==>
         exists i :: 0 <= i < |b.nodes| && n == NodeId(b.workspace, b.nodes[i].namespace, b.nodes[i].canonicalId))
  }

  lemma {:induction false} InsertedNow(nodes: map<NodeId, NodeRow>, p: Plan, k: nat, now: int, n: NodeId)
    requires k <= |p.nodes| && n in InsertNodes(nodes, p, k, now) && n !in nodes
    ensures InsertNodes(nodes, p, k, now)[n].createdAt == now
  {
    if k > 0 && n in InsertNodes(nodes, p, k - 1, now) { InsertedNow(nodes, p, k - 1, now, n); }
  }

  lemma ApplyWritesNodes(s: Store, b: ManifestBody, agent: string, now: int)
    requires Inv(s) && Acceptable(s, b)
    ensures NodesWritten(s, b, now, After(s, b, agent, now))
  {
    var b, p, t := b, PlanOf(b), After(s, b, agent, now);
    AcceptedBodyRecorded(s, b, agent, now);
    InsertNodesGrows(s.nodes, p, |p.nodes|, now);
    forall i | 0 <= i < |b.nodes| ensures
      var n := NodeId(b.workspace, b.nodes[i].namespace, b.nodes[i].canonicalId);
      && n in t.nodes && t.nodes[n].nodeType == b.nodes[i].nodeType && t.nodes[n].externalRef == b.nodes[i].externalRef
      && (n !in s.nodes ==> t.nodes[n].createdAt == now)
    {
      assert Agrees(t.nodes, b, b.nodes[i]);
      if NodeOf(b, b.nodes[i]) !in s.nodes { InsertedNow(s.nodes, p, |p.nodes|, now, NodeOf(b, b.nodes[i])); }
    }
    forall n | n in t.nodes && n !in s.nodes ensures
      exists i :: 0 <= i < |b.nodes| && n == NodeId(b.workspace, b.nodes[i].namespace, b.nodes[i].canonicalId)
    {
      InsertNodesDomain(s.nodes, p, |p.nodes|, now, n);
      var i :| 0 <= i < |p.nodes| && p.nodes[i].id == n;
      assert p.nodes[i] == PlanNode(b, b.nodes[i]);
    }
  }

  /** An accepted request writes the four tables as it says: manifests, edges and nodes
      as above, and one event in its agent's name. */
  lemma ApplyWrites(s: Store, r: ManifestRequest, now: int)
    requires Inv(s) && Apply(s, SubmissionOf(r, now)).0 == Ok(Applied)
    ensures var b, t := r.body, Apply(s, SubmissionOf(r, now)).1;
      && ManifestsWritten(s, b, now, t) && EdgesWritten(s, b, now, t) && NodesWritten(s, b, now, t)
      && t.events == s.events[ManifestEvent(ManifestId(b.workspace, b.sourceKey, b.revision), b.operation, b) :=
           EventRow(if b.operation == "delete" then ManifestDeleted else ManifestActive, r.agent, now)]
  {
    AppliedSubmission(s, r, now);
    var b := r.body;
    assert Acceptable(s, b);
    ApplyWritesManifests(s, b, r.agent, now);
    ApplyWritesEdges(s, b, r.agent, now);
    ApplyWritesNodes(s, b, r.agent, now);
  }

  // -------------------------------------------------------------------- when accepted

  /** A manifest request is applied exactly when it is valid and in its window, its
      revision is new and no node of it is known with another type or reference. */
  lemma AppliedExactlyWhen(s: Store, r: ManifestRequest, now: int)
    ensures Apply(s, SubmissionOf(r, now)).0 == Ok(Applied) <==>
      && ValidRequest(r) && (r.body.operation == "upsert" ==> Timely(r.body, now))
      && ManifestId(r.body.workspace, r.body.sourceKey, r.body.revision) !in s.manifests
      && forall i :: 0 <= i < |r.body.nodes| ==> NodeAgrees(s, r.body, r.body.nodes[i])
  {
    WindowMeans(r.body, now);
    if ValidRequest(r) {
      ValidRequestIsProper(r);
      NoCollisionMeans(s, r.body);
    }
  }

  predicate Within(from: Option<int>, to: Option<int>, now: int) {
    (from.None? || from.value <= now) && (to.None? || now < to.value)
  }

  /** The request and each of its edges, with the request's limits where an edge has none,
      are valid at this time. */
  ghost predicate Timely(b: ManifestBody, now: int) {
    && Within(b.validFrom, b.validTo, now)
    && forall i :: 0 <= i < |b.edges| ==>
         Within(if b.edges[i].validFrom.Some? then b.edges[i].validFrom else b.validFrom,
                if b.edges[i].validTo.Some? then b.edges[i].validTo else b.validTo, now)
  }

  lemma WindowMeans(b: ManifestBody, now: int)
    ensures InWindow(b, now) <==> (b.operation == "upsert" ==> Timely(b, now))
  {
    forall i | 0 <= i < |b.edges| ensures EdgeInWindow(b, b.edges[i], now) <==>
      Within(if b.edges[i].validFrom.Some? then b.edges[i].validFrom else b.validFrom,
             if b.edges[i].validTo.Some? then b.edges[i].validTo else b.validTo, now) {}
  }

  predicate NodeAgrees(s: Store, b: ManifestBody, n: NodeInput) {
    var id := NodeId(b.workspace, n.namespace, n.canonicalId);
    id in s.nodes ==> s.nodes[id].nodeType == n.nodeType && s.nodes[id].externalRef == n.externalRef
  }

  lemma NoCollisionMeans(s: Store, b: ManifestBody)
    requires RefsOk(b)
    ensures NoCollision(s, PlanOf(b)) <==> forall i :: 0 <= i < |b.nodes| ==> NodeAgrees(s, b, b.nodes[i])
  {
    var p := PlanOf(b);
    forall i | 0 <= i < |b.nodes| ensures NodeAgrees(s, b, b.nodes[i]) <==>
      (p.nodes[i].id in s.nodes ==> Compatible(s.nodes[p.nodes[i].id], p.nodes[i])) {}
  }

  /** An edge that can be attested: an active edge of the named revision that is not
      attested yet. */
  predicate Open(s: Store, r: AttestRequest, e: EdgeId) {
    && e in s.edges && e.manifest == ManifestId(r.workspace, r.sourceKey, r.revision)
    && s.edges[e].state == EdgeActive && s.edges[e].supportState != "attested"
  }

  /** An attestation is applied exactly when it is valid, its manifest is active, it is
      new and every edge it names is open. */
  lemma AttestAppliedExactlyWhen(s: Store, r: AttestRequest, now: int)
    requires Inv(s)
    ensures var m := ManifestId(r.workspace, r.sourceKey, r.revision);
      Attest(s, ValidAttest(r), r, now).0 == Ok(Applied) <==>
        && ValidAttest(r) && m in s.manifests && s.manifests[m].state == ManifestActive
        && AttestEvent(m, r) !in s.events && forall i :: 0 <= i < |r.edgeIds| ==> Open(s, r, r.edgeIds[i])
  {
    forall i | 0 <= i < |r.edgeIds| ensures Open(s, r, r.edgeIds[i]) <==> Attestable(s, r, r.edgeIds[i]) {
      if r.edgeIds[i] in s.edges { assert AttestationShape(s.edges[r.edgeIds[i]]); }
    }
  }

  /** An applied attestation marks every edge it names, and changes nothing else. */
  lemma AttestWrites(s: Store, r: AttestRequest, now: int)
    requires Attest(s, ValidAttest(r), r, now).0 == Ok(Applied)
    ensures var t := Attest(s, ValidAttest(r), r, now).1;
      && t.nodes == s.nodes && t.manifests == s.manifests && t.edges.Keys == s.edges.Keys
      && (forall e :: e in r.edgeIds ==>
           && e in s.edges
           && t.edges[e] == s.edges[e].(supportState := "attested", attestedBy := Some(r.attestedBy),
                                        attestationRef := Some(r.attestationRef), updatedAt := now))
      && (forall e :: e in s.edges && e !in r.edgeIds ==> t.edges[e] == s.edges[e])
      && t.events == s.events[AttestEvent(ManifestId(r.workspace, r.sourceKey, r.revision), r) :=
           EventRow(ManifestActive, r.agent, now)]
  {
    forall e | e in r.edgeIds ensures e in s.edges {
      var i :| 0 <= i < |r.edgeIds| && r.edgeIds[i] == e;
      AttestNeedsThis(s, r, now, i);
    }
  }

  lemma AttestNeedsThis(s: Store, r: AttestRequest, now: int, i: nat)
    requires i < |r.edgeIds| && Attest(s, ValidAttest(r), r, now).0 == Ok(Applied)
    ensures Attestable(s, r, r.edgeIds[i])
  {
    if !Attestable(s, r, r.edgeIds[i]) { AttestNeedsAll(s, ValidAttest(r), r, now, i); }
  }

  // ------------------------------------------------------------------ attested over runs

  ghost function Before(qs: seq<Request>, i: nat): Store
    requires i <= |qs|
  {
    Run(EMPTY, OpsOf(qs[..i]))
  }

  /** The request is an attestation that names the edge and is applied to this store. */
  ghost predicate Hits(s: Store, q: Request, e: EdgeId) {
    && q.AttestRequestAt? && e in q.attest.edgeIds
    && Attest(s, ValidAttest(q.attest), q.attest, q.now).0 == Ok(Applied)
  }

  lemma NextStore(qs: seq<Request>, n: nat)
    requires n < |qs|
    ensures Before(qs, n + 1) == Step(Before(qs, n), OpOf(qs[n]))
  {
    var more := OpsOf(qs[..n + 1]);
    assert more[..n] == OpsOf(qs[..n]) && more[n] == OpOf(qs[n]);
  }

  /** What is known of one edge after a run: it is attested exactly if some applied
      attestation named it, and then with that one's two fields. */
  ghost predicate Known(t: Store, qs: seq<Request>, hits: set<nat>, e: EdgeId) {
    && (forall i :: i in hits ==>
         && i < |qs| && qs[i].AttestRequestAt? && e in t.edges && t.edges[e].supportState == "attested"
         && t.edges[e].attestedBy == Some(qs[i].attest.attestedBy)
         && t.edges[e].attestationRef == Some(qs[i].attest.attestationRef))
    && (e in t.edges && t.edges[e].supportState == "attested" ==> hits != {})
  }

  lemma KnownKept(s: Store, t: Store, qs: seq<Request>, hits: set<nat>, e: EdgeId)
    requires Known(s, qs, hits, e) && SameAttestation(s, t, e)
    ensures Known(t, qs, hits, e)
  {}

  lemma KnownNew(s: Store, t: Store, qs: seq<Request>, n: nat, hits: set<nat>, e: EdgeId)
    requires Known(s, qs, hits, e) && (e in s.edges ==> s.edges[e].supportState != "attested")
    requires n < |qs| && qs[n].AttestRequestAt? && e in t.edges && t.edges[e].supportState == "attested"
    requires t.edges[e].attestedBy == Some(qs[n].attest.attestedBy)
    requires t.edges[e].attestationRef == Some(qs[n].attest.attestationRef)
    ensures Known(t, qs, hits + {n}, e)
  {
    assert hits == {};
  }

  lemma OneStepKnown(s: Store, t: Store, qs: seq<Request>, n: nat, hits: set<nat>, more: set<nat>, e: EdgeId)
    requires Inv(s) && Known(s, qs, hits, e) && n < |qs| && t == Step(s, OpOf(qs[n]))
    requires more == if Hits(s, qs[n], e) then hits + {n} else hits
    ensures Known(t, qs, more, e)
  {
    match qs[n] {
      case ApplyRequest(r, now) =>
        ApplyKeepsAttestation(s, SubmissionOf(r, now), e);
        KnownKept(s, t, qs, hits, e);
      case AttestRequestAt(r, now) =>
        if Hits(s, qs[n], e) {
          AttestMarks(s, r, now, e);
          KnownNew(s, t, qs, n, hits, e);
        } else {
          UnnamedEdgeStays(s, r, now, e);
          KnownKept(s, t, qs, hits, e);
        }
    }
  }

  ghost predicate Next(s: Store, q: Request, t: Store) {
    Inv(s) && t == Step(s, OpOf(q))
  }

  /** The stores a run goes through. */
  ghost predicate Trace(qs: seq<Request>, st: nat -> Store) {
    st(0) == EMPTY && forall i: nat :: i < |qs| ==> Next(st(i), qs[i], st(i + 1))
  }

  ghost function HitsBefore(qs: seq<Request>, st: nat -> Store, n: nat, e: EdgeId): set<nat>
    requires n <= |qs|
  {
    set i: nat | i < n && Hits(st(i), qs[i], e)
  }

  lemma {:induction false} AttestedUpTo(qs: seq<Request>, st: nat -> Store, n: nat, e: EdgeId)
    requires Trace(qs, st) && n <= |qs|
    ensures Known(st(n), qs, HitsBefore(qs, st, n, e), e)
  {
    if n == 0 {
      assert HitsBefore(qs, st, 0, e) == {};
    } else {
      var k := n - 1;
      AttestedUpTo(qs, st, k, e);
      assert Next(st(k), qs[k], st(k + 1));
      HitsMore(qs, st, k, e);
      OneStepKnown(st(k), st(n), qs, k, HitsBefore(qs, st, k, e), HitsBefore(qs, st, n, e), e);
    }
  }

  lemma HitsMore(qs: seq<Request>, st: nat -> Store, n: nat, e: EdgeId)
    requires n < |qs|
    ensures HitsBefore(qs, st, n + 1, e) ==
      if Hits(st(n), qs[n], e) then HitsBefore(qs, st, n, e) + {n} else HitsBefore(qs, st, n, e)
  {}

  ghost function Stores(qs: seq<Request>): nat -> Store {
    (i: nat) => if i <= |qs| then Before(qs, i) else EMPTY
  }

  lemma RunIsTrace(qs: seq<Request>)
    ensures Trace(qs, Stores(qs))
  {
    assert OpsOf(qs[..0]) == [];
    forall i: nat | i < |qs| ensures Next(Stores(qs)(i), qs[i], Stores(qs)(i + 1)) {
      NextStore(qs, i);
      ReachableStatesAreSound(OpsOf(qs[..i]));
    }
  }

  /** The requests that attest the edge. */
  ghost function Attestations(qs: seq<Request>, e: EdgeId): set<nat> {
    set i: nat | i < |qs| && Hits(Before(qs, i), qs[i], e)
  }

  /** Over every run of raw requests an edge is attested exactly if an attestation that
      names it was applied, and its two fields are that attestation's. */
  lemma AttestedExactlyWhen(qs: seq<Request>, e: EdgeId)
    ensures Known(Run(EMPTY, OpsOf(qs)), qs, Attestations(qs, e), e)
  {
    RunIsTrace(qs);
    AttestedUpTo(qs, Stores(qs), |qs|, e);
    assert qs[..|qs|] == qs;
    assert HitsBefore(qs, Stores(qs), |qs|, e) == Attestations(qs, e);
  }

  /** The attestation of an edge is the same in both stores; a new edge has none. */
  ghost predicate SameAttestation(s: Store, t: Store, e: EdgeId) {
    && (e in s.edges ==>
         && e in t.edges && t.edges[e].supportState == s.edges[e].supportState
         && t.edges[e].attestedBy == s.edges[e].attestedBy && t.edges[e].attestationRef == s.edges[e].attestationRef)
    && (e in t.edges && e !in s.edges ==> t.edges[e].supportState != "attested")
  }

  lemma AcceptKeepsAttestation(s: Store, p: Plan, agent: string, now: int, e: EdgeId)
    requires Inv(s) && ProperPlan(p) && p.manifest !in s.manifests
    ensures SameAttestation(s, Accept(s, p, agent, now), e)
  {
    AcceptedEdge(s, p, agent, now, e);
    if e in Accept(s, p, agent, now).edges && e.manifest == p.manifest {
      var t := Accept(s, p, agent, now);
      var i :| 0 <= i < |p.edges| && p.edges[i].id == e && t.edges[e] == NewEdge(p.edges[i], now);
      assert ProperEdge(p, p.edges[i]);
    }
  }

  /** A manifest request neither gives nor takes an attestation. */
  lemma ApplyKeepsAttestation(s: Store, c: Submission, e: EdgeId)
    requires Inv(s) && Checked(c)
    ensures SameAttestation(s, Apply(s, c).1, e)
  {
    AppliedOrUnchanged(s, c);
    if Apply(s, c).1 != s { AcceptKeepsAttestation(s, c.plan, c.agent, c.now, e); }
  }

  lemma AppliedOrUnchanged(s: Store, c: Submission)
    ensures Apply(s, c).1 != s ==>
      c.valid && c.plan.manifest !in s.manifests && Apply(s, c).1 == Accept(s, c.plan, c.agent, c.now)
  {}

  /** An edge that is attested was open before. */
  lemma AttestMarks(s: Store, r: AttestRequest, now: int, e: EdgeId)
    requires Inv(s) && e in r.edgeIds && Attest(s, ValidAttest(r), r, now).0 == Ok(Applied)
    ensures e in s.edges && s.edges[e].supportState != "attested"
    ensures var t := Attest(s, ValidAttest(r), r, now).1;
      && e in t.edges && t.edges[e].supportState == "attested" && t.edges[e].attestedBy == Some(r.attestedBy)
      && t.edges[e].attestationRef == Some(r.attestationRef)
  {
    AttestWrites(s, r, now);
    AttestAppliedExactlyWhen(s, r, now);
    var k :| 0 <= k < |r.edgeIds| && r.edgeIds[k] == e;
    assert Open(s, r, r.edgeIds[k]);
  }

  lemma UnnamedEdgeStays(s: Store, r: AttestRequest, now: int, e: EdgeId)
    requires e !in r.edgeIds || Attest(s, ValidAttest(r), r, now).0 != Ok(Applied)
    ensures SameAttestation(s, Attest(s, ValidAttest(r), r, now).1, e)
  {}
}
