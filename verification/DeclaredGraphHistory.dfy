/** What holds in every state the declared-graph operations can reach, and
    across every run (src/declared_graph.rs). */
module DeclaredGraphHistory {
  import opened DeclaredGraph
  import opened DeclaredGraphStore

  // ----------------------------------------------------------------- invariant

  predicate Mirrors(e: EdgeState, m: ManifestState) {
    match e
    case EdgeActive => m == ManifestActive
    case EdgeSuperseded => m == ManifestSuperseded
    case EdgeTombstoned => m == ManifestTombstoned
  }

  predicate IsActive(s: Store, m: ManifestId) {
    m in s.manifests && s.manifests[m].state == ManifestActive
  }

  /** At most one manifest is active per workspace and source key. */
  ghost predicate OneActive(s: Store) {
    forall m, n :: IsActive(s, m) && IsActive(s, n) && m.workspace == n.workspace && m.sourceKey == n.sourceKey ==>
      m == n
  }

  /** An edge belongs to a manifest and always mirrors its state; in particular
      it is active exactly when its manifest is. */
  ghost predicate EdgesMirror(s: Store) {
    forall e :: e in s.edges ==> e.manifest in s.manifests && Mirrors(s.edges[e].state, s.manifests[e.manifest].state)
  }

  /** Endpoints are nodes of the edge's own workspace. */
  ghost predicate EndpointsExist(s: Store) {
    forall e :: e in s.edges ==>
      && e.from in s.nodes && e.to in s.nodes
      && e.from.workspace == e.manifest.workspace && e.to.workspace == e.manifest.workspace
  }

  predicate AttestationShape(row: EdgeRow) {
    if row.supportState == "attested" then row.attestedBy.Some? && row.attestationRef.Some?
    else row.supportState in {"sourced", "supported"} && row.attestedBy.None? && row.attestationRef.None?
  }

  /** Attestation data is present exactly on attested edges. */
  ghost predicate AttestationsShaped(s: Store) {
    forall e :: e in s.edges ==> AttestationShape(s.edges[e])
  }

  ghost predicate Rooted(s: Store) {
    && (forall v :: v in s.events ==> v.manifest in s.manifests)
    && (forall m :: m in s.manifests ==> ManifestOf(s.manifests[m].digest) == m)
  }

  ghost predicate Inv(s: Store) {
    OneActive(s) && EdgesMirror(s) && EndpointsExist(s) && AttestationsShaped(s) && Rooted(s)
  }

  // --------------------------------------------------- rows added by a request

  lemma {:induction false} InsertNodesGrows(nodes: map<NodeId, NodeRow>, p: Plan, k: nat, now: int)
    requires k <= |p.nodes|
    ensures forall n :: n in nodes ==>
      n in InsertNodes(nodes, p, k, now) && InsertNodes(nodes, p, k, now)[n] == nodes[n]
    ensures forall i :: 0 <= i < k ==> p.nodes[i].id in InsertNodes(nodes, p, k, now)
  {
    if k > 0 { InsertNodesGrows(nodes, p, k - 1, now); }
  }

  /** A row of the edge table is either an old row or one of the planned ones. */
  lemma {:induction false} InsertEdgesFrom(edges: map<EdgeId, EdgeRow>, p: Plan, k: nat, now: int, e: EdgeId)
    requires k <= |p.edges|
    ensures e in edges ==> e in InsertEdges(edges, p, k, now)
    ensures e in InsertEdges(edges, p, k, now) ==>
      (exists i :: 0 <= i < k && p.edges[i].id == e && InsertEdges(edges, p, k, now)[e] == NewEdge(p.edges[i], now))
      || (e in edges && InsertEdges(edges, p, k, now)[e] == edges[e])
  {
    if k > 0 { InsertEdgesFrom(edges, p, k - 1, now, e); }
  }

  /** The edges of a store after Accept: planned edges of the new manifest, and
      the retired old ones. */
  lemma AcceptedEdge(s: Store, p: Plan, agent: string, now: int, e: EdgeId)
    requires Inv(s) && ProperPlan(p) && p.manifest !in s.manifests
    ensures e in s.edges ==> e in Accept(s, p, agent, now).edges
    ensures e in Accept(s, p, agent, now).edges ==>
      if e.manifest == p.manifest then
        exists i :: 0 <= i < |p.edges| && p.edges[i].id == e &&
          Accept(s, p, agent, now).edges[e] == NewEdge(p.edges[i], now)
      else e in s.edges && Accept(s, p, agent, now).edges[e] == RetireEdges(s, p, now)[e]
  {
    InsertEdgesFrom(RetireEdges(s, p, now), p, |p.edges|, now, e);
  }

  // --------------------------------------------------------------- preservation

  /** What the invariant says about one edge. */
  ghost predicate EdgeSound(t: Store, e: EdgeId)
    requires e in t.edges
  {
    && e.manifest in t.manifests && Mirrors(t.edges[e].state, t.manifests[e.manifest].state)
    && e.from in t.nodes && e.to in t.nodes
    && e.from.workspace == e.manifest.workspace && e.to.workspace == e.manifest.workspace
    && AttestationShape(t.edges[e])
  }

  lemma AcceptKeepsEdge(s: Store, p: Plan, agent: string, now: int, e: EdgeId)
    requires Inv(s) && ProperPlan(p) && p.manifest !in s.manifests && e in Accept(s, p, agent, now).edges
    ensures EdgeSound(Accept(s, p, agent, now), e)
  {
    AcceptedEdge(s, p, agent, now, e);
    if e.manifest == p.manifest {
      var i :| 0 <= i < |p.edges| && p.edges[i].id == e;
      NewEdgeIsSound(s, p, agent, now, i);
    } else {
      OldEdgeIsSound(s, p, agent, now, e);
    }
  }

  lemma NewEdgeIsSound(s: Store, p: Plan, agent: string, now: int, i: nat)
    requires ProperPlan(p) && i < |p.edges| && p.edges[i].id in Accept(s, p, agent, now).edges
    requires Accept(s, p, agent, now).edges[p.edges[i].id].state == EdgeActive
    requires AttestationShape(Accept(s, p, agent, now).edges[p.edges[i].id])
    ensures EdgeSound(Accept(s, p, agent, now), p.edges[i].id)
  {
    InsertNodesGrows(s.nodes, p, |p.nodes|, now);
    assert ProperEdge(p, p.edges[i]);
  }

  lemma OldEdgeIsSound(s: Store, p: Plan, agent: string, now: int, e: EdgeId)
    requires EdgesMirror(s) && EndpointsExist(s) && AttestationsShaped(s) && e in s.edges && e.manifest != p.manifest
    requires e in Accept(s, p, agent, now).edges && Accept(s, p, agent, now).edges[e] == RetireEdges(s, p, now)[e]
    ensures EdgeSound(Accept(s, p, agent, now), e)
  {
    InsertNodesGrows(s.nodes, p, |p.nodes|, now);
    assert e.manifest in s.manifests && Mirrors(s.edges[e].state, s.manifests[e.manifest].state);
  }

  /** Of the old manifests, those that stay active are not the ones retired. */
  lemma StillActive(s: Store, p: Plan, agent: string, now: int, m: ManifestId)
    requires IsActive(Accept(s, p, agent, now), m) && m != p.manifest
    ensures IsActive(s, m) && !(m.workspace == p.manifest.workspace && m.sourceKey == p.manifest.sourceKey)
  {
    assert m in RetireManifests(s, p, now);
  }

  lemma AcceptKeepsOneActive(s: Store, p: Plan, agent: string, now: int)
    requires OneActive(s)
    ensures OneActive(Accept(s, p, agent, now))
  {
    var t := Accept(s, p, agent, now);
    forall m, n | IsActive(t, m) && IsActive(t, n) && m.workspace == n.workspace && m.sourceKey == n.sourceKey
      ensures m == n
    {
      if m != p.manifest { StillActive(s, p, agent, now, m); }
      if n != p.manifest { StillActive(s, p, agent, now, n); }
    }
  }

  lemma AcceptKeepsRooted(s: Store, p: Plan, agent: string, now: int)
    requires Rooted(s) && ManifestOf(p.digest) == p.manifest
    ensures Rooted(Accept(s, p, agent, now))
  {
    var t := Accept(s, p, agent, now);
    forall m | m in t.manifests ensures ManifestOf(t.manifests[m].digest) == m {
      assert m != p.manifest ==> m in s.manifests && t.manifests[m].digest == s.manifests[m].digest;
    }
  }

  lemma ApplyKeepsInv(s: Store, c: Submission)
    requires Inv(s) && Checked(c)
    ensures Inv(Apply(s, c).1)
  {
    if Apply(s, c).0 == Ok(Applied) {
      var t := Accept(s, c.plan, c.agent, c.now);
      AcceptKeepsOneActive(s, c.plan, c.agent, c.now);
      AcceptKeepsRooted(s, c.plan, c.agent, c.now);
      forall e | e in t.edges ensures EdgeSound(t, e) {
        AcceptKeepsEdge(s, c.plan, c.agent, c.now, e);
      }
    }
  }

  lemma AttestKeepsInv(s: Store, valid: bool, r: AttestRequest, now: int)
    requires Inv(s)
    ensures Inv(Attest(s, valid, r, now).1)
  {
    if Attest(s, valid, r, now).0 == Ok(Applied) { MarkingKeepsInv(s, r, now); }
  }

  function Marked(s: Store, r: AttestRequest, now: int): Store {
    s.(edges := AttestEdges(s, r, now),
       events := s.events[AttestEvent(AttestedManifest(r), r) := EventRow(ManifestActive, r.agent, now)])
  }

  lemma MarkingKeepsInv(s: Store, r: AttestRequest, now: int)
    requires Inv(s) && IsActive(s, AttestedManifest(r))
    ensures Inv(Marked(s, r, now))
  {
    var t := Marked(s, r, now);
    forall m | IsActive(t, m) ensures IsActive(s, m) {}
    forall e | e in t.edges ensures EdgeSound(t, e) { MarkedEdgeIsSound(s, r, now, e); }
  }

  lemma MarkedEdgeIsSound(s: Store, r: AttestRequest, now: int, e: EdgeId)
    requires Inv(s) && e in s.edges
    ensures e in Marked(s, r, now).edges && EdgeSound(Marked(s, r, now), e)
  {
    assert EdgeSound(s, e);
  }

  // -------------------------------------------------------------------- history

  /** A manifest row keeps its content; its state only moves out of active. */
  predicate ManifestLater(a: ManifestRow, b: ManifestRow) {
    && b.digest == a.digest && b.nodeIds == a.nodeIds && b.recordedAt == a.recordedAt &&
      b.tombstonedAt == a.tombstonedAt
    && if a.state == ManifestActive then b.state != ManifestDeleted else b == a
  }

  /** An edge row keeps its content; once inactive it is frozen, and an
      attestation once given is never changed. */
  predicate EdgeLater(a: EdgeRow, b: EdgeRow) {
    && b.context == a.context && b.spanRef == a.spanRef && b.recordedAt == a.recordedAt
    && b.validFrom == a.validFrom && b.validTo == a.validTo
    && (a.state != EdgeActive ==> b == a)
    && (a.supportState == "attested" ==>
          b.supportState == "attested" && b.attestedBy == a.attestedBy && b.attestationRef == a.attestationRef)
    && (b.supportState == a.supportState || b.supportState == "attested")
  }

  /** No row disappears; nodes and events never change. */
  ghost predicate Later(s: Store, t: Store) {
    && (forall n :: n in s.nodes ==> n in t.nodes && t.nodes[n] == s.nodes[n])
    && (forall v :: v in s.events ==> v in t.events && t.events[v] == s.events[v])
    && (forall m :: m in s.manifests ==> m in t.manifests && ManifestLater(s.manifests[m], t.manifests[m]))
    && (forall e :: e in s.edges ==> e in t.edges && EdgeLater(s.edges[e], t.edges[e]))
  }

  lemma LaterTransitive(s: Store, t: Store, u: Store)
    requires Later(s, t) && Later(t, u)
    ensures Later(s, u)
  {
    forall m | m in s.manifests ensures m in u.manifests && ManifestLater(s.manifests[m], u.manifests[m]) {
      assert ManifestLater(s.manifests[m], t.manifests[m]) && ManifestLater(t.manifests[m], u.manifests[m]);
    }
    forall e | e in s.edges ensures e in u.edges && EdgeLater(s.edges[e], u.edges[e]) {
      assert EdgeLater(s.edges[e], t.edges[e]) && EdgeLater(t.edges[e], u.edges[e]);
    }
  }

  lemma AcceptedEdgeLater(s: Store, p: Plan, agent: string, now: int, e: EdgeId)
    requires Inv(s) && ProperPlan(p) && p.manifest !in s.manifests && e in s.edges
    ensures e in Accept(s, p, agent, now).edges && EdgeLater(s.edges[e], Accept(s, p, agent, now).edges[e])
  {
    AcceptedEdge(s, p, agent, now, e);
  }

  lemma AcceptedManifestLater(s: Store, p: Plan, agent: string, now: int, m: ManifestId)
    requires p.manifest !in s.manifests && m in s.manifests
    ensures m in Accept(s, p, agent, now).manifests &&
      ManifestLater(s.manifests[m], Accept(s, p, agent, now).manifests[m])
  {}

  lemma AcceptIsLater(s: Store, p: Plan, agent: string, now: int)
    requires Inv(s) && ProperPlan(p) && p.manifest !in s.manifests
    ensures Later(s, Accept(s, p, agent, now))
  {
    var t := Accept(s, p, agent, now);
    InsertNodesGrows(s.nodes, p, |p.nodes|, now);
    forall e | e in s.edges ensures e in t.edges && EdgeLater(s.edges[e], t.edges[e]) {
      AcceptedEdgeLater(s, p, agent, now, e);
    }
    forall m | m in s.manifests ensures m in t.manifests && ManifestLater(s.manifests[m], t.manifests[m]) {
      AcceptedManifestLater(s, p, agent, now, m);
    }
    assert ManifestEvent(p.manifest, p.operation, p.digest) !in s.events;
  }

  lemma ApplyIsLater(s: Store, c: Submission)
    requires Inv(s) && Checked(c)
    ensures Later(s, Apply(s, c).1)
  {
    if Apply(s, c).0 == Ok(Applied) {
      AcceptIsLater(s, c.plan, c.agent, c.now);
    } else {
      LaterReflexive(s);
    }
  }

  lemma LaterReflexive(s: Store)
    ensures Later(s, s)
  {
    forall e | e in s.edges ensures EdgeLater(s.edges[e], s.edges[e]) {}
    forall m | m in s.manifests ensures ManifestLater(s.manifests[m], s.manifests[m]) {}
  }

  lemma AttestedEdgeLater(s: Store, r: AttestRequest, now: int, e: EdgeId)
    requires e in s.edges && forall i :: 0 <= i < |r.edgeIds| ==> Attestable(s, r, r.edgeIds[i])
    ensures EdgeLater(s.edges[e], AttestEdges(s, r, now)[e])
  {
    if e in r.edgeIds {
      var i :| 0 <= i < |r.edgeIds| && r.edgeIds[i] == e;
      assert Attestable(s, r, r.edgeIds[i]);
    }
  }

  lemma AttestIsLater(s: Store, valid: bool, r: AttestRequest, now: int)
    requires Inv(s)
    ensures Later(s, Attest(s, valid, r, now).1)
  {
    var t := Attest(s, valid, r, now).1;
    LaterReflexive(s);
    if Attest(s, valid, r, now).0 == Ok(Applied) {
      assert forall i :: 0 <= i < |r.edgeIds| ==> Attestable(s, r, r.edgeIds[i]);
      forall e | e in s.edges ensures e in t.edges && EdgeLater(s.edges[e], t.edges[e]) {
        AttestedEdgeLater(s, r, now, e);
      }
    }
  }

  // ----------------------------------------------------------------------- runs

  datatype Op = ApplyOp(submission: Submission) | AttestOp(valid: bool, attest: AttestRequest, now: int)

  function Step(s: Store, op: Op): Store {
    match op
    case ApplyOp(c) => Apply(s, c).1
    case AttestOp(valid, r, now) => Attest(s, valid, r, now).1
  }

  function Run(s: Store, ops: seq<Op>): Store {
    if ops == [] then s else Step(Run(s, ops[..|ops| - 1]), ops[|ops| - 1])
  }

  ghost predicate AllChecked(ops: seq<Op>) {
    forall i :: 0 <= i < |ops| && ops[i].ApplyOp? ==> Checked(ops[i].submission)
  }

  /** Along every run the invariant is kept and history only grows. */
  lemma {:induction false} RunKeepsHistory(s: Store, ops: seq<Op>)
    requires Inv(s) && AllChecked(ops)
    ensures Inv(Run(s, ops)) && Later(s, Run(s, ops))
  {
    if ops != [] {
      var t, op := Run(s, ops[..|ops| - 1]), ops[|ops| - 1];
      RunKeepsHistory(s, ops[..|ops| - 1]);
      match op {
        case ApplyOp(c) => ApplyKeepsInv(t, c); ApplyIsLater(t, c);
        case AttestOp(valid, r, now) => AttestKeepsInv(t, valid, r, now); AttestIsLater(t, valid, r, now);
      }
      LaterTransitive(s, t, Step(t, op));
    }
  }

  /** Every state reachable from the empty store satisfies the invariant. */
  lemma ReachableStatesAreSound(ops: seq<Op>)
    requires AllChecked(ops)
    ensures Inv(Run(EMPTY, ops))
  {
    RunKeepsHistory(EMPTY, ops);
  }

  // --------------------------------------------------------------------- replay

  lemma Retained(s: Store, c: Submission, ops: seq<Op>)
    requires Inv(s) && Checked(c) && AllChecked(ops) && Apply(s, c).0.Ok?
    ensures var t := Run(Apply(s, c).1, ops);
      c.plan.manifest in t.manifests && t.manifests[c.plan.manifest].digest == c.plan.digest
  {
    ApplyKeepsInv(s, c);
    ApplyStores(s, c);
    StaysStored(Apply(s, c).1, c.plan.manifest, ops);
  }

  lemma ApplyStores(s: Store, c: Submission)
    requires Apply(s, c).0.Ok?
    ensures var t := Apply(s, c).1;
      c.plan.manifest in t.manifests && t.manifests[c.plan.manifest].digest == c.plan.digest
  {}

  lemma StaysStored(s: Store, m: ManifestId, ops: seq<Op>)
    requires Inv(s) && AllChecked(ops) && m in s.manifests
    ensures m in Run(s, ops).manifests && Run(s, ops).manifests[m].digest == s.manifests[m].digest
  {
    RunKeepsHistory(s, ops);
    assert ManifestLater(s.manifests[m], Run(s, ops).manifests[m]);
  }

  /** Once accepted, a request is retained: in every later state, even after its
      revision was superseded or tombstoned, applying it again, by anyone and at
      any time, changes nothing. It is reported idempotent inside its window and
      refused outside it. */
  lemma ReplayChangesNothing(s: Store, c: Submission, ops: seq<Op>, again: Submission)
    requires Inv(s) && Checked(c) && AllChecked(ops) && Apply(s, c).0.Ok? && again.plan == c.plan
    ensures var t := Run(Apply(s, c).1, ops);
      && Apply(t, again).1 == t
      && (Apply(t, again).0 == Ok(Idempotent) <==> again.valid && again.inWindow)
  {
    Retained(s, c, ops);
  }

  /** A different request for a retained revision always fails without effect. */
  lemma ConflictingRevisionFails(s: Store, c: Submission, ops: seq<Op>, other: Submission)
    requires Inv(s) && Checked(c) && AllChecked(ops) && Apply(s, c).0.Ok?
    requires other.plan.manifest == c.plan.manifest && other.plan.digest != c.plan.digest
    ensures var t := Run(Apply(s, c).1, ops); Apply(t, other).0.Err? && Apply(t, other).1 == t
  {
    Retained(s, c, ops);
  }

  /** Replaying an attestation changes nothing in any later state; it is
      idempotent exactly while its manifest stays active. */
  lemma AttestReplayChangesNothing(s: Store, r: AttestRequest, now: int, ops: seq<Op>, later: int)
    requires Inv(s) && AllChecked(ops) && Attest(s, true, r, now).0.Ok?
    ensures var t := Run(Attest(s, true, r, now).1, ops);
      && Attest(t, true, r, later).1 == t
      && (Attest(t, true, r, later).0 == Ok(Idempotent) <==> IsActive(t, AttestedManifest(r)))
  {
    var s1 := Attest(s, true, r, now).1;
    AttestKeepsInv(s, true, r, now);
    RunKeepsHistory(s1, ops);
    assert AttestEvent(AttestedManifest(r), r) in s1.events;
  }

  /** An attested edge keeps its attestation along every run, and no attestation
      that names it is ever applied again: it is attested at most once. */
  lemma AttestedAtMostOnce(s: Store, e: EdgeId, ops: seq<Op>, valid: bool, r: AttestRequest, now: int)
    requires Inv(s) && AllChecked(ops) && e in s.edges && s.edges[e].supportState == "attested" && e in r.edgeIds
    ensures var t := Run(s, ops);
      && e in t.edges && t.edges[e].attestedBy == s.edges[e].attestedBy &&
        t.edges[e].attestationRef == s.edges[e].attestationRef
      && Attest(t, valid, r, now).0 != Ok(Applied)
  {
    RunKeepsHistory(s, ops);
    var t := Run(s, ops);
    assert EdgeLater(s.edges[e], t.edges[e]);
    var i :| 0 <= i < |r.edgeIds| && r.edgeIds[i] == e;
    AttestNeedsAll(t, valid, r, now, i);
  }

  lemma AttestNeedsAll(s: Store, valid: bool, r: AttestRequest, now: int, i: nat)
    requires i < |r.edgeIds| && !Attestable(s, r, r.edgeIds[i])
    ensures Attest(s, valid, r, now).0 != Ok(Applied)
  {}

  /** Node identities are settled by their first declaration: along every run a
      new revision that disagrees on type or external reference is refused. */
  lemma NodeIdentityIsSettled(s: Store, ops: seq<Op>, c: Submission, i: nat)
    requires Inv(s) && AllChecked(ops) && i < |c.plan.nodes| && c.plan.nodes[i].id in s.nodes
    requires !Compatible(s.nodes[c.plan.nodes[i].id], c.plan.nodes[i])
    ensures var t := Run(s, ops); Apply(t, c).1 == t && Apply(t, c).0 != Ok(Applied)
  {
    RunKeepsHistory(s, ops);
  }

  // ---------------------------------------------------------------------- query

  /** The edges a query without history returns for one source key. */
  predicate Current(s: Store, workspace: string, sourceKey: string, e: EdgeId) {
    && e in s.edges && e.manifest.workspace == workspace && e.manifest.sourceKey == sourceKey
    && IsActive(s, e.manifest) && s.edges[e].state == EdgeActive
  }

  /** A query without history shows one revision of a source, whole: all edges of
      the active manifest and nothing else. */
  lemma QueryShowsOneRevision(s: Store, workspace: string, sourceKey: string, e: EdgeId, f: EdgeId)
    requires Inv(s) && Current(s, workspace, sourceKey, e) && f in s.edges
    ensures Current(s, workspace, sourceKey, f) <==> f.manifest == e.manifest
  {
    assert Mirrors(s.edges[f].state, s.manifests[f.manifest].state);
  }

  /** After an accepted upsert the current edges of its source are exactly its
      own; after a delete there are none. */
  lemma AppliedRevisionIsCurrent(s: Store, c: Submission, e: EdgeId)
    requires Inv(s) && Checked(c) && Apply(s, c).0 == Ok(Applied)
    ensures var p := c.plan; Current(Apply(s, c).1, p.manifest.workspace, p.manifest.sourceKey, e) <==>
      exists i :: 0 <= i < |p.edges| && p.edges[i].id == e
  {
    var p, t := c.plan, Apply(s, c).1;
    AcceptedEdge(s, p, c.agent, c.now, e);
    ApplyKeepsInv(s, c);
    if i :| 0 <= i < |p.edges| && p.edges[i].id == e {
      PlannedEdgeInserted(RetireEdges(s, p, c.now), p, |p.edges|, c.now, i);
      assert ProperEdge(p, p.edges[i]);
    }
  }

  lemma {:induction false} PlannedEdgeInserted(edges: map<EdgeId, EdgeRow>, p: Plan, k: nat, now: int, i: nat)
    requires i < k <= |p.edges|
    ensures p.edges[i].id in InsertEdges(edges, p, k, now)
  {
    if i < k - 1 { PlannedEdgeInserted(edges, p, k - 1, now, i); }
  }
}
