/** The declared-graph tables and the three operations that change them: upsert,
    delete and attest (src/declared_graph.rs, `apply_declared_graph_manifest`
    and `attest_declared_graph`). A step that fails is rolled back.

    A request reaches the tables as a `Submission`: the verdicts of validation and
    of the validity window, and a plan in which node references are resolved to row
    ids. `Apply` and `Attest` specify each operation on the whole store. */
module DeclaredGraphStore {
  import opened Options
  import opened DeclaredGraph

  // -------------------------------------------------------------------- tables

  datatype ManifestState = ManifestActive | ManifestSuperseded | ManifestTombstoned | ManifestDeleted
  datatype EdgeState = EdgeActive | EdgeSuperseded | EdgeTombstoned

  datatype NodeRow = NodeRow(nodeType: string, externalRef: Option<string>, createdAt: int)

  /** The digest of a manifest request is its body. */
  datatype ManifestRow = ManifestRow(state: ManifestState, digest: ManifestBody, nodeIds: seq<NodeId>,
                                     recordedAt: int, updatedAt: int, tombstonedAt: Option<int>)

  datatype EdgeRow = EdgeRow(context: Option<string>, spanRef: Option<string>, supportState: string,
                             attestedBy: Option<string>, attestationRef: Option<string>,
                             validFrom: Option<int>, validTo: Option<int>,
                             state: EdgeState, recordedAt: int, updatedAt: int)

  datatype EventId =
    | ManifestEvent(manifest: ManifestId, operation: string, digest: ManifestBody)
    | AttestEvent(manifest: ManifestId, request: AttestRequest)

  datatype EventRow = EventRow(stateAfter: ManifestState, actor: string, recordedAt: int)

  datatype Store = Store(nodes: map<NodeId, NodeRow>, manifests: map<ManifestId, ManifestRow>,
                         edges: map<EdgeId, EdgeRow>, events: map<EventId, EventRow>)

  const EMPTY := Store(map[], map[], map[], map[])

  datatype Outcome = Applied | Idempotent
  datatype Result = Ok(outcome: Outcome) | Err(error: Error)
  datatype Error = InvalidRequest | OutsideWindow | RevisionConflict | NodeCollision | NoActiveManifest | NotAttestable

  // --------------------------------------------------------------------- plans

  datatype PlannedNode = PlannedNode(id: NodeId, nodeType: string, externalRef: Option<string>)

  datatype PlannedEdge = PlannedEdge(id: EdgeId, context: Option<string>, spanRef: Option<string>, supportState: string,
                                     validFrom: Option<int>, validTo: Option<int>)

  datatype Plan = Plan(manifest: ManifestId, operation: string, digest: ManifestBody,
                       nodes: seq<PlannedNode>, edges: seq<PlannedEdge>)
  {
    predicate Deletes() { operation == "delete" }
  }

  ghost predicate Declares(p: Plan, n: NodeId) {
    exists i :: 0 <= i < |p.nodes| && p.nodes[i].id == n
  }

  ghost predicate ProperEdge(p: Plan, e: PlannedEdge) {
    && e.id.manifest == p.manifest
    && e.id.from.workspace == p.manifest.workspace && e.id.to.workspace == p.manifest.workspace
    && Declares(p, e.id.from) && Declares(p, e.id.to)
    && (e.supportState == "sourced" || e.supportState == "supported")
  }

  /** What validation guarantees about a plan. */
  ghost predicate ProperPlan(p: Plan) {
    && ManifestOf(p.digest) == p.manifest && p.digest.operation == p.operation
    && (p.Deletes() ==> p.nodes == [] && p.edges == [])
    && (forall i :: 0 <= i < |p.edges| ==> ProperEdge(p, p.edges[i]))
    && (forall i, j :: 0 <= i < j < |p.nodes| ==> p.nodes[i].id != p.nodes[j].id)
    && (forall i, j :: 0 <= i < j < |p.edges| ==> p.edges[i].id != p.edges[j].id)
  }

  datatype Submission = Submission(valid: bool, inWindow: bool, plan: Plan, agent: string, now: int)

  ghost predicate Checked(c: Submission) {
    c.valid ==> ProperPlan(c.plan)
  }

  // -------------------------------------------------------- upsert and delete

  predicate Compatible(row: NodeRow, n: PlannedNode) {
    row.nodeType == n.nodeType && row.externalRef == n.externalRef
  }

  predicate NoCollision(s: Store, p: Plan) {
    forall i :: 0 <= i < |p.nodes| && p.nodes[i].id in s.nodes ==> Compatible(s.nodes[p.nodes[i].id], p.nodes[i])
  }

  /** The manifest revision that the plan replaces. */
  predicate Retires(s: Store, p: Plan, m: ManifestId) {
    && m in s.manifests && s.manifests[m].state == ManifestActive
    && m.workspace == p.manifest.workspace && m.sourceKey == p.manifest.sourceKey
  }

  function RetiredManifest(p: Plan): ManifestState {
    if p.Deletes() then ManifestTombstoned else ManifestSuperseded
  }

  function RetiredEdge(p: Plan): EdgeState {
    if p.Deletes() then EdgeTombstoned else EdgeSuperseded
  }

  function RetireManifests(s: Store, p: Plan, now: int): map<ManifestId, ManifestRow> {
    map m | m in s.manifests ::
      if Retires(s, p, m) then s.manifests[m].(state := RetiredManifest(p), updatedAt := now) else s.manifests[m]
  }

  function RetireEdges(s: Store, p: Plan, now: int): map<EdgeId, EdgeRow> {
    map e | e in s.edges ::
      if Retires(s, p, e.manifest) && s.edges[e].state == EdgeActive
      then s.edges[e].(state := RetiredEdge(p), updatedAt := now) else s.edges[e]
  }

  function InsertNode(nodes: map<NodeId, NodeRow>, n: PlannedNode, now: int): map<NodeId, NodeRow> {
    if n.id in nodes then nodes else nodes[n.id := NodeRow(n.nodeType, n.externalRef, now)]
  }

  /** The node table after the first k planned nodes. */
  function InsertNodes(nodes: map<NodeId, NodeRow>, p: Plan, k: nat, now: int): map<NodeId, NodeRow>
    requires k <= |p.nodes|
  {
    if k == 0 then nodes else InsertNode(InsertNodes(nodes, p, k - 1, now), p.nodes[k - 1], now)
  }

  function NewEdge(e: PlannedEdge, now: int): EdgeRow {
    EdgeRow(e.context, e.spanRef, e.supportState, None, None, e.validFrom, e.validTo, EdgeActive, now, now)
  }

  /** The edge table after the first k planned edges. */
  function InsertEdges(edges: map<EdgeId, EdgeRow>, p: Plan, k: nat, now: int): map<EdgeId, EdgeRow>
    requires k <= |p.edges|
  {
    if k == 0 then edges else InsertEdges(edges, p, k - 1, now)[p.edges[k - 1].id := NewEdge(p.edges[k - 1], now)]
  }

  function NewManifest(p: Plan, now: int): ManifestRow {
    ManifestRow(if p.Deletes() then ManifestDeleted else ManifestActive, p.digest,
                seq(|p.nodes|, i requires 0 <= i < |p.nodes| => p.nodes[i].id),
                now, now, if p.Deletes() then Some(now) else None)
  }

  /** The store after a new revision has been accepted. */
  function Accept(s: Store, p: Plan, agent: string, now: int): Store {
    Store(InsertNodes(s.nodes, p, |p.nodes|, now),
          RetireManifests(s, p, now)[p.manifest := NewManifest(p, now)],
          InsertEdges(RetireEdges(s, p, now), p, |p.edges|, now),
          s.events[ManifestEvent(p.manifest, p.operation, p.digest) := EventRow(NewManifest(p, now).state, agent, now)])
  }

  /** Upsert or delete. The window check comes before the replay lookup, so a
      replay outside its window is an error, not idempotent. */
  function Apply(s: Store, c: Submission): (Result, Store) {
    var p := c.plan;
    if !c.valid then (Err(InvalidRequest), s)
    else if !c.inWindow then (Err(OutsideWindow), s)
    else if p.manifest in s.manifests then
      if s.manifests[p.manifest].digest != p.digest then (Err(RevisionConflict), s) else (Ok(Idempotent), s)
    else if !NoCollision(s, p) then (Err(NodeCollision), s)
    else (Ok(Applied), Accept(s, p, c.agent, c.now))
  }

  // -------------------------------------------------------------------- attest

  function AttestedManifest(r: AttestRequest): ManifestId {
    ManifestId(r.workspace, r.sourceKey, r.revision)
  }

  predicate Attestable(s: Store, r: AttestRequest, e: EdgeId) {
    && e in s.edges && e.manifest == AttestedManifest(r) && s.edges[e].state == EdgeActive
    && (s.edges[e].supportState == "sourced" || s.edges[e].supportState == "supported")
  }

  function AttestRow(row: EdgeRow, r: AttestRequest, now: int): EdgeRow {
    row.(supportState := "attested", attestedBy := Some(r.attestedBy), attestationRef := Some(r.attestationRef),
         updatedAt := now)
  }

  function AttestEdges(s: Store, r: AttestRequest, now: int): map<EdgeId, EdgeRow> {
    map e | e in s.edges :: if e in r.edgeIds then AttestRow(s.edges[e], r, now) else s.edges[e]
  }

  /** Attest at time `now`; `valid` is the verdict of request validation. */
  function Attest(s: Store, valid: bool, r: AttestRequest, now: int): (Result, Store) {
    var m := AttestedManifest(r);
    if !valid then (Err(InvalidRequest), s)
    else if m !in s.manifests || s.manifests[m].state != ManifestActive then (Err(NoActiveManifest), s)
    else if AttestEvent(m, r) in s.events then (Ok(Idempotent), s)
    else if exists i :: 0 <= i < |r.edgeIds| && !Attestable(s, r, r.edgeIds[i]) then (Err(NotAttestable), s)
    else (Ok(Applied), s.(edges := AttestEdges(s, r, now),
                          events := s.events[AttestEvent(m, r) := EventRow(s.manifests[m].state, r.agent, now)]))
  }
}
