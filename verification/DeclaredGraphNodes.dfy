/** Node identities over whole runs of raw requests (src/declared_graph.rs): every
    retained manifest's nodes are in the table with the type and reference it gave. */
module DeclaredGraphNodes {
  import opened DeclaredGraph
  import opened DeclaredGraphStore
  import opened DeclaredGraphHistory
  import opened DeclaredGraphDatabase

  /** The node table agrees with one node of a request. */
  predicate Agrees(nodes: map<NodeId, NodeRow>, b: ManifestBody, n: NodeInput) {
    NodeOf(b, n) in nodes && Compatible(nodes[NodeOf(b, n)], PlanNode(b, n))
  }

  ghost predicate BodyRecorded(nodes: map<NodeId, NodeRow>, b: ManifestBody) {
    forall i :: 0 <= i < |b.nodes| ==> Agrees(nodes, b, b.nodes[i])
  }

  ghost predicate Recorded(s: Store) {
    forall m :: m in s.manifests ==> BodyRecorded(s.nodes, s.manifests[m].digest)
  }

  lemma {:induction false} InsertedRow(nodes: map<NodeId, NodeRow>, p: Plan, k: nat, now: int, i: nat)
    requires i < k <= |p.nodes| && forall x, y :: 0 <= x < y < |p.nodes| ==> p.nodes[x].id != p.nodes[y].id
    ensures p.nodes[i].id in InsertNodes(nodes, p, k, now)
    ensures var row := InsertNodes(nodes, p, k, now)[p.nodes[i].id];
      if p.nodes[i].id in nodes then row == nodes[p.nodes[i].id] else Compatible(row, p.nodes[i])
  {
    var before := InsertNodes(nodes, p, k - 1, now);
    InsertNodesGrows(nodes, p, k - 1, now);
    if i < k - 1 {
      InsertedRow(nodes, p, k - 1, now, i);
    } else if p.nodes[i].id !in nodes {
      NotInserted(nodes, p, k - 1, now, p.nodes[i].id);
    }
  }

  lemma {:induction false} NotInserted(nodes: map<NodeId, NodeRow>, p: Plan, k: nat, now: int, n: NodeId)
    requires k <= |p.nodes| && n !in nodes && forall i :: 0 <= i < k ==> p.nodes[i].id != n
    ensures n !in InsertNodes(nodes, p, k, now)
  {
    if k > 0 { NotInserted(nodes, p, k - 1, now, n); }
  }

  /** An accepted plan's nodes are in the table afterwards, as the plan gives them. */
  lemma AcceptedBodyRecorded(s: Store, b: ManifestBody, agent: string, now: int)
    requires RefsOk(b) && ProperPlan(PlanOf(b)) && NoCollision(s, PlanOf(b))
    ensures BodyRecorded(Accept(s, PlanOf(b), agent, now).nodes, b)
  {
    var p := PlanOf(b);
    forall i | 0 <= i < |b.nodes| ensures Agrees(Accept(s, p, agent, now).nodes, b, b.nodes[i]) {
      assert p.nodes[i] == PlanNode(b, b.nodes[i]);
      InsertedRow(s.nodes, p, |p.nodes|, now, i);
    }
  }

  lemma LaterKeepsRecorded(nodes: map<NodeId, NodeRow>, later: map<NodeId, NodeRow>, b: ManifestBody)
    requires BodyRecorded(nodes, b) && forall n :: n in nodes ==> n in later && later[n] == nodes[n]
    ensures BodyRecorded(later, b)
  {
    forall i | 0 <= i < |b.nodes| ensures Agrees(later, b, b.nodes[i]) {
      assert Agrees(nodes, b, b.nodes[i]);
    }
  }

  lemma ApplyKeepsRecorded(s: Store, r: ManifestRequest, now: int)
    requires Recorded(s)
    ensures Recorded(Apply(s, SubmissionOf(r, now)).1)
  {
    if Apply(s, SubmissionOf(r, now)).0 == Ok(Applied) {
      AppliedSubmission(s, r, now);
      AcceptKeepsRecorded(s, r.body, r.agent, now);
    }
  }

  lemma AppliedSubmission(s: Store, r: ManifestRequest, now: int)
    requires Apply(s, SubmissionOf(r, now)).0 == Ok(Applied)
    ensures RefsOk(r.body) && ProperPlan(PlanOf(r.body)) && NoCollision(s, PlanOf(r.body))
    ensures Apply(s, SubmissionOf(r, now)).1 == Accept(s, PlanOf(r.body), r.agent, now)
  {
    if ValidRequest(r) { ValidRequestIsProper(r); }
  }

  lemma AcceptKeepsRecorded(s: Store, b: ManifestBody, agent: string, now: int)
    requires Recorded(s) && RefsOk(b) && ProperPlan(PlanOf(b)) && NoCollision(s, PlanOf(b))
    ensures Recorded(Accept(s, PlanOf(b), agent, now))
  {
    var p := PlanOf(b);
    var t := Accept(s, p, agent, now);
    AcceptedBodyRecorded(s, b, agent, now);
    forall m | m in t.manifests ensures BodyRecorded(t.nodes, t.manifests[m].digest) {
      AcceptedDigest(s, p, agent, now, m);
      if m != p.manifest { OldBodyRecorded(s, p, agent, now, s.manifests[m].digest); }
    }
  }

  lemma OldBodyRecorded(s: Store, p: Plan, agent: string, now: int, b: ManifestBody)
    requires BodyRecorded(s.nodes, b)
    ensures BodyRecorded(Accept(s, p, agent, now).nodes, b)
  {
    InsertNodesGrows(s.nodes, p, |p.nodes|, now);
    LaterKeepsRecorded(s.nodes, Accept(s, p, agent, now).nodes, b);
  }

  lemma AcceptedDigest(s: Store, p: Plan, agent: string, now: int, m: ManifestId)
    requires m in Accept(s, p, agent, now).manifests
    ensures m == p.manifest ==> Accept(s, p, agent, now).manifests[m].digest == p.digest
    ensures m != p.manifest ==>
      m in s.manifests && Accept(s, p, agent, now).manifests[m].digest == s.manifests[m].digest
  {}

  lemma {:induction false} RunKeepsRecorded(s: Store, qs: seq<Request>)
    requires Recorded(s)
    ensures Recorded(Run(s, OpsOf(qs)))
  {
    if qs != [] {
      var front, q := qs[..|qs| - 1], qs[|qs| - 1];
      RunKeepsRecorded(s, front);
      assert OpsOf(qs)[..|qs| - 1] == OpsOf(front) && OpsOf(qs)[|qs| - 1] == OpOf(q);
      match q {
        case ApplyRequest(r, now) => ApplyKeepsRecorded(Run(s, OpsOf(front)), r, now);
        case AttestRequestAt(r, now) => AttestKeepsNodes(Run(s, OpsOf(front)), ValidAttest(r), r, now);
      }
    }
  }

  lemma AttestKeepsNodes(s: Store, valid: bool, r: AttestRequest, now: int)
    ensures Attest(s, valid, r, now).1.nodes == s.nodes && Attest(s, valid, r, now).1.manifests == s.manifests
  {}

  /** Once a node is in the table, a request that gives it another type or external
      reference fails, whatever has happened since and whatever else it says. */
  lemma OtherNodeIdentityFails(before: seq<Request>, after: seq<Request>, r: ManifestRequest, now: int, i: nat)
    requires i < |r.body.nodes| && NodeOf(r.body, r.body.nodes[i]) in Run(EMPTY, OpsOf(before)).nodes
    requires !Agrees(Run(EMPTY, OpsOf(before)).nodes, r.body, r.body.nodes[i])
    ensures var t := Run(Run(EMPTY, OpsOf(before)), OpsOf(after));
      Apply(t, SubmissionOf(r, now)).0.Err? && Apply(t, SubmissionOf(r, now)).1 == t
  {
    var s := Run(EMPTY, OpsOf(before));
    var t := Run(s, OpsOf(after));
    EveryRunOfRequestsIsSound(before, after);
    RunKeepsRecorded(EMPTY, before);
    RunKeepsRecorded(s, after);
    assert !Agrees(t.nodes, r.body, r.body.nodes[i]);
    DisagreementFails(t, r, now, i);
  }

  lemma DisagreementFails(t: Store, r: ManifestRequest, now: int, i: nat)
    requires Recorded(t) && i < |r.body.nodes| && NodeOf(r.body, r.body.nodes[i]) in t.nodes &&
      !Agrees(t.nodes, r.body, r.body.nodes[i])
    ensures Apply(t, SubmissionOf(r, now)).0.Err? && Apply(t, SubmissionOf(r, now)).1 == t
  {
    var c := SubmissionOf(r, now);
    if c.valid {
      assert c.plan.nodes[i] == PlanNode(r.body, r.body.nodes[i]);
      assert c.plan.manifest in t.manifests ==> BodyRecorded(t.nodes, t.manifests[c.plan.manifest].digest);
    }
  }
}
