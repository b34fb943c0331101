/** Declared-graph requests: their shape, identities and validation
    (src/declared_graph.rs).

    Row ids are SHA-256 digests of JSON tuples; they are modelled as the tuples
    themselves, that is, digests are taken to be injective. */
module DeclaredGraph {
  import opened Options
  import opened Text

  const SCHEMA_VERSION := 1
  const MAX_NODES := 256
  const MAX_EDGES := 512
  const MAX_SOURCE_KEY := 256
  const MAX_REVISION := 256
  const MAX_PREDICATE := 128
  const MAX_CONTEXT := 1024
  const MAX_SPAN_REF := 1024
  const MAX_EXTERNAL_REF := 2048

  // ------------------------------------------------------------------ requests

  datatype NodeInput = NodeInput(namespace: string, canonicalId: string, nodeType: string, externalRef: Option<string>)

  datatype EdgeInput = EdgeInput(from: string, to: string, relation: string, direction: string,
                                 context: Option<string>, spanRef: Option<string>, origin: string, supportState: string,
                                 validFrom: Option<int>, validTo: Option<int>)

  /** Everything of a manifest request that its digest covers. */
  datatype ManifestBody = ManifestBody(schemaVersion: int, operation: string, sourceKey: string, revision: string,
                                       contentSha256: string, spanRef: Option<string>, workspace: string,
                                       validFrom: Option<int>, validTo: Option<int>, policy: string,
                                       nodes: seq<NodeInput>, edges: seq<EdgeInput>)

  datatype ManifestRequest = ManifestRequest(body: ManifestBody, agent: string)

  datatype AttestRequest = AttestRequest(schemaVersion: int, workspace: string, sourceKey: string, revision: string,
                                         edgeIds: seq<EdgeId>, attestationRef: string, attestedBy: string,
                                         agent: string)

  // ---------------------------------------------------------------- identities

  datatype ManifestId = ManifestId(workspace: string, sourceKey: string, revision: string)
  datatype NodeId = NodeId(workspace: string, namespace: string, canonicalId: string)
  datatype EdgeId = EdgeId(manifest: ManifestId, from: NodeId, relation: string, to: NodeId, direction: string)

  function ManifestOf(b: ManifestBody): ManifestId {
    ManifestId(b.workspace, b.sourceKey, b.revision)
  }

  function NodeOf(b: ManifestBody, n: NodeInput): NodeId {
    NodeId(b.workspace, n.namespace, n.canonicalId)
  }

  /** Index of the first colon, or the length. */
  function FirstColon(s: string): (k: nat)
    ensures k <= |s| && (k < |s| ==> s[k] == ':') && forall i :: 0 <= i < k ==> s[i] != ':'
  {
    if s == [] then 0 else if s[0] == ':' then 0 else FirstColon(s[1..]) + 1
  }

  /** "namespace:canonical_id" with exactly one colon and two non-empty parts. */
  function SplitNodeRef(s: string): (r: Option<(string, string)>)
    ensures r.Some? ==> ':' !in r.value.0 && ':' !in r.value.1 && s == r.value.0 + ":" + r.value.1
  {
    var k := FirstColon(s);
    if k == |s| then None
    else
      var ns, id := s[..k], s[k + 1..];
      if ns == [] || id == [] || ':' in id then None else Some((ns, id))
  }

  /** The split accepts exactly the references made of two non-empty colon-free
      parts, and returns those parts. */
  lemma SplitNodeRefIsInverse(ns: string, id: string)
    ensures SplitNodeRef(NodeKey(ns, id)) == Some((ns, id)) <==> ns != [] && id != [] && ':' !in ns && ':' !in id
  {
    var s := NodeKey(ns, id);
    if ns != [] && id != [] && ':' !in ns && ':' !in id {
      var k := FirstColon(s);
      assert s[|ns|] == ':';
      assert s == s[..k] + [':'] + s[k + 1..];
      SplitsOnce(':', ns, id, s[..k], s[k + 1..]);
    }
  }

  /** The text before the first separator is determined. */
  lemma SplitsOnce(sep: char, a: string, b: string, c: string, d: string)
    requires sep !in a && sep !in c && a + [sep] + b == c + [sep] + d
    ensures a == c && b == d
  {
    var s := a + [sep] + b;
    assert forall i :: 0 <= i < |a| ==> s[i] == a[i] != sep;
    assert forall i :: 0 <= i < |c| ==> s[i] == c[i] != sep;
    assert s[|a|] == sep && s[|c|] == sep;
    assert a == s[..|a|] && c == s[..|c|] && b == s[|a| + 1..] && d == s[|c| + 1..];
  }

  function NodeKey(namespace: string, canonicalId: string): string {
    namespace + ":" + canonicalId
  }

  /** The duplicate-detection key of a relation. */
  function EdgeKey(e: EdgeInput): string {
    e.from + "|" + e.relation + "|" + e.to + "|" + e.direction
  }

  function RefNode(b: ManifestBody, s: string): NodeId
    requires SplitNodeRef(s).Some?
  {
    var (ns, id) := SplitNodeRef(s).value;
    NodeId(b.workspace, ns, id)
  }

  function EdgeOf(b: ManifestBody, e: EdgeInput): EdgeId
    requires SplitNodeRef(e.from).Some? && SplitNodeRef(e.to).Some?
  {
    EdgeId(ManifestOf(b), RefNode(b, e.from), e.relation, RefNode(b, e.to), e.direction)
  }

  /** Relations with different keys have different row ids, so inserting a
      validated request never collides with itself. */
  lemma DistinctKeysDistinctIds(b: ManifestBody, e: EdgeInput, f: EdgeInput)
    requires SplitNodeRef(e.from).Some? && SplitNodeRef(e.to).Some? && SplitNodeRef(f.from).Some? &&
      SplitNodeRef(f.to).Some?
    requires EdgeOf(b, e) == EdgeOf(b, f)
    ensures EdgeKey(e) == EdgeKey(f)
  {}

  // ---------------------------------------------------------------- validation

  predicate TextOk(s: string, maxBytes: nat, required: bool) {
    && (required ==> !Blank(s))
    && Utf8Length(s) <= maxBytes
    && forall i :: 0 <= i < |s| ==> !IsControl(s[i])
  }

  predicate OptionalTextOk(s: Option<string>, maxBytes: nat) {
    s.Some? ==> TextOk(s.value, maxBytes, false)
  }

  predicate OrderedWindow(from: Option<int>, to: Option<int>) {
    from.Some? && to.Some? ==> from.value <= to.value
  }

  predicate NodeOk(n: NodeInput) {
    && TextOk(n.namespace, 128, true) && TextOk(n.canonicalId, 512, true) && TextOk(n.nodeType, 128, true)
    && ':' !in n.namespace && ':' !in n.canonicalId
    && OptionalTextOk(n.externalRef, MAX_EXTERNAL_REF)
  }

  predicate EdgeTextOk(e: EdgeInput) {
    && TextOk(e.relation, MAX_PREDICATE, true)
    && TextOk(e.direction, 32, true) && (e.direction == "forward" || e.direction == "reverse")
    && OptionalTextOk(e.context, MAX_CONTEXT) && OptionalTextOk(e.spanRef, MAX_SPAN_REF)
    && e.origin == "declared" && (e.supportState == "sourced" || e.supportState == "supported")
    && OrderedWindow(e.validFrom, e.validTo)
  }

  predicate HeaderOk(r: ManifestRequest) {
    var b := r.body;
    && b.schemaVersion == SCHEMA_VERSION
    && (b.operation == "upsert" || b.operation == "delete") && b.policy == "replace"
    && TextOk(b.sourceKey, MAX_SOURCE_KEY, true) && TextOk(b.revision, MAX_REVISION, true)
    && TextOk(b.workspace, 256, true) && TextOk(r.agent, 256, true)
    && IsSha256(b.contentSha256) && OptionalTextOk(b.spanRef, MAX_SPAN_REF)
    && OrderedWindow(b.validFrom, b.validTo)
  }

  /** The edge names two nodes of the request. */
  ghost predicate EdgeDeclared(b: ManifestBody, e: EdgeInput) {
    NodeDeclared(b, e.from) && NodeDeclared(b, e.to)
  }

  ghost predicate NodeDeclared(b: ManifestBody, s: string) {
    SplitNodeRef(s).Some? && exists i :: 0 <= i < |b.nodes| && NodeOf(b, b.nodes[i]) == RefNode(b, s)
  }

  ghost predicate EdgeFine(b: ManifestBody, e: EdgeInput) {
    EdgeDeclared(b, e) && EdgeTextOk(e)
  }

  /** The first k nodes are proper and have distinct identities. */
  ghost predicate NodesOk(b: ManifestBody, k: nat)
    requires k <= |b.nodes|
  {
    && (forall i :: 0 <= i < k ==> NodeOk(b.nodes[i]))
    && (forall i, j :: 0 <= i < j < k ==> NodeOf(b, b.nodes[i]) != NodeOf(b, b.nodes[j]))
  }

  /** The first k edges join declared nodes, are proper and have distinct keys. */
  ghost predicate EdgesOk(b: ManifestBody, k: nat)
    requires k <= |b.edges|
  {
    && (forall i :: 0 <= i < k ==> EdgeFine(b, b.edges[i]))
    && (forall i, j :: 0 <= i < j < k ==> EdgeKey(b.edges[i]) != EdgeKey(b.edges[j]))
  }

  ghost predicate GraphOk(b: ManifestBody) {
    && 1 <= |b.nodes| <= MAX_NODES && 1 <= |b.edges| <= MAX_EDGES
    && NodesOk(b, |b.nodes|) && EdgesOk(b, |b.edges|)
  }

  /** A request that passes `validate`: node identities are distinct, relation
      keys are distinct, and every edge joins two declared nodes. */
  ghost predicate ValidRequest(r: ManifestRequest) {
    && HeaderOk(r)
    && if r.body.operation == "delete" then r.body.nodes == [] && r.body.edges == [] else GraphOk(r.body)
  }

  /** keys are the identity strings of the first k nodes. */
  ghost predicate DeclaredKeys(b: ManifestBody, k: nat, keys: set<string>)
    requires k <= |b.nodes|
  {
    forall s :: s in keys <==> exists i :: 0 <= i < k && s == NodeKey(b.nodes[i].namespace, b.nodes[i].canonicalId)
  }

  lemma NodeKeyInjective(a: string, b: string, c: string, d: string)
    requires ':' !in a && ':' !in c && NodeKey(a, b) == NodeKey(c, d)
    ensures a == c && b == d
  {
    SplitsOnce(':', a, b, c, d);
  }

  /** Identity k is none of the earlier ones. */
  ghost predicate NodeFresh(b: ManifestBody, k: nat)
    requires k < |b.nodes|
  {
    forall i :: 0 <= i < k ==> NodeOf(b, b.nodes[i]) != NodeOf(b, b.nodes[k])
  }

  lemma NodesOkMore(b: ManifestBody, k: nat)
    requires k < |b.nodes| && NodesOk(b, k) && NodeOk(b.nodes[k])
    ensures NodesOk(b, k + 1) <==> NodeFresh(b, k)
  {}

  /** A node's key is declared already exactly when its identity is. */
  lemma KeyIsIdentity(b: ManifestBody, k: nat, keys: set<string>)
    requires k < |b.nodes| && NodesOk(b, k) && NodeOk(b.nodes[k]) && DeclaredKeys(b, k, keys)
    ensures NodeKey(b.nodes[k].namespace, b.nodes[k].canonicalId) in keys <==> !NodeFresh(b, k)
  {
    var n := b.nodes[k];
    var key := NodeKey(n.namespace, n.canonicalId);
    if key in keys {
      var i :| 0 <= i < k && key == NodeKey(b.nodes[i].namespace, b.nodes[i].canonicalId);
      NodeKeyInjective(b.nodes[i].namespace, b.nodes[i].canonicalId, n.namespace, n.canonicalId);
    }
  }

  lemma DeclaredKeysMore(b: ManifestBody, k: nat, keys: set<string>)
    requires k < |b.nodes| && DeclaredKeys(b, k, keys)
    ensures DeclaredKeys(b, k + 1, keys + {NodeKey(b.nodes[k].namespace, b.nodes[k].canonicalId)})
  {}

  lemma BadPrefix(b: ManifestBody, k: nat)
    requires k <= |b.nodes| && !NodesOk(b, k)
    ensures !NodesOk(b, |b.nodes|)
  {}

  /** The node loop of `validate`. */
  method ValidateNodes(b: ManifestBody) returns (ok: bool, keys: set<string>)
    ensures ok <==> NodesOk(b, |b.nodes|)
    ensures ok ==> DeclaredKeys(b, |b.nodes|, keys)
  {
    keys := {};
    for k := 0 to |b.nodes|
      invariant NodesOk(b, k)
      invariant DeclaredKeys(b, k, keys)
    {
      var n := b.nodes[k];
      if !NodeOk(n) {
        return false, keys;
      }
      NodesOkMore(b, k);
      KeyIsIdentity(b, k, keys);
      DeclaredKeysMore(b, k, keys);
      var key := NodeKey(n.namespace, n.canonicalId);
      if key in keys {
        BadPrefix(b, k + 1);
        return false, keys;
      }
      keys := keys + {key};
    }
    ok := true;
  }

  /** A reference is among the declared keys exactly when it names a declared node. */
  lemma RefIsDeclared(b: ManifestBody, keys: set<string>, s: string)
    requires SplitNodeRef(s).Some? && (forall i :: 0 <= i < |b.nodes| ==> NodeOk(b.nodes[i]))
    requires DeclaredKeys(b, |b.nodes|, keys)
    ensures s in keys <==> NodeDeclared(b, s)
  {
    var (ns, id) := SplitNodeRef(s).value;
    if s in keys {
      var i :| 0 <= i < |b.nodes| && s == NodeKey(b.nodes[i].namespace, b.nodes[i].canonicalId);
      NodeKeyInjective(ns, id, b.nodes[i].namespace, b.nodes[i].canonicalId);
      assert NodeOf(b, b.nodes[i]) == RefNode(b, s);
    }
    if i :| 0 <= i < |b.nodes| && NodeOf(b, b.nodes[i]) == RefNode(b, s) {
      assert s == NodeKey(b.nodes[i].namespace, b.nodes[i].canonicalId);
    }
  }

  /** The key set answers which references name declared nodes. */
  ghost predicate KeysMean(b: ManifestBody, keys: set<string>) {
    forall s :: SplitNodeRef(s).Some? ==> (s in keys <==> NodeDeclared(b, s))
  }

  lemma KeysMeanNodes(b: ManifestBody, keys: set<string>)
    requires NodesOk(b, |b.nodes|) && DeclaredKeys(b, |b.nodes|, keys)
    ensures KeysMean(b, keys)
  {
    forall s | SplitNodeRef(s).Some? ensures s in keys <==> NodeDeclared(b, s) { RefIsDeclared(b, keys, s); }
  }

  method CheckRef(b: ManifestBody, keys: set<string>, s: string) returns (ok: bool)
    requires KeysMean(b, keys)
    ensures ok <==> NodeDeclared(b, s)
  {
    var parts := SplitNodeRef(s);
    ok := parts.Some? && NodeKey(parts.value.0, parts.value.1) in keys;
  }

  /** The checks of one edge, up to its duplicate key. */
  method CheckEdge(b: ManifestBody, keys: set<string>, e: EdgeInput) returns (ok: bool)
    requires KeysMean(b, keys)
    ensures ok <==> EdgeFine(b, e)
  {
    ok := CheckRef(b, keys, e.from);
    if ok {
      ok := CheckRef(b, keys, e.to);
    }
    ok := ok && EdgeTextOk(e);
  }

  /** The first n elements are fine and have different keys. */
  ghost predicate AllNew<T, K>(xs: seq<T>, n: nat, fine: T -> bool, key: T -> K) {
    && (forall i :: 0 <= i < n && i < |xs| ==> fine(xs[i]))
    && (forall i, j :: 0 <= i < j < n && j < |xs| ==> key(xs[i]) != key(xs[j]))
  }

  ghost predicate SeenKeys<T, K(!new)>(xs: seq<T>, n: nat, key: T -> K, seen: set<K>) {
    forall v :: v in seen <==> exists i :: 0 <= i < n && i < |xs| && key(xs[i]) == v
  }

  lemma AllNewStep<T, K(!new)>(xs: seq<T>, n: nat, fine: T -> bool, key: T -> K, seen: set<K>)
    requires n < |xs| && AllNew(xs, n, fine, key) && SeenKeys(xs, n, key, seen)
    ensures SeenKeys(xs, n + 1, key, seen + {key(xs[n])})
    ensures fine(xs[n]) && key(xs[n]) !in seen ==> AllNew(xs, n + 1, fine, key)
    ensures !fine(xs[n]) || key(xs[n]) in seen ==> !AllNew(xs, |xs|, fine, key)
  {}

  ghost function FineIn(b: ManifestBody): EdgeInput -> bool { (e: EdgeInput) => EdgeFine(b, e) }

  ghost function KeyOfEdge(): EdgeInput -> string { (e: EdgeInput) => EdgeKey(e) }

  lemma EdgesOkMeans(b: ManifestBody)
    ensures EdgesOk(b, |b.edges|) <==> AllNew(b.edges, |b.edges|, FineIn(b), KeyOfEdge())
  {
    forall i | 0 <= i < |b.edges| ensures FineIn(b)(b.edges[i]) == EdgeFine(b, b.edges[i]) {}
    forall i | 0 <= i < |b.edges| ensures KeyOfEdge()(b.edges[i]) == EdgeKey(b.edges[i]) {}
  }

  /** After n edges: the keys seen, and whether every edge so far passed. */
  ghost predicate EdgesChecked(b: ManifestBody, n: nat, seen: set<string>, ok: bool) {
    && SeenKeys(b.edges, n, KeyOfEdge(), seen)
    && if ok then AllNew(b.edges, n, FineIn(b), KeyOfEdge()) else !AllNew(b.edges, |b.edges|, FineIn(b), KeyOfEdge())
  }

  lemma EdgesCheckedStep(b: ManifestBody, n: nat, seen: set<string>)
    requires n < |b.edges| && EdgesChecked(b, n, seen, true)
    ensures var e := b.edges[n];
      EdgesChecked(b, n + 1, seen + {EdgeKey(e)}, EdgeFine(b, e) && EdgeKey(e) !in seen)
  {
    AllNewStep(b.edges, n, FineIn(b), KeyOfEdge(), seen);
    assert FineIn(b)(b.edges[n]) == EdgeFine(b, b.edges[n]) && KeyOfEdge()(b.edges[n]) == EdgeKey(b.edges[n]);
  }

  lemma EdgesCheckedDone(b: ManifestBody, n: nat, seen: set<string>, ok: bool)
    requires EdgesChecked(b, n, seen, ok) && n <= |b.edges| && (ok ==> n == |b.edges|)
    ensures ok <==> EdgesOk(b, |b.edges|)
  {
    EdgesOkMeans(b);
  }

  /** The edge loop of `validate`. */
  method ValidateEdges(b: ManifestBody, keys: set<string>) returns (ok: bool)
    requires KeysMean(b, keys)
    ensures ok <==> EdgesOk(b, |b.edges|)
  {
    ok := true;
    var seen: set<string>, k: nat := {}, 0;
    while ok && k < |b.edges|
      invariant k <= |b.edges| && EdgesChecked(b, k, seen, ok)
      decreases |b.edges| - k
    {
      EdgesCheckedStep(b, k, seen);
      var e := b.edges[k];
      ok := CheckEdge(b, keys, e);
      ok := ok && EdgeKey(e) !in seen;
      seen, k := seen + {EdgeKey(e)}, k + 1;
    }
    EdgesCheckedDone(b, k, seen, ok);
  }

  method Validate(r: ManifestRequest) returns (ok: bool)
    ensures ok <==> ValidRequest(r)
  {
    var b := r.body;
    if !HeaderOk(r) {
      return false;
    }
    if b.operation == "delete" {
      return |b.nodes| == 0 && |b.edges| == 0;
    }
    if !(1 <= |b.nodes| <= MAX_NODES && 1 <= |b.edges| <= MAX_EDGES) {
      return false;
    }
    var nodesOk, keys := ValidateNodes(b);
    if !nodesOk {
      return false;
    }
    KeysMeanNodes(b, keys);
    ok := ValidateEdges(b, keys);
  }

  /** An attestation names 1 to 512 distinct edges and carries bounded text. */
  ghost predicate ValidAttest(r: AttestRequest) {
    && r.schemaVersion == SCHEMA_VERSION
    && TextOk(r.sourceKey, MAX_SOURCE_KEY, true) && TextOk(r.revision, MAX_REVISION, true)
    && TextOk(r.workspace, 256, true) && TextOk(r.agent, 256, true)
    && TextOk(r.attestationRef, MAX_SPAN_REF, true) && TextOk(r.attestedBy, 256, true)
    && 1 <= |r.edgeIds| <= MAX_EDGES
    && forall i, j :: 0 <= i < j < |r.edgeIds| ==> r.edgeIds[i] != r.edgeIds[j]
  }

  method ValidateAttest(r: AttestRequest) returns (ok: bool)
    ensures ok <==> ValidAttest(r)
  {
    if r.schemaVersion != SCHEMA_VERSION || !TextOk(r.sourceKey, MAX_SOURCE_KEY, true)
       || !TextOk(r.revision, MAX_REVISION, true) || !TextOk(r.workspace, 256, true) || !TextOk(r.agent, 256, true)
       || !TextOk(r.attestationRef, MAX_SPAN_REF, true) || !TextOk(r.attestedBy, 256, true)
       || !(1 <= |r.edgeIds| <= MAX_EDGES) {
      return false;
    }
    var ids: set<EdgeId> := {};
    for k := 0 to |r.edgeIds|
      invariant forall i, j :: 0 <= i < j < k ==> r.edgeIds[i] != r.edgeIds[j]
      invariant forall e :: e in ids <==> e in r.edgeIds[..k]
    {
      if r.edgeIds[k] in ids {
        return false;
      }
      ids := ids + {r.edgeIds[k]};
    }
    ok := true;
  }
}
