/** When the duplicate check of a declared-graph request mistakes one relation for
    another (src/declared_graph.rs): it compares the texts from|predicate|to|direction,
    and the fields may contain bars themselves. */
module DeclaredGraphKeys {
  import opened Options
  import opened Text
  import opened DeclaredGraph

  /** The bar-delimited pieces of the three fields, in order. */
  function FieldPieces(e: EdgeInput): seq<string> {
    Pieces(e.from, '|') + Pieces(e.relation, '|') + Pieces(e.to, '|')
  }

  predicate SameRelation(e: EdgeInput, f: EdgeInput) {
    e.from == f.from && e.relation == f.relation && e.to == f.to && e.direction == f.direction
  }

  /** The fields of the two relations cut the same pieces at different places: at
      least one piece has moved across a field boundary. */
  predicate PiecesMoved(e: EdgeInput, f: EdgeInput) {
    && e.direction == f.direction && FieldPieces(e) == FieldPieces(f)
    && (|Pieces(e.from, '|')| != |Pieces(f.from, '|')| || |Pieces(e.relation, '|')| != |Pieces(f.relation, '|')|)
  }

  function Fields(e: EdgeInput): string {
    e.from + ['|'] + (e.relation + ['|'] + e.to)
  }

  lemma PiecesOfFields(e: EdgeInput)
    ensures Pieces(Fields(e), '|') == FieldPieces(e)
  {
    PiecesOfJoin(e.from, e.relation + ['|'] + e.to, '|');
    PiecesOfJoin(e.relation, e.to, '|');
    var x, y, z := Pieces(e.from, '|'), Pieces(e.relation, '|'), Pieces(e.to, '|');
    assert x + (y + z) == x + y + z;
  }

  /** Both directions have seven letters, so the last eight characters of a key are
      the direction and the bar before it. */
  lemma KeyIsFieldsAndDirection(e: EdgeInput, f: EdgeInput)
    requires EdgeTextOk(e) && EdgeTextOk(f)
    ensures EdgeKey(e) == EdgeKey(f) <==> Fields(e) == Fields(f) && e.direction == f.direction
  {
    KeyShape(e);
    KeyShape(f);
    SameTail(Fields(e) + "|", e.direction, Fields(f) + "|", f.direction);
    if Fields(e) + "|" == Fields(f) + "|" { SameTail(Fields(e), "|", Fields(f), "|"); }
  }

  lemma KeyShape(e: EdgeInput)
    ensures EdgeKey(e) == (Fields(e) + "|") + e.direction
  {
    assert e.from + "|" + e.relation + "|" + e.to == Fields(e);
  }

  lemma SameTail(a: string, s: string, b: string, t: string)
    requires |s| == |t|
    ensures a + s == b + t <==> a == b && s == t
  {
    if a + s == b + t {
      assert a == (a + s)[..|a|] && b == (b + t)[..|b|] && s == (a + s)[|a|..] && t == (b + t)[|b|..];
    }
  }

  /** Two keys are equal exactly when the directions are and the fields hold the same
      pieces in the same order. */
  lemma KeysEqualExactlyWhen(e: EdgeInput, f: EdgeInput)
    requires EdgeTextOk(e) && EdgeTextOk(f)
    ensures EdgeKey(e) == EdgeKey(f) <==> e.direction == f.direction && FieldPieces(e) == FieldPieces(f)
  {
    KeyIsFieldsAndDirection(e, f);
    PiecesOfFields(e);
    PiecesOfFields(f);
    if FieldPieces(e) == FieldPieces(f) { PiecesAreInjective(Fields(e), Fields(f), '|'); }
  }

  /** Equal pieces cut at the same places are equal fields. */
  lemma SameCutsSameFields(e: EdgeInput, f: EdgeInput)
    requires FieldPieces(e) == FieldPieces(f)
    requires |Pieces(e.from, '|')| == |Pieces(f.from, '|')| && |Pieces(e.relation, '|')| == |Pieces(f.relation, '|')|
    ensures e.from == f.from && e.relation == f.relation && e.to == f.to
  {
    SameCuts(Pieces(e.from, '|'), Pieces(e.relation, '|'), Pieces(e.to, '|'),
             Pieces(f.from, '|'), Pieces(f.relation, '|'), Pieces(f.to, '|'));
    PiecesAreInjective(e.from, f.from, '|');
    PiecesAreInjective(e.relation, f.relation, '|');
    PiecesAreInjective(e.to, f.to, '|');
  }

  lemma SameCuts(a: seq<string>, b: seq<string>, c: seq<string>, x: seq<string>, y: seq<string>, z: seq<string>)
    requires a + b + c == x + y + z && |a| == |x| && |b| == |y|
    ensures a == x && b == y && c == z
  {
    assert a == (a + b + c)[..|a|] && b == (a + b + c)[|a|..][..|b|] && c == (a + b + c)[|a|..][|b|..];
    assert x == (x + y + z)[..|x|] && y == (x + y + z)[|x|..][..|y|] && z == (x + y + z)[|x|..][|y|..];
  }

  /** Different relations share a key exactly when pieces have moved across a field
      boundary. */
  lemma CollisionExactlyWhen(e: EdgeInput, f: EdgeInput)
    requires EdgeTextOk(e) && EdgeTextOk(f)
    ensures EdgeKey(e) == EdgeKey(f) && !SameRelation(e, f) <==> PiecesMoved(e, f)
  {
    KeysEqualExactlyWhen(e, f);
    if FieldPieces(e) == FieldPieces(f) && !PiecesMoved(e, f) && e.direction == f.direction {
      SameCutsSameFields(e, f);
    }
  }

  lemma RowIdsTellRelationsApart(b: ManifestBody, e: EdgeInput, f: EdgeInput)
    requires SplitNodeRef(e.from).Some? && SplitNodeRef(e.to).Some? && SplitNodeRef(f.from).Some? &&
      SplitNodeRef(f.to).Some?
    ensures EdgeOf(b, e) == EdgeOf(b, f) <==> SameRelation(e, f)
  {}

  /** The edges of a request are proper on their own and have different row ids. */
  ghost predicate DistinctRows(b: ManifestBody) {
    && (forall i :: 0 <= i < |b.edges| ==> EdgeFine(b, b.edges[i]))
    && (forall i, j :: 0 <= i < j < |b.edges| ==> !SameRelation(b.edges[i], b.edges[j]))
  }

  /** A request that is proper in every other respect is refused exactly when pieces
      have moved between two of its relations. */
  lemma RefusedExactlyWhen(r: ManifestRequest)
    requires HeaderOk(r) && r.body.operation == "upsert" && DistinctRows(r.body)
    requires 1 <= |r.body.nodes| <= MAX_NODES && 1 <= |r.body.edges| <= MAX_EDGES && NodesOk(r.body, |r.body.nodes|)
    ensures !ValidRequest(r) <==>
      exists i, j :: 0 <= i < j < |r.body.edges| && PiecesMoved(r.body.edges[i], r.body.edges[j])
  {
    var edges := r.body.edges;
    forall i, j | 0 <= i < j < |edges|
      ensures EdgeKey(edges[i]) == EdgeKey(edges[j]) <==> PiecesMoved(edges[i], edges[j])
    {
      assert EdgeFine(r.body, edges[i]) && EdgeFine(r.body, edges[j]);
      CollisionExactlyWhen(edges[i], edges[j]);
    }
  }

  // --------------------------------------------------------------- special cases

  /** Relations without bars in the source reference and the predicate are told apart. */
  lemma BarFreeKeysAreFaithful(e: EdgeInput, f: EdgeInput)
    requires EdgeTextOk(e) && EdgeTextOk(f)
    requires '|' !in e.from && '|' !in f.from && '|' !in e.relation && '|' !in f.relation
    ensures EdgeKey(e) == EdgeKey(f) <==> SameRelation(e, f)
  {
    OnePiece(e.from, '|');
    OnePiece(f.from, '|');
    OnePiece(e.relation, '|');
    OnePiece(f.relation, '|');
    CollisionExactlyWhen(e, f);
  }

  /** A whole family of collisions: a bar lets the relations (ns:id, "p|q") and
      (ns:id|p, "q") to the same target share a key. */
  lemma DifferentRelationsMayShareAKey(ns: string, id: string, p: string, q: string, e: EdgeInput, f: EdgeInput)
    requires ns != [] && id != [] && ':' !in ns && ':' !in id && ':' !in p
    requires e.from == NodeKey(ns, id) && e.relation == p + "|" + q
    requires f == e.(from := NodeKey(ns, id + "|" + p), relation := q)
    ensures SplitNodeRef(e.from) == Some((ns, id)) && SplitNodeRef(f.from) == Some((ns, id + "|" + p))
    ensures !SameRelation(e, f) && EdgeKey(e) == EdgeKey(f)
  {
    SplitNodeRefIsInverse(ns, id);
    SplitNodeRefIsInverse(ns, id + "|" + p);
    assert e.from + "|" + (p + "|" + q) == f.from + "|" + q;
    assert |e.from| != |f.from|;
  }

  // ------------------------------------------------------------- a refused request

  lemma AsciiTextOk(s: string, maxBytes: nat)
    requires 0 < |s| <= maxBytes && forall i :: 0 <= i < |s| ==> ' ' < s[i] <= '~'
    ensures TextOk(s, maxBytes, true)
  {
    AsciiLength(s);
  }

  function PlainEdge(from: string, relation: string, to: string): EdgeInput {
    EdgeInput(from, to, relation, "forward", None, None, "declared", "sourced", None, None)
  }

  function PlainNode(ns: string, id: string): NodeInput { NodeInput(ns, id, "t", None) }

  /** Three nodes and two relations, a:b --x|r--> c:d and a:b|x --r--> c:d. */
  function Sample(): ManifestRequest {
    ManifestRequest(
      ManifestBody(SCHEMA_VERSION, "upsert", "k", "1", seq(64, _ => '0'), None, "w", None, None, "replace",
                   [PlainNode("a", "b"), PlainNode("a", "b|x"), PlainNode("c", "d")],
                   [PlainEdge("a:b", "x|r", "c:d"), PlainEdge("a:b|x", "r", "c:d")]), "g")
  }

  /** The sample is proper in every respect, its two relations have different row ids,
      and it is refused. */
  lemma SampleIsRefused()
    ensures var r := Sample(); var b := r.body;
      && HeaderOk(r) && NodesOk(b, |b.nodes|) && DistinctRows(b) && !ValidRequest(r)
      && EdgeOf(b, b.edges[0]) != EdgeOf(b, b.edges[1])
  {
    SampleHeader();
    SampleNodes();
    SampleEdges();
    RepeatedKeyIsRefused(Sample(), 0, 1);
  }

  lemma RepeatedKeyIsRefused(r: ManifestRequest, i: nat, j: nat)
    requires r.body.operation == "upsert" && i < j < |r.body.edges| &&
      EdgeKey(r.body.edges[i]) == EdgeKey(r.body.edges[j])
    ensures !ValidRequest(r)
  {}

  lemma SampleHeader()
    ensures HeaderOk(Sample())
  {
    AsciiTextOk("k", MAX_SOURCE_KEY);
    AsciiTextOk("1", MAX_REVISION);
    AsciiTextOk("w", 256);
    AsciiTextOk("g", 256);
  }

  lemma SampleNodes()
    ensures NodesOk(Sample().body, 3)
  {
    PlainNodeIsOk("a", "b");
    PlainNodeIsOk("a", "b|x");
    PlainNodeIsOk("c", "d");
    assert |"b|x"| == 3;
  }

  lemma PlainNodeIsOk(ns: string, id: string)
    requires 0 < |ns| <= 128 && 0 < |id| <= 512 && ':' !in ns && ':' !in id
    requires (forall i :: 0 <= i < |ns| ==> ' ' < ns[i] <= '~') && forall i :: 0 <= i < |id| ==> ' ' < id[i] <= '~'
    ensures NodeOk(PlainNode(ns, id))
  {
    AsciiTextOk(ns, 128);
    AsciiTextOk(id, 512);
    AsciiTextOk("t", 128);
  }

  lemma PlainEdgeIsFine(b: ManifestBody, relation: string, i: nat, j: nat)
    requires i < |b.nodes| && j < |b.nodes| && NodeOk(b.nodes[i]) && NodeOk(b.nodes[j]) &&
      TextOk(relation, MAX_PREDICATE, true)
    ensures EdgeFine(b, PlainEdge(NodeKey(b.nodes[i].namespace, b.nodes[i].canonicalId), relation,
                                  NodeKey(b.nodes[j].namespace, b.nodes[j].canonicalId)))
  {
    var n, m := b.nodes[i], b.nodes[j];
    NonBlankIsNonEmpty(n);
    NonBlankIsNonEmpty(m);
    SplitNodeRefIsInverse(n.namespace, n.canonicalId);
    SplitNodeRefIsInverse(m.namespace, m.canonicalId);
    assert |"forward"| == 7;
    AsciiTextOk("forward", 32);
    var e := PlainEdge(NodeKey(n.namespace, n.canonicalId), relation, NodeKey(m.namespace, m.canonicalId));
    assert NodeOf(b, b.nodes[i]) == RefNode(b, e.from) && NodeOf(b, b.nodes[j]) == RefNode(b, e.to);
  }

  lemma NonBlankIsNonEmpty(n: NodeInput)
    requires NodeOk(n)
    ensures n.namespace != [] && n.canonicalId != []
  {}

  lemma SampleEdges()
    ensures var b := Sample().body;
      && DistinctRows(b) && EdgeKey(b.edges[0]) == EdgeKey(b.edges[1]) && EdgeOf(b, b.edges[0]) != EdgeOf(b, b.edges[1])
  {
    var b := Sample().body;
    SampleEdgesAreFine(b);
    TwoEdges(b, b.edges[0], b.edges[1]);
  }

  lemma TwoEdges(b: ManifestBody, e: EdgeInput, f: EdgeInput)
    requires b.edges == [e, f] && EdgeFine(b, e) && EdgeFine(b, f)
    requires e.from == NodeKey("a", "b") && e.relation == "x" + "|" + "r"
    requires f == e.(from := NodeKey("a", "b" + "|" + "x"), relation := "r")
    ensures DistinctRows(b) && EdgeKey(e) == EdgeKey(f) && EdgeOf(b, e) != EdgeOf(b, f)
  {
    DifferentRelationsMayShareAKey("a", "b", "x", "r", e, f);
    RowIdsTellRelationsApart(b, e, f);
  }

  lemma SampleEdgesAreFine(b: ManifestBody)
    requires b == Sample().body
    ensures EdgeFine(b, b.edges[0]) && EdgeFine(b, b.edges[1])
    ensures b.edges[0].from == NodeKey("a", "b") && b.edges[0].relation == "x" + "|" + "r"
    ensures b.edges[1] == b.edges[0].(from := NodeKey("a", "b" + "|" + "x"), relation := "r")
  {
    SampleNodes();
    AsciiTextOk("x|r", MAX_PREDICATE);
    AsciiTextOk("r", MAX_PREDICATE);
    assert NodeKey("a", "b") == "a:b" && NodeKey("a", "b|x") == "a:b|x" && NodeKey("c", "d") == "c:d";
    assert "b" + "|" + "x" == "b|x" && "x" + "|" + "r" == "x|r";
    PlainEdgeIsFine(b, "x|r", 0, 2);
    PlainEdgeIsFine(b, "r", 1, 2);
  }
}
