/** Folding directed links into the undirected link graph (src/communities.rs,
    `build_graph`). */
module BuildGraph {
  import opened RealSums
  import opened LinkGraphs

  /** One outgoing link of an entity row. */
  datatype Link = Link(target: string, weight: real)
  datatype EntityRow = EntityRow(id: string, links: seq<Link>)

  // ---------------------------------------------------------- sorted node ids

  /** Lexicographic order on strings. */
  predicate Less(a: string, b: string) {
    if b == [] then false
    else if a == [] then true
    else a[0] < b[0] || (a[0] == b[0] && Less(a[1..], b[1..]))
  }

  lemma {:induction false} LessTotal(a: string, b: string)
    ensures a == b || Less(a, b) || Less(b, a)
  {
    if a != [] && b != [] && a[0] == b[0] {
      LessTotal(a[1..], b[1..]);
      assert a == [a[0]] + a[1..] && b == [b[0]] + b[1..];
    }
  }

  lemma {:induction false} LessTransitive(a: string, b: string, c: string)
    requires Less(a, b) && Less(b, c)
    ensures Less(a, c)
  {
    if a != [] && a[0] == b[0] && b[0] == c[0] { LessTransitive(a[1..], b[1..], c[1..]); }
  }

  lemma {:induction false} LessIrreflexive(a: string)
    ensures !Less(a, a)
  {
    if a != [] { LessIrreflexive(a[1..]); }
  }

  ghost predicate Ascending(ids: seq<string>) {
    forall i, j :: 0 <= i < j < |ids| ==> Less(ids[i], ids[j])
  }

  /** Insert into an ascending list, dropping duplicates. */
  function InsertId(ids: seq<string>, x: string): (r: seq<string>)
    requires Ascending(ids)
    ensures Ascending(r)
    ensures forall y :: y in r <==> y in ids || y == x
  {
    if ids == [] then [x]
    else
      var front, last := ids[..|ids| - 1], ids[|ids| - 1];
      assert ids == front + [last];
      LessTotal(x, last);
      if x == last then ids
      else if Less(last, x) then
        assert forall i :: 0 <= i < |ids| ==> Less(ids[i], x) by {
          forall i | 0 <= i < |ids| - 1 ensures Less(ids[i], x) { LessTransitive(ids[i], last, x); }
        }
        ids + [x]
      else
        var r := InsertId(front, x);
        assert forall y :: y in r ==> Less(y, last) by {
          forall y | y in front ensures Less(y, last) {
            var i :| 0 <= i < |front| && front[i] == y;
            assert ids[i] == y;
          }
        }
        r + [last]
  }

  /** Sorted, deduplicated row ids. */
  function SortedIds(rows: seq<EntityRow>): (ids: seq<string>)
    ensures Ascending(ids)
    ensures forall x :: x in ids <==> exists i :: 0 <= i < |rows| && rows[i].id == x
  {
    if rows == [] then []
    else
      var front := rows[..|rows| - 1];
      assert forall i :: 0 <= i < |front| ==> rows[i] == front[i];
      InsertId(SortedIds(front), rows[|rows| - 1].id)
  }

  lemma AscendingDistinct(ids: seq<string>)
    requires Ascending(ids)
    ensures forall i, j :: 0 <= i < |ids| && 0 <= j < |ids| && ids[i] == ids[j] ==> i == j
  {
    forall i, j | 0 <= i < |ids| && 0 <= j < |ids| && ids[i] == ids[j] ensures i == j {
      LessIrreflexive(ids[i]);
    }
  }

  // ------------------------------------------------------------ folded weight

  /** Non-positive link weights count as one half. */
  function LinkWeight(link: Link): (w: real)
    ensures w > 0.0
  {
    if link.weight > 0.0 then link.weight else 0.5
  }

  predicate Between(id: string, target: string, a: string, b: string) {
    (id == a && target == b) || (id == b && target == a)
  }

  /** Weight of the links of one row that join a and b in either direction. */
  function FoldedLinks(id: string, links: seq<Link>, a: string, b: string): (w: real)
    ensures w >= 0.0
  {
    if links == [] then 0.0
    else
      var last := links[|links| - 1];
      FoldedLinks(id, links[..|links| - 1], a, b) + if Between(id, last.target, a, b) then LinkWeight(last) else 0.0
  }

  /** Weight of all links that join a and b in either direction. */
  function Folded(rows: seq<EntityRow>, a: string, b: string): (w: real)
    ensures w >= 0.0
  {
    if rows == [] then 0.0
    else Folded(rows[..|rows| - 1], a, b) + FoldedLinks(rows[|rows| - 1].id, rows[|rows| - 1].links, a, b)
  }

  /** What link k of row i adds between a and b. */
  function Contribution(rows: seq<EntityRow>, a: string, b: string, i: nat, k: nat): real {
    if i >= |rows| || k >= |rows[i].links| then 0.0
    else
      var id, link := rows[i].id, rows[i].links[k];
      if !((id == a && link.target == b) || (id == b && link.target == a)) then 0.0
      else if link.weight <= 0.0 then 0.5 else link.weight
  }

  lemma {:induction false} FoldedRow(rows: seq<EntityRow>, a: string, b: string, i: nat, n: nat)
    requires i < |rows| && n <= |rows[i].links|
    ensures FoldedLinks(rows[i].id, rows[i].links[..n], a, b) == Sum(n, (k: nat) => Contribution(rows, a, b, i, k))
  {
    if n > 0 {
      FoldedRow(rows, a, b, i, n - 1);
      assert rows[i].links[..n][..n - 1] == rows[i].links[..n - 1];
    }
  }

  /** The folded weight is the double sum over all rows and their links. */
  lemma {:induction false} FoldedIsSum(rows: seq<EntityRow>, a: string, b: string, n: nat)
    requires n <= |rows|
    ensures Folded(rows[..n], a, b) ==
      Sum(n, (i: nat) => if i < |rows| then Sum(|rows[i].links|, (k: nat) => Contribution(rows, a, b, i, k)) else 0.0)
  {
    if n > 0 {
      FoldedIsSum(rows, a, b, n - 1);
      FoldedRow(rows, a, b, n - 1, |rows[n - 1].links|);
      assert rows[..n][..n - 1] == rows[..n - 1] && rows[n - 1].links[..|rows[n - 1].links|] == rows[n - 1].links;
    }
  }

  // ------------------------------------------------------------- the algorithm

  type Weights = map<(nat, nat), real>

  function EdgeWeight(weights: Weights, u: nat, v: nat): real {
    var key := if u < v then (u, v) else (v, u);
    if key in weights then weights[key] else 0.0
  }

  ghost predicate ProperWeights(weights: Weights, n: nat) {
    forall key :: key in weights ==> key.0 < key.1 < n && weights[key] > 0.0
  }

  function IndexOf(nodes: seq<string>): (index: map<string, nat>)
    requires Ascending(nodes)
    ensures forall x :: x in index <==> x in nodes
    ensures forall x :: x in index ==> index[x] < |nodes| && nodes[index[x]] == x
  {
    AscendingDistinct(nodes);
    map i: nat | i < |nodes| :: nodes[i] := i
  }

  method AddLink(weights: Weights, index: map<string, nat>, ghost nodes: seq<string>, id: string, link: Link)
    returns (r: Weights)
    requires Ascending(nodes) && (forall x :: x in index <==> x in nodes)
    requires forall x :: x in index ==> index[x] < |nodes| && nodes[index[x]] == x
    requires id in nodes && ProperWeights(weights, |nodes|)
    ensures ProperWeights(r, |nodes|)
    ensures forall a: nat, b: nat :: a < |nodes| && b < |nodes| && a != b ==>
      EdgeWeight(r, a, b) == EdgeWeight(weights, a, b) +
        if Between(id, link.target, nodes[a], nodes[b]) then LinkWeight(link) else 0.0
  {
    AscendingDistinct(nodes);
    r := weights;
    if link.target in index {
      var u, v := index[id], index[link.target];
      if u != v {
        var w := if link.weight > 0.0 then link.weight else 0.5;
        var key := if u < v then (u, v) else (v, u);
        r := weights[key := EdgeWeight(weights, u, v) + w];
      }
    }
  }

  /** Every pair has the weight the rows' links give it. */
  ghost predicate WeightsOf(rows: seq<EntityRow>, nodes: seq<string>, weights: Weights) {
    forall a: nat, b: nat :: a < |nodes| && b < |nodes| && a != b ==>
      EdgeWeight(weights, a, b) == Folded(rows, nodes[a], nodes[b])
  }

  lemma WeightsOfMore(rows: seq<EntityRow>, k: nat, nodes: seq<string>, before: Weights, after: Weights)
    requires k < |rows| && WeightsOf(rows[..k], nodes, before)
    requires forall a: nat, b: nat :: a < |nodes| && b < |nodes| && a != b ==>
      EdgeWeight(after, a, b) == EdgeWeight(before, a, b) + FoldedLinks(rows[k].id, rows[k].links, nodes[a], nodes[b])
    ensures WeightsOf(rows[..k + 1], nodes, after)
  {
    assert rows[..k + 1][..k] == rows[..k];
  }

  method FoldLinks(rows: seq<EntityRow>, nodes: seq<string>) returns (weights: Weights)
    requires nodes == SortedIds(rows)
    ensures ProperWeights(weights, |nodes|) && WeightsOf(rows, nodes, weights)
  {
    var index := IndexOf(nodes);
    weights := map[];
    for i := 0 to |rows|
      invariant ProperWeights(weights, |nodes|) && WeightsOf(rows[..i], nodes, weights)
    {
      ghost var before := weights;
      weights := FoldRow(weights, index, nodes, rows[i]);
      WeightsOfMore(rows, i, nodes, before, weights);
    }
    assert rows[..|rows|] == rows;
  }

  /** The inner loop: the links of one row. */
  method FoldRow(weights0: Weights, index: map<string, nat>, ghost nodes: seq<string>, row: EntityRow)
    returns (weights: Weights)
    requires Ascending(nodes) && (forall x :: x in index <==> x in nodes)
    requires forall x :: x in index ==> index[x] < |nodes| && nodes[index[x]] == x
    requires row.id in nodes && ProperWeights(weights0, |nodes|)
    ensures ProperWeights(weights, |nodes|)
    ensures forall a: nat, b: nat :: a < |nodes| && b < |nodes| && a != b ==>
      EdgeWeight(weights, a, b) == EdgeWeight(weights0, a, b) + FoldedLinks(row.id, row.links, nodes[a], nodes[b])
  {
    weights := weights0;
    for j := 0 to |row.links|
      invariant ProperWeights(weights, |nodes|)
      invariant forall a: nat, b: nat :: a < |nodes| && b < |nodes| && a != b ==>
        EdgeWeight(weights, a, b) == EdgeWeight(weights0, a, b) +
          FoldedLinks(row.id, row.links[..j], nodes[a], nodes[b])
    {
      assert row.links[..j + 1][..j] == row.links[..j];
      weights := AddLink(weights, index, nodes, row.id, row.links[j]);
    }
    assert row.links[..|row.links|] == row.links;
  }

  /** The pair {x, y} comes before the pair (u, v) in key order. */
  predicate Done(u: nat, v: nat, x: nat, y: nat) {
    var lo, hi := if x < y then x else y, if x < y then y else x;
    lo < u || (lo == u && hi < v)
  }

  /** Adjacency of node x once all pairs before (u, v) have been pushed. */
  ghost predicate Pushed(list: seq<Neighbour>, weights: Weights, n: nat, x: nat, u: nat, v: nat) {
    && ProperList(list, x, n) && SortedList(list)
    && (forall i :: 0 <= i < |list| ==> Done(u, v, x, list[i].node))
    && (forall y: nat :: y < n && y != x ==>
         ListWeight(list, y) == if Done(u, v, x, y) then EdgeWeight(weights, x, y) else 0.0)
  }

  lemma PushEntry(list: seq<Neighbour>, weights: Weights, n: nat, x: nat, y: nat, u: nat, v: nat)
    requires u < v < n && ((x == u && y == v) || (x == v && y == u))
    requires ProperWeights(weights, n) && (u, v) in weights
    requires Pushed(list, weights, n, x, u, v)
    ensures Pushed(list + [Neighbour(y, weights[(u, v)])], weights, n, x, u, v + 1)
  {
    var r := list + [Neighbour(y, weights[(u, v)])];
    forall z: nat | z < n && z != x
      ensures ListWeight(r, z) == if Done(u, v + 1, x, z) then EdgeWeight(weights, x, z) else 0.0
    {
      ListWeightMore(list, Neighbour(y, weights[(u, v)]), z);
      DoneMore(u, v, x, y, z);
    }
    forall i | 0 <= i < |r| ensures Done(u, v + 1, x, r[i].node) { DoneMore(u, v, x, y, r[i].node); }
  }

  lemma ListWeightMore(list: seq<Neighbour>, e: Neighbour, z: nat)
    ensures ListWeight(list + [e], z) == ListWeight(list, z) + if e.node == z then e.weight else 0.0
  {
    assert (list + [e])[..|list|] == list;
  }

  lemma DoneMore(u: nat, v: nat, x: nat, y: nat, z: nat)
    requires u < v && ((x == u && y == v) || (x == v && y == u))
    ensures z != x ==> (Done(u, v + 1, x, z) <==> Done(u, v, x, z) || z == y)
    ensures Done(u, v, x, z) ==> Done(u, v + 1, x, z)
  {}

  lemma SkipPair(list: seq<Neighbour>, weights: Weights, n: nat, x: nat, u: nat, v: nat)
    requires u < v < n && Pushed(list, weights, n, x, u, v)
    requires (u, v) !in weights || (x != u && x != v)
    ensures Pushed(list, weights, n, x, u, v + 1)
  {}

  /** Finishing row u is the same as starting row u + 1. */
  lemma NextRow(list: seq<Neighbour>, weights: Weights, n: nat, x: nat, u: nat)
    requires u < n && x < n && Pushed(list, weights, n, x, u, n)
    ensures Pushed(list, weights, n, x, u + 1, u + 2)
  {
    forall z: nat | z < n && z != x ensures Done(u, n, x, z) <==> Done(u + 1, u + 2, x, z) {}
  }

  lemma LastRow(list: seq<Neighbour>, weights: Weights, n: nat, x: nat)
    requires x < n && Pushed(list, weights, n, x, n, n + 1)
    ensures Pushed(list, weights, n, x, n, n)
  {
    forall z: nat | z < n && z != x ensures Done(n, n + 1, x, z) <==> Done(n, n, x, z) {}
  }

  ghost predicate AllPushed(adj: seq<seq<Neighbour>>, weights: Weights, n: nat, u: nat, v: nat) {
    |adj| == n && forall x: nat :: x < n ==> Pushed(adj[x], weights, n, x, u, v)
  }

  /** Push both directions of the pair (u, v) if it carries weight. */
  method PushPair(adj: seq<seq<Neighbour>>, weights: Weights, n: nat, u: nat, v: nat) returns (r: seq<seq<Neighbour>>)
    requires u < v < n && ProperWeights(weights, n) && AllPushed(adj, weights, n, u, v)
    ensures AllPushed(r, weights, n, u, v + 1)
  {
    r := adj;
    if (u, v) in weights {
      var w := weights[(u, v)];
      r := adj[u := adj[u] + [Neighbour(v, w)]][v := adj[v] + [Neighbour(u, w)]];
      PushEntry(adj[u], weights, n, u, v, u, v);
      PushEntry(adj[v], weights, n, v, u, u, v);
    }
    forall x: nat | x < n ensures Pushed(r[x], weights, n, x, u, v + 1) {
      if (u, v) !in weights || (x != u && x != v) { SkipPair(adj[x], weights, n, x, u, v); }
    }
  }

  ghost function UpperRow(weights: Weights, n: nat, u: nat): real {
    Sum(n, (v: nat) => if u < v then EdgeWeight(weights, u, v) else 0.0)
  }

  /** Push both directions of every folded edge, in ascending key order. The
      lists come out sorted, so the program's final per-list sort is the identity. */
  method BuildAdjacency(weights: Weights, n: nat) returns (adj: seq<seq<Neighbour>>, total: real)
    requires ProperWeights(weights, n)
    ensures |adj| == n
    ensures forall x: nat :: x < n ==> Pushed(adj[x], weights, n, x, n, n)
    ensures total == Sum(n, (u: nat) => UpperRow(weights, n, u))
  {
    adj := seq(n, _ => []);
    total := 0.0;
    for u := 0 to n
      invariant AllPushed(adj, weights, n, u, u + 1)
      invariant total == Sum(u, (x: nat) => UpperRow(weights, n, x))
    {
      adj, total := BuildRow(adj, total, weights, n, u);
    }
    forall x: nat | x < n ensures Pushed(adj[x], weights, n, x, n, n) { LastRow(adj[x], weights, n, x); }
  }

  /** One round of the outer loop. */
  method BuildRow(adj0: seq<seq<Neighbour>>, total0: real, weights: Weights, n: nat, u: nat)
    returns (adj: seq<seq<Neighbour>>, total: real)
    requires u < n && ProperWeights(weights, n) && AllPushed(adj0, weights, n, u, u + 1)
    ensures AllPushed(adj, weights, n, u + 1, u + 2)
    ensures total == total0 + UpperRow(weights, n, u)
  {
    adj, total := adj0, total0;
    ghost var row := (v: nat) => if u < v then EdgeWeight(weights, u, v) else 0.0;
    SumZero(u + 1, row);
    for v := u + 1 to n
      invariant AllPushed(adj, weights, n, u, v)
      invariant total == total0 + Sum(v, row)
    {
      adj := PushPair(adj, weights, n, u, v);
      total := total + EdgeWeight(weights, u, v);
    }
    forall x: nat | x < n ensures Pushed(adj[x], weights, n, x, u + 1, u + 2) { NextRow(adj[x], weights, n, x, u); }
  }

  /** Folding yields a well-formed graph on the sorted row ids in which the edge
      between two nodes carries exactly the weight of the links joining them. */
  method Build(rows: seq<EntityRow>) returns (g: LinkGraph)
    ensures WellFormed(g)
    ensures g.nodes == SortedIds(rows)
    ensures forall a: nat, b: nat :: a < |g.nodes| && b < |g.nodes| && a != b ==>
      Weight(g, a, b) == Folded(rows, g.nodes[a], g.nodes[b])
  {
    var nodes := SortedIds(rows);
    var n := |nodes|;
    var weights := FoldLinks(rows, nodes);
    var adj, total := BuildAdjacency(weights, n);
    g := LinkGraph(nodes, adj, total);
    forall u: nat, v: nat | u < n && v < n && u != v ensures Weight(g, u, v) == EdgeWeight(weights, u, v) {
      assert Pushed(adj[u], weights, n, u, n, n);
    }
    forall u: nat | u < n ensures Weight(g, u, u) == 0.0 { ListWeightBounds(adj[u], u, n, u); }
    EdgeTotalByRows(g, weights);
  }

  lemma EdgeTotalByRows(g: LinkGraph, weights: Weights)
    requires forall u: nat, v: nat :: u < |g.adj| && v < |g.adj| && u != v ==>
      Weight(g, u, v) == EdgeWeight(weights, u, v)
    ensures EdgeTotal(g) == Sum(|g.adj|, (u: nat) => UpperRow(weights, |g.adj|, u))
  {
    var n := |g.adj|;
    var upper := (u: nat, v: nat) => if u < v then Weight(g, u, v) else 0.0;
    forall u: nat | u < n ensures Row(n, upper, u) == UpperRow(weights, n, u) {
      SumEq(n, (v: nat) => upper(u, v), (v: nat) => if u < v then EdgeWeight(weights, u, v) else 0.0);
    }
    SumEq(n, (u: nat) => Row(n, upper, u), (u: nat) => UpperRow(weights, n, u));
  }
}
