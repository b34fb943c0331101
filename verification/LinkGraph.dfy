/** The undirected weighted view of the entity link graph of one workspace
    (src/communities.rs): its representation, what makes a graph well formed,
    and the paths that define its connected components. */
module LinkGraphs {
  import opened RealSums

  /** One adjacency entry: the neighbour's index and the folded edge weight. */
  datatype Neighbour = Neighbour(node: nat, weight: real)

  /** `adj[u]` lists the neighbours of node u; `totalWeight` counts every
      undirected edge once. */
  datatype LinkGraph = LinkGraph(nodes: seq<string>, adj: seq<seq<Neighbour>>, totalWeight: real)

  /** The weight that an adjacency list gives to node v. */
  function ListWeight(list: seq<Neighbour>, v: nat): real {
    if list == [] then 0.0
    else ListWeight(list[..|list| - 1], v)
         + if list[|list| - 1].node == v then list[|list| - 1].weight else 0.0
  }

  /** Matrix view of the adjacency lists; 0 off the graph. */
  function Weight(g: LinkGraph, u: nat, v: nat): real {
    if u < |g.adj| then ListWeight(g.adj[u], v) else 0.0
  }

  function Degree(g: LinkGraph, u: nat): real {
    Sum(|g.adj|, (v: nat) => Weight(g, u, v))
  }

  /** Weight of the undirected edges, each counted once. */
  function EdgeTotal(g: LinkGraph): real {
    Total(|g.adj|, (u: nat, v: nat) => if u < v then Weight(g, u, v) else 0.0)
  }

  ghost predicate SortedList(list: seq<Neighbour>) {
    forall i, j :: 0 <= i < j < |list| ==> list[i].node < list[j].node
  }

  /** Entries name other nodes of an n-node graph and carry positive weight. */
  ghost predicate ProperList(list: seq<Neighbour>, u: nat, n: nat) {
    forall i :: 0 <= i < |list| ==> list[i].node < n && list[i].node != u && list[i].weight > 0.0
  }

  /** What `build_graph` establishes and both detection algorithms rely on. */
  ghost predicate WellFormed(g: LinkGraph) {
    && |g.nodes| == |g.adj|
    && (forall u :: 0 <= u < |g.adj| ==> ProperList(g.adj[u], u, |g.adj|) && SortedList(g.adj[u]))
    && (forall u: nat, v: nat :: u < |g.adj| && v < |g.adj| ==> Weight(g, u, v) == Weight(g, v, u))
    && g.totalWeight == EdgeTotal(g)
  }

  type ProperGraph = g: LinkGraph | WellFormed(g) ghost witness LinkGraph([], [], 0.0)

  // ------------------------------------------------ lists and matrix entries

  lemma {:induction false} ListWeightBounds(list: seq<Neighbour>, u: nat, n: nat, v: nat)
    requires ProperList(list, u, n)
    ensures ListWeight(list, v) >= 0.0
    ensures ListWeight(list, v) > 0.0 <==> exists i :: 0 <= i < |list| && list[i].node == v
  {
    if list != [] {
      var front := list[..|list| - 1];
      ListWeightBounds(front, u, n, v);
      if i :| 0 <= i < |front| && front[i].node == v { assert list[i].node == v; }
      if i :| 0 <= i < |list| && list[i].node == v { assert i < |front| ==> front[i].node == v; }
    }
  }

  lemma WeightFacts(g: LinkGraph, u: nat, v: nat)
    requires WellFormed(g) && u < |g.adj|
    ensures Weight(g, u, v) >= 0.0
    ensures Weight(g, u, u) == 0.0
    ensures Weight(g, u, v) > 0.0 <==> exists i :: 0 <= i < |g.adj[u]| && g.adj[u][i].node == v
  {
    ListWeightBounds(g.adj[u], u, |g.adj|, v);
    ListWeightBounds(g.adj[u], u, |g.adj|, u);
  }

  /** Weight of the entries of a list whose node satisfies p. */
  function ListSum(list: seq<Neighbour>, p: nat -> bool): real {
    if list == [] then 0.0
    else ListSum(list[..|list| - 1], p)
         + if p(list[|list| - 1].node) then list[|list| - 1].weight else 0.0
  }

  /** Sum of the weights in one adjacency list. */
  function ListTotal(list: seq<Neighbour>): real {
    ListSum(list, (v: nat) => true)
  }

  /** Walking an adjacency list adds up the same weight as walking the matrix row. */
  lemma {:induction false} ListSumIsRowSum(list: seq<Neighbour>, n: nat, p: nat -> bool, f: nat -> real)
    requires forall i :: 0 <= i < |list| ==> list[i].node < n
    requires forall v: nat :: v < n ==> f(v) == if p(v) then ListWeight(list, v) else 0.0
    ensures ListSum(list, p) == Sum(n, f)
  {
    if list == [] {
      SumZero(n, f);
    } else {
      var front, last := list[..|list| - 1], list[|list| - 1];
      var before := (v: nat) => if p(v) then ListWeight(front, v) else 0.0;
      ListSumIsRowSum(front, n, p, before);
      SumUpdate(n, last.node, before, f);
    }
  }

  lemma DegreeIsListSum(g: LinkGraph, u: nat)
    requires WellFormed(g) && u < |g.adj|
    ensures Degree(g, u) == ListTotal(g.adj[u])
    ensures Degree(g, u) >= 0.0
  {
    ListSumIsRowSum(g.adj[u], |g.adj|, (v: nat) => true, (v: nat) => Weight(g, u, v));
    forall v: nat | v < |g.adj| ensures Weight(g, u, v) >= 0.0 { WeightFacts(g, u, v); }
    var zero := (v: nat) => 0.0;
    SumZero(|g.adj|, zero);
    SumMono(|g.adj|, zero, (v: nat) => Weight(g, u, v));
  }

  /** The whole weight matrix sums to twice the total weight. */
  lemma MatrixSumsToTwiceTotal(g: LinkGraph)
    requires WellFormed(g)
    ensures Total(|g.adj|, (u: nat, v: nat) => Weight(g, u, v)) == 2.0 * g.totalWeight
  {
    var w := (u: nat, v: nat) => Weight(g, u, v);
    forall u: nat | u < |g.adj| ensures w(u, u) == 0.0 { WeightFacts(g, u, u); }
    Handshake(|g.adj|, w, (u: nat, v: nat) => if u < v then Weight(g, u, v) else 0.0);
  }

  /** Handshake identity: the degrees add up to twice the total weight. */
  lemma DegreesSumToTwiceTotal(g: LinkGraph)
    requires WellFormed(g)
    ensures Sum(|g.adj|, (u: nat) => Degree(g, u)) == 2.0 * g.totalWeight
  {
    var n := |g.adj|;
    var w := (u: nat, v: nat) => Weight(g, u, v);
    MatrixSumsToTwiceTotal(g);
    forall u: nat | u < n ensures Degree(g, u) == Row(n, w, u) {
      SumEq(n, (v: nat) => Weight(g, u, v), (v: nat) => w(u, v));
    }
    SumEq(n, (u: nat) => Degree(g, u), (u: nat) => Row(n, w, u));
  }

  /** A well-formed graph has total weight zero exactly when it has no edges. */
  lemma EdgelessIffWeightless(g: LinkGraph)
    requires WellFormed(g)
    ensures g.totalWeight >= 0.0
    ensures g.totalWeight == 0.0 <==> forall u :: 0 <= u < |g.adj| ==> g.adj[u] == []
  {
    var n := |g.adj|;
    var deg := (u: nat) => Degree(g, u);
    DegreesSumToTwiceTotal(g);
    forall u: nat | u < n ensures deg(u) >= 0.0 { DegreeIsListSum(g, u); }
    SumMono(n, (u: nat) => 0.0, deg);
    SumZero(n, (u: nat) => 0.0);
    if g.totalWeight == 0.0 {
      forall u | 0 <= u < n ensures g.adj[u] == [] {
        if g.adj[u] != [] {
          var v := g.adj[u][0].node;
          WeightFacts(g, u, v);
          forall x: nat | x < n ensures Weight(g, u, x) >= 0.0 { WeightFacts(g, u, x); }
          TermAtMostSum(n, v, (x: nat) => Weight(g, u, x));
          TermAtMostSum(n, u, deg);
          assert false;
        }
      }
    }
    if forall u :: 0 <= u < n ==> g.adj[u] == [] {
      forall u: nat | u < n ensures deg(u) == 0.0 { DegreeIsListSum(g, u); }
      SumZero(n, deg);
    }
  }

  // ------------------------------------------------------------- components

  ghost predicate Adjacent(g: LinkGraph, u: nat, v: nat) {
    u < |g.adj| && v < |g.adj| && Weight(g, u, v) > 0.0
  }

  ghost predicate IsPath(g: LinkGraph, p: seq<nat>) {
    && |p| > 0
    && (forall i :: 0 <= i < |p| ==> p[i] < |g.adj|)
    && (forall i :: 0 <= i < |p| - 1 ==> Adjacent(g, p[i], p[i + 1]))
  }

  /** u and v are joined by a path of edges: they share a connected component. */
  ghost predicate Joined(g: LinkGraph, u: nat, v: nat) {
    exists p: seq<nat> :: IsPath(g, p) && p[0] == u && p[|p| - 1] == v
  }

  lemma JoinedReflexive(g: LinkGraph, u: nat)
    requires u < |g.adj|
    ensures Joined(g, u, u)
  {
    var p := [u];
    assert IsPath(g, p) && p[0] == u && p[|p| - 1] == u;
  }

  lemma JoinedByEdge(g: LinkGraph, u: nat, v: nat)
    requires Adjacent(g, u, v)
    ensures Joined(g, u, v)
  {
    var p := [u, v];
    assert IsPath(g, p) && p[0] == u && p[|p| - 1] == v;
  }

  lemma JoinedTransitive(g: LinkGraph, u: nat, v: nat, w: nat)
    requires Joined(g, u, v) && Joined(g, v, w)
    ensures Joined(g, u, w)
  {
    var p: seq<nat> :| IsPath(g, p) && p[0] == u && p[|p| - 1] == v;
    var q: seq<nat> :| IsPath(g, q) && q[0] == v && q[|q| - 1] == w;
    var r := p + q[1..];
    forall i | 0 <= i < |r| - 1 ensures Adjacent(g, r[i], r[i + 1]) {
      if i >= |p| - 1 { assert r[i + 1] == q[i + 2 - |p|] && r[i] == q[i + 1 - |p|]; }
    }
    assert IsPath(g, r) && r[0] == u && r[|r| - 1] == w;
  }

  lemma JoinedSymmetric(g: LinkGraph, u: nat, v: nat)
    requires WellFormed(g) && Joined(g, u, v)
    ensures Joined(g, v, u)
  {
    var p: seq<nat> :| IsPath(g, p) && p[0] == u && p[|p| - 1] == v;
    var r := seq(|p|, i requires 0 <= i < |p| => p[|p| - 1 - i]);
    forall i | 0 <= i < |r| - 1 ensures Adjacent(g, r[i], r[i + 1]) {
      assert Adjacent(g, p[|p| - 2 - i], p[|p| - 1 - i]);
    }
    assert IsPath(g, r) && r[0] == v && r[|r| - 1] == u;
  }

  /** Every node is joined to the node its label names. Both detection
      algorithms keep this, because a label is only ever copied along an edge. */
  ghost predicate LabelsFollowPaths(g: LinkGraph, labels: seq<nat>) {
    && |labels| == |g.adj|
    && forall u :: 0 <= u < |labels| ==> labels[u] < |g.adj| && Joined(g, u, labels[u])
  }

  /** No community spans two connected components. */
  ghost predicate CommunitiesConnected(g: LinkGraph, labels: seq<nat>)
    requires |labels| == |g.adj|
  {
    forall u, v :: 0 <= u < |labels| && 0 <= v < |labels| && labels[u] == labels[v] ==> Joined(g, u, v)
  }

  lemma PathsGiveConnectedCommunities(g: LinkGraph, labels: seq<nat>)
    requires WellFormed(g) && LabelsFollowPaths(g, labels)
    ensures CommunitiesConnected(g, labels)
  {
    forall u, v | 0 <= u < |labels| && 0 <= v < |labels| && labels[u] == labels[v] ensures Joined(g, u, v) {
      JoinedSymmetric(g, v, labels[v]);
      JoinedTransitive(g, u, labels[u], v);
    }
  }

  function Singletons(n: nat): (labels: seq<nat>) {
    seq(n, i => i)
  }

  lemma SingletonsFollowPaths(g: LinkGraph)
    ensures LabelsFollowPaths(g, Singletons(|g.adj|))
  {
    forall u | 0 <= u < |g.adj| ensures Joined(g, u, u) { JoinedReflexive(g, u); }
  }

  /** Adopting a neighbour's label keeps labels on paths. */
  lemma AdoptingKeepsPaths(g: LinkGraph, labels: seq<nat>, u: nat, k: nat)
    requires WellFormed(g) && LabelsFollowPaths(g, labels)
    requires u < |g.adj| && k < |g.adj[u]|
    ensures LabelsFollowPaths(g, labels[u := labels[g.adj[u][k].node]])
  {
    var v := g.adj[u][k].node;
    WeightFacts(g, u, v);
    JoinedByEdge(g, u, v);
    JoinedTransitive(g, u, v, labels[v]);
  }
}
