/** What the overlap factor of label propagation does (src/communities.rs,
    `label_propagation`): an edge pulls with its weight times one plus the number of
    nodes that both its ends are linked to. So an edge inside a clique outweighs a lone
    bridge, and labels do not leak from one clique to another across it. */
module LabelOverlap {
  import opened LinkGraphs
  import opened RealSums
  import opened Sets
  import opened Modularity
  import opened GreedyModularity
  import opened LabelPropagation
  import opened LabelTermination

  /** The nodes linked to both u and v. */
  ghost function LinkedToBoth(g: LinkGraph, u: nat, v: nat): set<nat> {
    set w: nat | w < |g.adj| && Weight(g, u, w) > 0.0 && Weight(g, v, w) > 0.0
  }

  lemma NeighboursByWeight(g: ProperGraph, u: nat)
    requires u < |g.adj|
    ensures forall w: nat :: w in NeighbourSet(g, u) <==> w < |g.adj| && Weight(g, u, w) > 0.0
  {
    forall w: nat ensures w in NeighbourSet(g, u) <==> w < |g.adj| && Weight(g, u, w) > 0.0 {
      WeightFacts(g, u, w);
    }
  }

  /** The effective weight of any two nodes, in terms of the matrix alone. */
  lemma OverlapFactor(g: ProperGraph, h: LinkGraph, u: nat, v: nat)
    requires IsReweighted(g, h) && u < |g.adj| && v < |g.adj|
    ensures Weight(h, u, v) == Weight(g, u, v) * (1.0 + |LinkedToBoth(g, u, v)| as real)
  {
    PullBetween(g, h, u, v);
    CommonAreLinked(g, u, v);
    PullIsProduct(|LinkedToBoth(g, u, v)|, Weight(g, u, v));
  }

  lemma CommonAreLinked(g: ProperGraph, u: nat, v: nat)
    requires u < |g.adj| && v < |g.adj|
    ensures CommonNeighbours(g, u, v) == |LinkedToBoth(g, u, v)|
  {
    NeighboursByWeight(g, u);
    NeighboursByWeight(g, v);
    assert NeighbourSet(g, u) * NeighbourSet(g, v) == LinkedToBoth(g, u, v);
  }

  lemma PullIsProduct(common: nat, weight: real)
    ensures PullOn(common, weight) == weight * (1.0 + common as real)
  {}

  // ------------------------------------------------------------ two bridged cliques

  predicate Bridge(a: nat, b: nat, u: nat, v: nat) {
    (u == a && v == b) || (u == b && v == a)
  }

  predicate Linked(side: set<nat>, a: nat, b: nat, u: nat, v: nat) {
    u != v && ((u in side <==> v in side) || Bridge(a, b, u, v))
  }

  /** Two cliques, the nodes in `side` and the others, joined by the edge from a to b;
      every edge has weight w. */
  ghost predicate TwoCliques(g: LinkGraph, side: set<nat>, a: nat, b: nat, w: real) {
    && a in side && b !in side && b < |g.adj| && (forall x :: x in side ==> x < |g.adj|)
    && forall u: nat, v: nat :: u < |g.adj| && v < |g.adj| ==>
         Weight(g, u, v) == if Linked(side, a, b, u, v) then w else 0.0
  }

  /** The clique of u. */
  ghost function CliqueOf(n: nat, side: set<nat>, u: nat): set<nat> {
    set x: nat | x < n && (x in side <==> u in side)
  }

  /** Every edge inside a clique pulls more than the bridge, by more than the tolerance. */
  ghost predicate Tight(n: nat, side: set<nat>, w: real) {
    forall u: nat :: u < n ==> Surplus(|CliqueOf(n, side, u)|, w) > EPSILON
  }

  /** How much more a clique edge pulls than the bridge. */
  function Surplus(size: nat, w: real): real { (size as real - 2.0) * w }

  lemma PullInside(g: ProperGraph, h: LinkGraph, side: set<nat>, a: nat, b: nat, w: real, u: nat, v: nat)
    requires IsReweighted(g, h) && TwoCliques(g, side, a, b, w) && w > 0.0
    requires u < |g.adj| && v < |g.adj| && u != v && (u in side <==> v in side)
    ensures Weight(h, u, v) == w + Surplus(|CliqueOf(|g.adj|, side, u)|, w)
  {
    LinkedPull(g, h, u, v, w);
    LinkedInside(g, side, a, b, w, u, v);
    SurplusOf(|LinkedToBoth(g, u, v)|, w);
  }

  lemma LinkedPull(g: ProperGraph, h: LinkGraph, u: nat, v: nat, w: real)
    requires IsReweighted(g, h) && u < |g.adj| && v < |g.adj| && Weight(g, u, v) == w
    ensures Weight(h, u, v) == PullOn(|LinkedToBoth(g, u, v)|, w)
  {
    PullBetween(g, h, u, v);
    CommonAreLinked(g, u, v);
  }

  lemma LinkedInside(g: LinkGraph, side: set<nat>, a: nat, b: nat, w: real, u: nat, v: nat)
    requires TwoCliques(g, side, a, b, w) && w > 0.0
    requires u < |g.adj| && v < |g.adj| && u != v && (u in side <==> v in side)
    ensures |CliqueOf(|g.adj|, side, u)| == |LinkedToBoth(g, u, v)| + 2
  {
    var clique, both := CliqueOf(|g.adj|, side, u), LinkedToBoth(g, u, v);
    forall x: nat | x < |g.adj| ensures x in both <==> x in clique && x != u && x != v {
      assert Weight(g, u, x) == if Linked(side, a, b, u, x) then w else 0.0;
      assert Weight(g, v, x) == if Linked(side, a, b, v, x) then w else 0.0;
    }
    assert clique == both + {u, v};
  }

  lemma SurplusOf(common: nat, w: real)
    ensures PullOn(common, w) == w + Surplus(common + 2, w)
  {}

  lemma PullAcross(g: ProperGraph, h: LinkGraph, side: set<nat>, a: nat, b: nat, w: real, u: nat, v: nat)
    requires IsReweighted(g, h) && TwoCliques(g, side, a, b, w) && w > 0.0
    requires u < |g.adj| && v < |g.adj| && !(u in side <==> v in side)
    ensures Weight(h, u, v) == if Bridge(a, b, u, v) then w else 0.0
  {
    if Bridge(a, b, u, v) {
      LinkedPull(g, h, u, v, w);
      NothingAcross(g, side, a, b, w, u, v);
      SurplusOf(0, w);
    } else {
      LinkedPull(g, h, u, v, 0.0);
    }
  }

  lemma NothingAcross(g: LinkGraph, side: set<nat>, a: nat, b: nat, w: real, u: nat, v: nat)
    requires TwoCliques(g, side, a, b, w) && Bridge(a, b, u, v)
    ensures |LinkedToBoth(g, u, v)| == 0
  {
    forall x: nat | x < |g.adj| ensures x !in LinkedToBoth(g, u, v) {
      assert Weight(g, u, x) == if Linked(side, a, b, u, x) then w else 0.0;
      assert Weight(g, v, x) == if Linked(side, a, b, v, x) then w else 0.0;
    }
    assert LinkedToBoth(g, u, v) == {};
  }

  // ------------------------------------------------------------------- separation

  /** Every node holds the label of a node of its own clique. */
  ghost predicate Separate(n: nat, side: set<nat>, labels: seq<nat>) {
    |labels| == n && forall u: nat :: u < n ==> labels[u] < n && (labels[u] in side <==> u in side)
  }

  /** A label from the other clique comes over the bridge alone. */
  lemma ForeignPull(g: ProperGraph, h: LinkGraph, side: set<nat>, a: nat, b: nat, w: real, labels: seq<nat>, u: nat,
                    c: nat)
    requires IsReweighted(g, h) && TwoCliques(g, side, a, b, w) && w > 0.0 && Separate(|g.adj|, side, labels)
    requires u < |g.adj| && !(c in side <==> u in side)
    ensures WeightTo(h, labels, u, c) <= w
  {
    var n := |g.adj|;
    var pull := (v: nat) => if HasLabel(labels, v, c) then Weight(h, u, v) else 0.0;
    var far := if u == a then b else a;
    var lone := (v: nat) => if v == far then w else 0.0;
    forall v: nat | v < n ensures pull(v) <= lone(v) {
      if HasLabel(labels, v, c) { PullAcross(g, h, side, a, b, w, u, v); }
    }
    SumMono(n, pull, lone);
    SumOnly(n, far, lone);
  }

  /** The label of a clique mate pulls with at least the clique edge. */
  lemma DomesticPull(g: ProperGraph, h: LinkGraph, side: set<nat>, a: nat, b: nat, w: real, labels: seq<nat>, u: nat,
                     v: nat)
    requires IsReweighted(g, h) && TwoCliques(g, side, a, b, w) && w > 0.0 && |labels| == |g.adj|
    requires u < |g.adj| && v < |g.adj| && u != v && (u in side <==> v in side)
    ensures WeightTo(h, labels, u, labels[v]) >= w + Surplus(|CliqueOf(|g.adj|, side, u)|, w)
    ensures NeighbourLabel(g, labels, u, labels[v])
  {
    var pull := (x: nat) => if HasLabel(labels, x, labels[v]) then Weight(h, u, x) else 0.0;
    forall x: nat | x < |g.adj| ensures pull(x) >= 0.0 { PullFacts(g, h, u, x); }
    TermAtMostSum(|g.adj|, v, pull);
    PullInside(g, h, side, a, b, w, u, v);
    WeightFacts(g, u, v);
  }

  lemma AdoptKeepsSeparate(g: ProperGraph, h: LinkGraph, side: set<nat>, a: nat, b: nat, w: real, labels: seq<nat>,
                           u: nat)
    requires IsReweighted(g, h) && TwoCliques(g, side, a, b, w) && w > 0.0 && Tight(|g.adj|, side, w)
    requires Separate(|g.adj|, side, labels) && u < |g.adj|
    ensures Separate(|g.adj|, side, Adopt(g, h, labels, u))
  {
    var best := Strongest(g, h, labels, u, |g.adj|);
    StrongestIsBest(g, h, labels, u, |g.adj|);
    if best.Favourite? && !(best.community in side <==> u in side) {
      var v := CliqueMate(|g.adj|, side, w, u);
      ForeignPull(g, h, side, a, b, w, labels, u, best.community);
      DomesticPull(g, h, side, a, b, w, labels, u, v);
    }
  }

  lemma CliqueMate(n: nat, side: set<nat>, w: real, u: nat) returns (v: nat)
    requires Tight(n, side, w) && w > 0.0 && u < n
    ensures v < n && v != u && (v in side <==> u in side)
  {
    var clique := CliqueOf(n, side, u);
    assert Surplus(|clique|, w) > EPSILON;
    SurplusMeansThree(|clique|, w);
    if clique <= {u} { SubsetCardinality(clique, {u}); }
    v :| v in clique && v != u;
  }

  lemma SurplusMeansThree(size: nat, w: real)
    requires Surplus(size, w) > 0.0 && w > 0.0
    ensures size > 2
  {
    assert size <= 2 ==> (2.0 - size as real) * w >= 0.0;
  }

  /** No visit breaks the separation. */
  ghost predicate KeptApart(g: ProperGraph, h: LinkGraph, side: set<nat>) {
    forall labels: seq<nat>, u: nat :: Separate(|g.adj|, side, labels) && u < |g.adj| ==>
      Separate(|g.adj|, side, Adopt(g, h, labels, u))
  }

  lemma {:induction false} SweepKeepsSeparate(g: ProperGraph, h: LinkGraph, side: set<nat>, labels: seq<nat>, u: nat)
    requires KeptApart(g, h, side) && Separate(|g.adj|, side, labels) && u <= |g.adj|
    ensures Separate(|g.adj|, side, Sweep(g, h, labels, u))
  {
    if u > 0 { SweepKeepsSeparate(g, h, side, labels, u - 1); }
  }

  lemma {:induction false} SweepsKeepSeparate(g: ProperGraph, h: LinkGraph, side: set<nat>, labels: seq<nat>, n: nat)
    requires KeptApart(g, h, side) && Separate(|g.adj|, side, labels)
    ensures Separate(|g.adj|, side, Sweeps(g, h, labels, n))
  {
    if n > 0 {
      SweepsKeepSeparate(g, h, side, labels, n - 1);
      SweepKeepsSeparate(g, h, side, Sweeps(g, h, labels, n - 1), |g.adj|);
    }
  }

  lemma VisitsKeepApart(g: ProperGraph, h: LinkGraph, side: set<nat>, a: nat, b: nat, w: real)
    requires IsReweighted(g, h) && TwoCliques(g, side, a, b, w) && w > 0.0 && Tight(|g.adj|, side, w)
    ensures KeptApart(g, h, side)
  {
    forall labels: seq<nat>, u: nat | Separate(|g.adj|, side, labels) && u < |g.adj|
      ensures Separate(|g.adj|, side, Adopt(g, h, labels, u))
    {
      AdoptKeepsSeparate(g, h, side, a, b, w, labels, u);
    }
  }

  /** The two cliques never share a label. */
  ghost predicate Apart(side: set<nat>, labels: seq<nat>) {
    forall u: nat, v: nat :: u < |labels| && v < |labels| && u in side && v !in side ==> labels[u] != labels[v]
  }

  /** After any number of sweeps from singletons, bridged cliques share no label. */
  lemma CliquesStayApart(g: ProperGraph, side: set<nat>, a: nat, b: nat, w: real, n: nat)
    requires TwoCliques(g, side, a, b, w) && w > 0.0 && Tight(|g.adj|, side, w)
    ensures Apart(side, Sweeps(g, Reweighted(g), Singletons(|g.adj|), n))
  {
    VisitsKeepApart(g, Reweighted(g), side, a, b, w);
    SweepsKeepSeparate(g, Reweighted(g), side, Singletons(|g.adj|), n);
  }

  // ------------------------------------------------------------- when they do share

  /** The smallest neighbouring label wins if none beats it by more than the tolerance. */
  lemma {:induction false} SmallestWins(g: ProperGraph, h: LinkGraph, labels: seq<nat>, u: nat, c: nat, k: nat)
    requires |labels| == |g.adj| && u < |g.adj| && c < k && NeighbourLabel(g, labels, u, c)
    requires forall d: nat :: NeighbourLabel(g, labels, u, d) ==>
      c <= d && WeightTo(h, labels, u, d) <= WeightTo(h, labels, u, c) + EPSILON
    ensures Strongest(g, h, labels, u, k) == Favourite(c, WeightTo(h, labels, u, c))
  {
    if c < k - 1 { SmallestWins(g, h, labels, u, c, k - 1); } else { StrongestIsBest(g, h, labels, u, c); }
  }

  /** The second clique holds the nodes from p on, and its end of the bridge is p. */
  ghost predicate SecondClique(g: LinkGraph, p: nat, b: nat, w: real) {
    p < |g.adj| && TwoCliques(g, From(p, |g.adj|), p, b, w)
  }

  ghost function From(p: nat, n: nat): (r: set<nat>)
    requires p <= n
    ensures |r| == n - p && forall x: nat :: x in r <==> p <= x < n
  {
    assert FirstNaturals(p) <= FirstNaturals(n);
    FirstNaturals(n) - FirstNaturals(p)
  }

  /** Before p is visited, the first clique holds labels up to p and the second its own. */
  ghost predicate NotYet(p: nat, labels: seq<nat>) {
    forall x: nat :: x < |labels| ==> if x < p then labels[x] <= p else labels[x] == x
  }

  /** No visit before p changes that. */
  ghost predicate EarlyKept(g: ProperGraph, h: LinkGraph, p: nat) {
    forall labels: seq<nat>, u: nat :: |labels| == |g.adj| && NotYet(p, labels) && u < p && u < |g.adj| ==>
      NotYet(p, Adopt(g, h, labels, u))
  }

  lemma {:induction false} FirstVisits(g: ProperGraph, h: LinkGraph, p: nat, u: nat)
    requires EarlyKept(g, h, p) && u <= p <= |g.adj|
    ensures NotYet(p, Sweep(g, h, Singletons(|g.adj|), u))
  {
    if u > 0 { FirstVisits(g, h, p, u - 1); }
  }

  lemma VisitsAreEarly(g: ProperGraph, h: LinkGraph, p: nat, b: nat, w: real)
    requires SecondClique(g, p, b, w)
    ensures EarlyKept(g, h, p)
  {
    forall labels: seq<nat>, u: nat | |labels| == |g.adj| && NotYet(p, labels) && u < p && u < |g.adj|
      ensures NotYet(p, Adopt(g, h, labels, u))
    {
      EarlyVisit(g, h, p, b, w, labels, u);
    }
  }

  lemma EarlyVisit(g: ProperGraph, h: LinkGraph, p: nat, b: nat, w: real, labels: seq<nat>, u: nat)
    requires SecondClique(g, p, b, w) && u < p && |labels| == |g.adj| && NotYet(p, labels)
    ensures NotYet(p, Adopt(g, h, labels, u))
  {
    StrongestIsBest(g, h, labels, u, |g.adj|);
    var best := Strongest(g, h, labels, u, |g.adj|);
    if best.Favourite? { EarlyNeighbour(g, p, b, w, labels, u, best.community); }
  }

  lemma EarlyNeighbour(g: ProperGraph, p: nat, b: nat, w: real, labels: seq<nat>, u: nat, c: nat)
    requires SecondClique(g, p, b, w) && u < p && |labels| == |g.adj| && NotYet(p, labels)
    requires NeighbourLabel(g, labels, u, c)
    ensures c <= p
  {
    var k :| 0 <= k < |g.adj[u]| && labels[g.adj[u][k].node] == c;
    var v := g.adj[u][k].node;
    WeightFacts(g, u, v);
    assert Linked(From(p, |g.adj|), p, b, u, v);
  }

  /** When p is visited, the label across the bridge is its smallest one, and with so
      small a surplus it wins. */
  lemma BridgeWins(g: ProperGraph, h: LinkGraph, p: nat, b: nat, w: real, labels: seq<nat>)
    requires IsReweighted(g, h) && SecondClique(g, p, b, w) && w > 0.0 && |labels| == |g.adj| && NotYet(p, labels)
    requires Surplus(|From(p, |g.adj|)|, w) <= EPSILON
    ensures Adopt(g, h, labels, p)[p] == labels[b]
  {
    var c := labels[b];
    WeightFacts(g, p, b);
    assert Linked(From(p, |g.adj|), p, b, p, b);
    assert NeighbourLabel(g, labels, p, c);
    BridgePull(g, h, p, b, w, labels);
    forall d: nat | NeighbourLabel(g, labels, p, d)
      ensures c <= d && WeightTo(h, labels, p, d) <= WeightTo(h, labels, p, c) + EPSILON
    {
      if d != c { LaterLabel(g, h, p, b, w, labels, d); }
    }
    SmallestWins(g, h, labels, p, c, |g.adj|);
  }

  lemma BridgePull(g: ProperGraph, h: LinkGraph, p: nat, b: nat, w: real, labels: seq<nat>)
    requires IsReweighted(g, h) && SecondClique(g, p, b, w) && w > 0.0 && |labels| == |g.adj|
    ensures WeightTo(h, labels, p, labels[b]) >= w
  {
    var pull := (x: nat) => if HasLabel(labels, x, labels[b]) then Weight(h, p, x) else 0.0;
    forall x: nat | x < |g.adj| ensures pull(x) >= 0.0 { PullFacts(g, h, p, x); }
    TermAtMostSum(|g.adj|, b, pull);
    PullAcross(g, h, From(p, |g.adj|), p, b, w, p, b);
  }

  /** Any other label on p's list is that of one clique mate, which pulls alone. */
  lemma LaterLabel(g: ProperGraph, h: LinkGraph, p: nat, b: nat, w: real, labels: seq<nat>, d: nat)
    requires IsReweighted(g, h) && SecondClique(g, p, b, w) && w > 0.0 && |labels| == |g.adj| && NotYet(p, labels)
    requires NeighbourLabel(g, labels, p, d) && d != labels[b]
    ensures labels[b] <= p < d && WeightTo(h, labels, p, d) == w + Surplus(|From(p, |g.adj|)|, w)
  {
    LaterMate(g, p, b, w, labels, d);
    LonePull(h, p, labels, d);
    PullInside(g, h, From(p, |g.adj|), p, b, w, p, d);
    assert CliqueOf(|g.adj|, From(p, |g.adj|), p) == From(p, |g.adj|);
  }

  lemma LaterMate(g: ProperGraph, p: nat, b: nat, w: real, labels: seq<nat>, d: nat)
    requires SecondClique(g, p, b, w) && |labels| == |g.adj| && NotYet(p, labels)
    requires NeighbourLabel(g, labels, p, d) && d != labels[b]
    ensures labels[b] <= p < d < |g.adj|
  {
    var k :| 0 <= k < |g.adj[p]| && labels[g.adj[p][k].node] == d;
    var v := g.adj[p][k].node;
    WeightFacts(g, p, v);
    assert Linked(From(p, |g.adj|), p, b, p, v);
  }

  lemma LonePull(h: LinkGraph, p: nat, labels: seq<nat>, d: nat)
    requires |labels| == |h.adj| && NotYet(p, labels) && p < d < |labels|
    ensures WeightTo(h, labels, p, d) == Weight(h, p, d)
  {
    var pull := (x: nat) => if HasLabel(labels, x, d) then Weight(h, p, x) else 0.0;
    forall x: nat | x < |labels| && x != d ensures pull(x) == 0.0 { assert x >= p ==> labels[x] == x; }
    SumOnly(|labels|, d, pull);
  }

  /** One sweep is enough to carry a label over the bridge. */
  lemma LabelLeaks(g: ProperGraph, h: LinkGraph, p: nat, b: nat, w: real)
    requires IsReweighted(g, h) && SecondClique(g, p, b, w) && w > 0.0 && Surplus(|From(p, |g.adj|)|, w) <= EPSILON
    ensures var after := Sweeps(g, h, Singletons(|g.adj|), 1); after[p] == after[b]
  {
    var start, n := Singletons(|g.adj|), |g.adj|;
    VisitsAreEarly(g, h, p, b, w);
    FirstVisits(g, h, p, p);
    BridgeWins(g, h, p, b, w, Sweep(g, h, start, p));
    SweepDecidesOnce(g, h, start, n, p);
    SweepDecidesOnce(g, h, start, n, b);
    SweepDecidesOnce(g, h, start, p, b);
    assert Sweeps(g, h, start, 0) == start;
  }

  // --------------------------------------------------------------- the exact condition

  /** The neighbours of u below k. */
  ghost function CliqueList(side: set<nat>, a: nat, b: nat, w: real, u: nat, k: nat): (list: seq<Neighbour>)
    requires w > 0.0
    ensures SortedList(list) && ProperList(list, u, k)
    ensures forall v: nat :: ListWeight(list, v) == if v < k && Linked(side, a, b, u, v) then w else 0.0
  {
    if k == 0 then []
    else
      var before := CliqueList(side, a, b, w, u, k - 1);
      if Linked(side, a, b, u, k - 1) then
        OneMoreEntry(before, u, k - 1, w);
        before + [Neighbour(k - 1, w)]
      else before
  }

  lemma OneMoreEntry(list: seq<Neighbour>, u: nat, k: nat, w: real)
    requires SortedList(list) && ProperList(list, u, k) && u != k && w > 0.0
    ensures SortedList(list + [Neighbour(k, w)]) && ProperList(list + [Neighbour(k, w)], u, k + 1)
    ensures forall v: nat :: ListWeight(list + [Neighbour(k, w)], v) == ListWeight(list, v) + if v == k then w else 0.0
  {
    assert (list + [Neighbour(k, w)])[..|list|] == list;
  }

  /** Two bridged cliques on n nodes. */
  ghost function CliqueGraph(n: nat, side: set<nat>, a: nat, b: nat, w: real): (g: LinkGraph)
    requires w > 0.0 && a in side && b !in side && b < n && forall x :: x in side ==> x < n
    ensures WellFormed(g) && |g.adj| == n && TwoCliques(g, side, a, b, w)
  {
    var lists := seq(n, u requires 0 <= u < n => CliqueList(side, a, b, w, u, n));
    var bare := LinkGraph(seq(n, _ => ""), lists, 0.0);
    var g := bare.(totalWeight := EdgeTotal(bare));
    TotalEq(n, (u: nat, v: nat) => if u < v then Weight(bare, u, v) else 0.0,
            (u: nat, v: nat) => if u < v then Weight(g, u, v) else 0.0);
    g
  }

  lemma OtherSide(g: LinkGraph, side: set<nat>, a: nat, b: nat, w: real)
    requires TwoCliques(g, side, a, b, w)
    ensures TwoCliques(g, FirstNaturals(|g.adj|) - side, b, a, w)
  {
    var other := FirstNaturals(|g.adj|) - side;
    forall u: nat, v: nat | u < |g.adj| && v < |g.adj|
      ensures Linked(side, a, b, u, v) <==> Linked(other, b, a, u, v) {}
  }

  /** Whatever the order of the nodes, the labels stay apart. */
  ghost predicate AlwaysApart(p: nat, q: nat, w: real) {
    forall g: ProperGraph, side: set<nat>, a: nat, b: nat, n: nat ::
      TwoCliques(g, side, a, b, w) && |side| == p && |g.adj| == p + q ==>
        Apart(side, Sweeps(g, Reweighted(g), Singletons(|g.adj|), n))
  }

  lemma SizesAreTight(side: set<nat>, n: nat, w: real)
    requires (forall x :: x in side ==> x < n) && Surplus(|side|, w) > EPSILON
    requires |side| <= n ==> Surplus(n - |side|, w) > EPSILON
    ensures Tight(n, side, w)
  {
    assert side <= FirstNaturals(n);
    SubsetCardinality(side, FirstNaturals(n));
    forall u: nat | u < n ensures Surplus(|CliqueOf(n, side, u)|, w) > EPSILON {
      if u in side {
        assert CliqueOf(n, side, u) == side;
      } else {
        assert CliqueOf(n, side, u) == FirstNaturals(n) - side;
      }
    }
  }

  /** A clique of q nodes that come after p others, with too small a surplus. */
  lemma LaterCliqueLeaks(p: nat, q: nat, w: real) returns (g: ProperGraph, side: set<nat>)
    requires p > 0 && q > 0 && w > 0.0 && Surplus(q, w) <= EPSILON
    ensures |g.adj| == p + q && |side| == q && TwoCliques(g, side, p, 0, w)
    ensures !Apart(side, Sweeps(g, Reweighted(g), Singletons(|g.adj|), 1))
  {
    side := From(p, p + q);
    g := CliqueGraph(p + q, side, p, 0, w);
    LeakIsShared(g, p, w);
  }

  lemma LeakIsShared(g: ProperGraph, p: nat, w: real)
    requires p > 0 && w > 0.0 && SecondClique(g, p, 0, w) && Surplus(|g.adj| - p, w) <= EPSILON
    ensures !Apart(From(p, |g.adj|), Sweeps(g, Reweighted(g), Singletons(|g.adj|), 1))
  {
    LabelLeaks(g, Reweighted(g), p, 0, w);
    SharedLabel(From(p, |g.adj|), Sweeps(g, Reweighted(g), Singletons(|g.adj|), 1), p, 0);
  }

  lemma SharedLabel(side: set<nat>, labels: seq<nat>, u: nat, v: nat)
    requires u < |labels| && v < |labels| && u in side && v !in side && labels[u] == labels[v]
    ensures !Apart(side, labels)
  {}

  /** Bridged cliques of p and q nodes stay apart in every graph exactly when in both a
      clique edge pulls more than the bridge by more than the tolerance. */
  lemma StayApartExactlyWhen(p: nat, q: nat, w: real)
    requires p > 0 && q > 0 && w > 0.0
    ensures AlwaysApart(p, q, w) <==> Surplus(p, w) > EPSILON && Surplus(q, w) > EPSILON
  {
    if Surplus(p, w) > EPSILON && Surplus(q, w) > EPSILON {
      forall g: ProperGraph, side: set<nat>, a: nat, b: nat, n: nat |
        TwoCliques(g, side, a, b, w) && |side| == p && |g.adj| == p + q
        ensures Apart(side, Sweeps(g, Reweighted(g), Singletons(|g.adj|), n))
      {
        SizesAreTight(side, p + q, w);
        CliquesStayApart(g, side, a, b, w, n);
      }
    } else if Surplus(p, w) <= EPSILON {
      var g, side := LaterCliqueLeaks(q, p, w);
      assert !AlwaysApart(p, q, w);
    } else {
      var g, late := LaterCliqueLeaks(p, q, w);
      OtherSide(g, late, p, 0, w);
      var side := FirstNaturals(|g.adj|) - late;
      assert late <= FirstNaturals(|g.adj|);
      assert |side| == p;
      assert !Apart(side, Sweeps(g, Reweighted(g), Singletons(|g.adj|), 1));
      assert !AlwaysApart(p, q, w);
    }
  }
}
