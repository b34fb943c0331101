/** Deterministic label propagation (src/communities.rs, `label_propagation`).

    The reference rule is stated on the weight matrix: a node adopts the label
    with the greatest pull, where an edge pulls with its weight times one plus
    the number of common neighbours. `Propagate` is the program's form with its
    per-visit tally over adjacency lists. */
module LabelPropagation {
  import opened LinkGraphs
  import opened Modularity
  import opened ComputeModularity
  import opened GreedyModularity

  function NeighbourSet(g: LinkGraph, u: nat): set<nat>
    requires u < |g.adj|
  {
    set k | 0 <= k < |g.adj[u]| :: g.adj[u][k].node
  }

  function CommonNeighbours(g: LinkGraph, u: nat, v: nat): nat {
    if u < |g.adj| && v < |g.adj| then |NeighbourSet(g, u) * NeighbourSet(g, v)| else 0
  }

  function PullOn(common: nat, weight: real): real { weight * (1.0 + common as real) }

  /** Pull of an entry of u's list: its weight times one plus the number of
      common neighbours. */
  function Pull(g: LinkGraph, u: nat, e: Neighbour): real {
    PullOn(CommonNeighbours(g, u, e.node), e.weight)
  }

  function Effective(g: LinkGraph, u: nat): Neighbour -> real {
    (e: Neighbour) => Pull(g, u, e)
  }

  /** The list with every weight replaced. */
  function Reweigh(list: seq<Neighbour>, f: Neighbour -> real): (r: seq<Neighbour>)
    ensures |r| == |list|
  {
    if list == [] then []
    else var last := list[|list| - 1]; Reweigh(list[..|list| - 1], f) + [Neighbour(last.node, f(last))]
  }

  lemma {:induction false} ReweighAt(list: seq<Neighbour>, f: Neighbour -> real, i: nat)
    requires i < |list|
    ensures Reweigh(list, f)[i] == Neighbour(list[i].node, f(list[i]))
  {
    if i < |list| - 1 { ReweighAt(list[..|list| - 1], f, i); }
  }

  /** h is g with every edge weight multiplied by its overlap factor. */
  ghost predicate IsReweighted(g: LinkGraph, h: LinkGraph) {
    && |h.adj| == |g.adj|
    && forall u: nat :: u < |g.adj| ==> h.adj[u] == Reweigh(g.adj[u], Effective(g, u))
  }

  function Reweighted(g: LinkGraph): (h: LinkGraph)
    ensures IsReweighted(g, h)
  {
    g.(adj := seq(|g.adj|, u requires 0 <= u < |g.adj| => Reweigh(g.adj[u], Effective(g, u))))
  }

  /** A sorted list holds at most one entry for a node. */
  lemma {:induction false} SingleEntry(list: seq<Neighbour>, i: nat)
    requires SortedList(list) && i < |list|
    ensures ListWeight(list, list[i].node) == list[i].weight
  {
    var front := list[..|list| - 1];
    if i < |list| - 1 {
      SingleEntry(front, i);
    } else {
      NoEntry(front, list[i].node);
    }
  }

  lemma {:induction false} NoEntry(list: seq<Neighbour>, v: nat)
    requires forall i :: 0 <= i < |list| ==> list[i].node != v
    ensures ListWeight(list, v) == 0.0
  {
    if list != [] { NoEntry(list[..|list| - 1], v); }
  }

  /** An edge pulls with its weight times one plus the common neighbours. */
  lemma PullOfEdge(g: ProperGraph, h: LinkGraph, u: nat, k: nat)
    requires IsReweighted(g, h) && u < |g.adj| && k < |g.adj[u]|
    ensures var e := g.adj[u][k];
      && Weight(g, u, e.node) == e.weight
      && Weight(h, u, e.node) == Pull(g, u, e)
  {
    forall i: nat | i < |g.adj[u]| ensures h.adj[u][i].node == g.adj[u][i].node {
      ReweighAt(g.adj[u], Effective(g, u), i);
    }
    SingleEntry(g.adj[u], k);
    SingleEntry(h.adj[u], k);
    ReweighAt(g.adj[u], Effective(g, u), k);
  }

  datatype Favourite = Nobody | Favourite(community: nat, strength: real)

  /** Strongest neighbouring label below k, tried in ascending order. */
  ghost function Strongest(g: ProperGraph, h: LinkGraph, labels: seq<nat>, u: nat, k: nat): Favourite
    requires |labels| == |g.adj| && u < |g.adj|
  {
    if k == 0 then Nobody
    else
      var best := Strongest(g, h, labels, u, k - 1);
      if NeighbourLabel(g, labels, u, k - 1)
         && (best.Nobody? || WeightTo(h, labels, u, k - 1) > best.strength + EPSILON)
      then Favourite(k - 1, WeightTo(h, labels, u, k - 1))
      else best
  }

  ghost function Adopt(g: ProperGraph, h: LinkGraph, labels: seq<nat>, u: nat): (r: seq<nat>)
    requires |labels| == |g.adj| && u < |g.adj|
    ensures |r| == |labels|
  {
    var best := Strongest(g, h, labels, u, |g.adj|);
    if best.Nobody? then labels else labels[u := best.community]
  }

  ghost function Sweep(g: ProperGraph, h: LinkGraph, labels: seq<nat>, u: nat): (r: seq<nat>)
    requires |labels| == |g.adj| && u <= |g.adj|
    ensures |r| == |labels|
  {
    if u == 0 then labels else Adopt(g, h, Sweep(g, h, labels, u - 1), u - 1)
  }

  ghost function Sweeps(g: ProperGraph, h: LinkGraph, labels: seq<nat>, passes: nat): (r: seq<nat>)
    requires |labels| == |g.adj|
    ensures |r| == |labels|
    decreases passes
  {
    if passes == 0 then labels else Sweep(g, h, Sweeps(g, h, labels, passes - 1), |g.adj|)
  }

  // ------------------------------------------------ facts about one decision

  /** The favourite is a neighbour's label; no label beats it by more than the
      tolerance and every smaller label is strictly weaker. */
  lemma {:induction false} StrongestIsBest(g: ProperGraph, h: LinkGraph, labels: seq<nat>, u: nat, k: nat)
    requires |labels| == |g.adj| && u < |g.adj|
    ensures var b := Strongest(g, h, labels, u, k);
      && (b.Nobody? ==> forall c: nat :: c < k ==> !NeighbourLabel(g, labels, u, c))
      && (b.Favourite? ==>
           && b.community < k && NeighbourLabel(g, labels, u, b.community)
           && b.strength == WeightTo(h, labels, u, b.community)
           && (forall c: nat :: c < k && NeighbourLabel(g, labels, u, c) ==>
                WeightTo(h, labels, u, c) <= b.strength + EPSILON)
           && (forall c: nat :: c < b.community && NeighbourLabel(g, labels, u, c) ==>
                WeightTo(h, labels, u, c) < b.strength))
  {
    if k > 0 { StrongestIsBest(g, h, labels, u, k - 1); }
  }

  lemma AdoptKeepsPaths(g: ProperGraph, h: LinkGraph, labels: seq<nat>, u: nat)
    requires LabelsFollowPaths(g, labels) && u < |g.adj|
    ensures LabelsFollowPaths(g, Adopt(g, h, labels, u))
  {
    StrongestIsBest(g, h, labels, u, |g.adj|);
    var best := Strongest(g, h, labels, u, |g.adj|);
    if best.Favourite? {
      var k :| 0 <= k < |g.adj[u]| && labels[g.adj[u][k].node] == best.community;
      AdoptingKeepsPaths(g, labels, u, k);
    }
  }

  lemma {:induction false} SweepKeepsPaths(g: ProperGraph, h: LinkGraph, labels: seq<nat>, u: nat)
    requires LabelsFollowPaths(g, labels) && u <= |g.adj|
    ensures LabelsFollowPaths(g, Sweep(g, h, labels, u))
  {
    if u > 0 {
      SweepKeepsPaths(g, h, labels, u - 1);
      AdoptKeepsPaths(g, h, Sweep(g, h, labels, u - 1), u - 1);
    }
  }

  /** After any number of sweeps labels follow paths. */
  lemma {:induction false} SweepsKeepPaths(g: ProperGraph, h: LinkGraph, labels: seq<nat>, passes: nat)
    requires LabelsFollowPaths(g, labels)
    ensures LabelsFollowPaths(g, Sweeps(g, h, labels, passes))
  {
    if passes > 0 {
      SweepsKeepPaths(g, h, labels, passes - 1);
      SweepKeepsPaths(g, h, Sweeps(g, h, labels, passes - 1), |g.adj|);
    }
  }

  /** A sweep decides every node once, in order. */
  lemma {:induction false} SweepDecidesOnce(g: ProperGraph, h: LinkGraph, labels: seq<nat>, u: nat, x: nat)
    requires |labels| == |g.adj| && u <= |g.adj| && x < |g.adj|
    ensures Sweep(g, h, labels, u)[x] == if x < u then Sweep(g, h, labels, x + 1)[x] else labels[x]
  {
    if u > 0 && x != u - 1 { SweepDecidesOnce(g, h, labels, u - 1, x); }
  }

  lemma QuietSweep(g: ProperGraph, h: LinkGraph, labels: seq<nat>, u: nat)
    requires |labels| == |g.adj| && u <= |g.adj|
    requires Sweep(g, h, labels, |g.adj|) == labels
    ensures Sweep(g, h, labels, u) == labels
  {
    forall x: nat | x < |g.adj| ensures Sweep(g, h, labels, u)[x] == labels[x] {
      SweepDecidesOnce(g, h, labels, u, x);
      SweepDecidesOnce(g, h, labels, |g.adj|, x);
    }
  }

  /** At a fixed point every node with a neighbour carries a label that no other
      neighbouring label beats by more than the tolerance. */
  lemma FixedPointIsStable(g: ProperGraph, h: LinkGraph, labels: seq<nat>, u: nat, c: nat)
    requires |labels| == |g.adj| && u < |g.adj|
    requires Sweep(g, h, labels, |g.adj|) == labels
    requires c < |g.adj| && NeighbourLabel(g, labels, u, c)
    ensures NeighbourLabel(g, labels, u, labels[u])
    ensures WeightTo(h, labels, u, c) <= WeightTo(h, labels, u, labels[u]) + EPSILON
    ensures c < labels[u] ==> WeightTo(h, labels, u, c) < WeightTo(h, labels, u, labels[u])
  {
    QuietSweep(g, h, labels, u);
    QuietSweep(g, h, labels, u + 1);
    StrongestIsBest(g, h, labels, u, |g.adj|);
    var b := Strongest(g, h, labels, u, |g.adj|);
    assert b.Favourite? && labels[u := b.community][u] == labels[u];
  }

  /** Once a sweep changes nothing, no later sweep does. */
  lemma {:induction false} FixedPointKept(g: ProperGraph, h: LinkGraph, labels: seq<nat>, quiet: nat, passes: nat)
    requires |labels| == |g.adj| && quiet <= passes
    requires Sweeps(g, h, labels, quiet + 1) == Sweeps(g, h, labels, quiet)
    ensures Sweeps(g, h, labels, passes) == Sweeps(g, h, labels, quiet)
  {
    if quiet < passes { FixedPointKept(g, h, labels, quiet, passes - 1); }
  }

  // ---------------------------------------------------------- program's form

  /** The k-th entry adds its effective weight to the tally of its label. */
  lemma TallyStep(h: LinkGraph, labels: seq<nat>, u: nat, k: nat, c: nat)
    requires |labels| == |h.adj| && u < |h.adj| && k < |h.adj[u]| && h.adj[u][k].node < |h.adj|
    ensures WeightToUpTo(h, labels, u, k + 1, c) == WeightToUpTo(h, labels, u, k, c)
        + if labels[h.adj[u][k].node] == c then h.adj[u][k].weight else 0.0
  {
    var list := h.adj[u];
    assert list[..k + 1][..k] == list[..k];
    assert list[..k + 1][k] == list[k];
  }

  lemma SameNodes(g: ProperGraph, h: LinkGraph, u: nat)
    requires IsReweighted(g, h) && u < |g.adj|
    ensures |h.adj[u]| == |g.adj[u]|
    ensures forall i :: 0 <= i < |h.adj[u]| ==> h.adj[u][i].node == g.adj[u][i].node < |h.adj|
  {
    forall i | 0 <= i < |h.adj[u]| ensures h.adj[u][i].node == g.adj[u][i].node {
      ReweighAt(g.adj[u], Effective(g, u), i);
    }
  }

  /** The label is one of the listed neighbours'. */
  ghost predicate LabelMet(list: seq<Neighbour>, labels: seq<nat>, c: nat) {
    exists i :: 0 <= i < |list| && list[i].node < |labels| && labels[list[i].node] == c
  }

  lemma LabelMetMore(list: seq<Neighbour>, e: Neighbour, labels: seq<nat>, c: nat)
    requires e.node < |labels|
    ensures LabelMet(list + [e], labels, c) <==> LabelMet(list, labels, c) || labels[e.node] == c
  {
    var more := list + [e];
    assert more[|list|] == e && forall i :: 0 <= i < |list| ==> more[i] == list[i];
  }

  /** One round of the tally: entry k of `list`, with effective weight w. */
  method TallyEntry(ghost h: LinkGraph, ghost lab: seq<nat>, ghost u: nat, ghost k: nat, ghost list: seq<Neighbour>,
                    l: nat, w: real, before: map<nat, real>)
    returns (tally: map<nat, real>)
    requires |lab| == |h.adj| && u < |h.adj| && k < |list| == |h.adj[u]|
    requires h.adj[u][k] == Neighbour(list[k].node, w) && list[k].node < |lab| && l == lab[list[k].node]
    requires forall c :: c in before <==> LabelMet(list[..k], lab, c)
    requires forall c :: Get(before, c) == WeightToUpTo(h, lab, u, k, c)
    ensures forall c :: c in tally <==> LabelMet(list[..k + 1], lab, c)
    ensures forall c :: Get(tally, c) == WeightToUpTo(h, lab, u, k + 1, c)
  {
    tally := AddTo(before, l, w);
    assert list[..k + 1] == list[..k] + [list[k]];
    forall c: nat
      ensures Get(tally, c) == WeightToUpTo(h, lab, u, k + 1, c)
      ensures c in tally <==> LabelMet(list[..k + 1], lab, c)
    {
      TallyStep(h, lab, u, k, c);
      LabelMetMore(list[..k], list[k], lab, c);
    }
  }

  method Tally(g: ProperGraph, ghost h: LinkGraph, labels: array<nat>, u: nat) returns (tally: map<nat, real>)
    requires IsReweighted(g, h) && labels.Length == |g.adj| && u < |g.adj|
    ensures forall c :: c in tally <==> NeighbourLabel(g, labels[..], u, c)
    ensures forall c :: c in tally ==> tally[c] == WeightTo(h, labels[..], u, c)
  {
    tally := map[];
    ghost var lab := labels[..];
    SameNodes(g, h, u);
    for k := 0 to |g.adj[u]|
      invariant forall c :: c in tally <==> LabelMet(g.adj[u][..k], lab, c)
      invariant forall c :: Get(tally, c) == WeightToUpTo(h, lab, u, k, c)
    {
      var e := g.adj[u][k];
      ReweighAt(g.adj[u], Effective(g, u), k);
      tally := TallyEntry(h, lab, u, k, g.adj[u], labels[e.node], Pull(g, u, e), tally);
    }
    assert g.adj[u][..|g.adj[u]|] == g.adj[u];
    forall c: nat ensures Get(tally, c) == WeightTo(h, lab, u, c) { WholeListIsWeightTo(h, lab, u, c); }
  }

  /** Adds w to the tally of c, which starts at zero. */
  function AddTo(tally: map<nat, real>, c: nat, w: real): (r: map<nat, real>)
    ensures r.Keys == tally.Keys + {c}
    ensures forall x: nat :: Get(r, x) == Get(tally, x) + if x == c then w else 0.0
  {
    tally[c := Get(tally, c) + w]
  }

  /** The scan over the labels in increasing order. */
  method PickFavourite(g: ProperGraph, ghost h: LinkGraph, ghost labels: seq<nat>, u: nat, tally: map<nat, real>)
    returns (best: Favourite)
    requires |labels| == |g.adj| && u < |g.adj|
    requires forall c :: c in tally <==> NeighbourLabel(g, labels, u, c)
    requires forall c :: c in tally ==> tally[c] == WeightTo(h, labels, u, c)
    ensures best == Strongest(g, h, labels, u, |g.adj|)
  {
    best := Nobody;
    for c := 0 to |g.adj|
      invariant best == Strongest(g, h, labels, u, c)
    {
      if c in tally && (best.Nobody? || tally[c] > best.strength + EPSILON) {
        best := Favourite(c, tally[c]);
      }
    }
  }

  /** One node visit. */
  method VisitLabel(g: ProperGraph, ghost h: LinkGraph, labels: array<nat>, u: nat) returns (changed: bool)
    requires IsReweighted(g, h) && labels.Length == |g.adj| && u < |g.adj| && Below(labels[..], |g.adj|)
    modifies labels
    ensures labels[..] == Adopt(g, h, old(labels[..]), u)
    ensures changed <==> labels[..] != old(labels[..])
    ensures Below(labels[..], |g.adj|)
  {
    ghost var before := labels[..];
    changed := false;
    StrongestIsBest(g, h, before, u, |g.adj|);
    if |g.adj[u]| == 0 {
      return;
    }
    var tally := Tally(g, h, labels, u);
    var best := PickFavourite(g, h, before, u, tally);
    assert before[u := before[u]] == before;
    if best.Favourite? && best.community != labels[u] {
      labels[u] := best.community;
      changed := true;
    }
    assert labels[..] == Adopt(g, h, before, u);
  }

  /** The sweep has reached node `u`, and a sweep without a change left the labels alone. */
  ghost predicate SweptTo(g: ProperGraph, h: LinkGraph, start: seq<nat>, u: nat, labels: seq<nat>, changed: bool) {
    && |start| == |g.adj| && u <= |g.adj| && Below(labels, |g.adj|)
    && labels == Sweep(g, h, start, u) && (!changed ==> labels == start)
  }

  lemma SweptOneMore(g: ProperGraph, h: LinkGraph, start: seq<nat>, u: nat, labels: seq<nat>, changed: bool,
                     after: seq<nat>)
    requires SweptTo(g, h, start, u, labels, changed) && u < |g.adj| && after == Adopt(g, h, labels, u) &&
      Below(after, |g.adj|)
    ensures SweptTo(g, h, start, u + 1, after, changed || after != labels)
  {}

  /** One sweep over all nodes in ascending order. */
  method SweepNodes(g: ProperGraph, ghost h: LinkGraph, labels: array<nat>) returns (changed: bool)
    requires IsReweighted(g, h) && labels.Length == |g.adj| && Below(labels[..], |g.adj|)
    modifies labels
    ensures SweptTo(g, h, old(labels[..]), |g.adj|, labels[..], changed)
  {
    ghost var start := labels[..];
    changed := false;
    for u := 0 to |g.adj|
      invariant SweptTo(g, h, start, u, labels[..], changed)
    {
      ghost var before := labels[..];
      var c := VisitLabel(g, h, labels, u);
      SweptOneMore(g, h, start, u, before, changed, labels[..]);
      changed := changed || c;
    }
  }

  /** No community found by label propagation spans two connected components. */
  lemma PropagationTheorem(g: ProperGraph, maxPasses: nat)
    ensures CommunitiesConnected(g, Sweeps(g, Reweighted(g), Singletons(|g.adj|), maxPasses))
  {
    SingletonsFollowPaths(g);
    SweepsKeepPaths(g, Reweighted(g), Singletons(|g.adj|), maxPasses);
    PathsGiveConnectedCommunities(g, Sweeps(g, Reweighted(g), Singletons(|g.adj|), maxPasses));
  }

  /** The program returns the labelling of the reference rule. */
  method Propagate(g: ProperGraph, maxPasses: nat := MAX_ALGO_ITERS) returns (labels: array<nat>)
    ensures fresh(labels) && labels[..] == Sweeps(g, Reweighted(g), Singletons(|g.adj|), maxPasses)
  {
    var n := |g.adj|;
    ghost var h := Reweighted(g);
    labels := new nat[n](i => i);
    ghost var start := Singletons(n);
    assert labels[..] == start;
    for pass := 0 to maxPasses
      invariant Below(labels[..], n) && labels[..] == Sweeps(g, h, start, pass)
    {
      var changed := SweepNodes(g, h, labels);
      if !changed {
        FixedPointKept(g, h, start, pass, maxPasses);
        return;
      }
    }
  }
}
