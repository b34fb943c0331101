/** Label propagation without its cap on sweeps (src/communities.rs,
    `label_propagation`). Pulls are symmetric, so a node that adopts a stronger label
    raises the pull between nodes that share a label. If all edge weights are multiples
    of a step above the tolerance, so are the pulls. Then each change raises that sum by
    a step or lowers a label at no loss, and the sweeps come to rest. */
module LabelTermination {
  import opened RealSums
  import opened LinkGraphs
  import opened Modularity
  import opened GreedyModularity
  import opened LabelPropagation

  // -------------------------------------------------------------------- multiples

  function Times(i: int, step: real): real { i as real * step }

  ghost predicate Multiple(x: real, step: real) {
    exists i: int :: x == Times(i, step)
  }

  lemma TimesOrder(i: int, j: int, step: real)
    requires step > 0.0 && i <= j
    ensures Times(i, step) <= Times(j, step) && Times(i + 1, step) == Times(i, step) + step
  {}

  /** Multiples that differ by less than a step are in order. */
  lemma MultiplesApart(x: real, y: real, step: real)
    requires step > 0.0 && Multiple(x, step) && Multiple(y, step) && x < y + step
    ensures x <= y
  {
    var i :| x == Times(i, step);
    var j :| y == Times(j, step);
    TimesOrder(j, j, step);
    if i <= j { TimesOrder(i, j, step); } else { TimesOrder(j + 1, i, step); }
  }

  lemma MultiplePlus(x: real, y: real, step: real)
    requires Multiple(x, step) && Multiple(y, step)
    ensures Multiple(x + y, step)
  {
    var i :| x == Times(i, step);
    var j :| y == Times(j, step);
    assert x + y == Times(i + j, step);
  }

  lemma {:induction false} SumMultiple(n: nat, f: nat -> real, step: real)
    requires forall i: nat :: i < n ==> Multiple(f(i), step)
    ensures Multiple(Sum(n, f), step)
  {
    if n == 0 {
      assert 0.0 == Times(0, step);
    } else {
      SumMultiple(n - 1, f, step);
      MultiplePlus(Sum(n - 1, f), f(n - 1), step);
    }
  }

  // ------------------------------------------------------------------------ pulls

  lemma PullOnFacts(common: nat, weight: real)
    requires weight >= 0.0
    ensures PullOn(common, weight) >= 0.0 && (PullOn(common, weight) > 0.0 <==> weight > 0.0)
  {}

  /** The pull between two nodes: the edge weight times one plus the common neighbours. */
  lemma PullBetween(g: ProperGraph, h: LinkGraph, u: nat, v: nat)
    requires IsReweighted(g, h) && u < |g.adj|
    ensures Weight(h, u, v) == PullOn(CommonNeighbours(g, u, v), Weight(g, u, v))
  {
    if k :| 0 <= k < |g.adj[u]| && g.adj[u][k].node == v {
      EdgePull(g, h, u, k);
    } else {
      NoPull(g, h, u, v);
    }
  }

  lemma EdgePull(g: ProperGraph, h: LinkGraph, u: nat, k: nat)
    requires IsReweighted(g, h) && u < |g.adj| && k < |g.adj[u]|
    ensures var v := g.adj[u][k].node; Weight(h, u, v) == PullOn(CommonNeighbours(g, u, v), Weight(g, u, v))
  {
    PullOfEdge(g, h, u, k);
  }

  lemma NoPull(g: ProperGraph, h: LinkGraph, u: nat, v: nat)
    requires IsReweighted(g, h) && u < |g.adj| && forall k :: 0 <= k < |g.adj[u]| ==> g.adj[u][k].node != v
    ensures Weight(g, u, v) == 0.0 && Weight(h, u, v) == 0.0
  {
    SameNodes(g, h, u);
    NoEntry(g.adj[u], v);
    NoEntry(h.adj[u], v);
  }

  lemma CommonIsMutual(g: LinkGraph, u: nat, v: nat)
    ensures CommonNeighbours(g, u, v) == CommonNeighbours(g, v, u)
  {
    if u < |g.adj| && v < |g.adj| {
      assert NeighbourSet(g, u) * NeighbourSet(g, v) == NeighbourSet(g, v) * NeighbourSet(g, u);
    }
  }

  lemma PullFacts(g: ProperGraph, h: LinkGraph, u: nat, v: nat)
    requires IsReweighted(g, h) && u < |g.adj| && v < |g.adj|
    ensures Weight(h, u, v) == Weight(h, v, u) && Weight(h, u, u) == 0.0
    ensures Weight(h, u, v) >= 0.0 && (Weight(h, u, v) > 0.0 <==> Weight(g, u, v) > 0.0)
  {
    PullBetween(g, h, u, v);
    PullBetween(g, h, v, u);
    PullBetween(g, h, u, u);
    CommonIsMutual(g, u, v);
    WeightFacts(g, u, v);
    PullOnFacts(CommonNeighbours(g, u, v), Weight(g, u, v));
    PullOnFacts(CommonNeighbours(g, u, u), Weight(g, u, u));
  }

  /** Symmetric pulls, none of a node on itself. */
  ghost predicate Mutual(h: LinkGraph) {
    forall u: nat, v: nat :: u < |h.adj| && v < |h.adj| ==>
      Weight(h, u, v) == Weight(h, v, u) && Weight(h, u, v) >= 0.0 && (u == v ==> Weight(h, u, v) == 0.0)
  }

  lemma PullsAreMutual(g: ProperGraph, h: LinkGraph)
    requires IsReweighted(g, h)
    ensures Mutual(h)
  {
    forall u: nat, v: nat | u < |h.adj| && v < |h.adj|
      ensures Weight(h, u, v) == Weight(h, v, u) && Weight(h, u, v) >= 0.0 && (u == v ==> Weight(h, u, v) == 0.0)
    {
      PullFacts(g, h, u, v);
    }
  }

  // ------------------------------------------------------------------- agreement

  function AgreeTerm(h: LinkGraph, labels: seq<nat>, u: nat, v: nat): real {
    if SameLabel(labels, u, v) then Weight(h, u, v) else 0.0
  }

  /** The pull between nodes that share a label, over ordered pairs. */
  function Agreement(h: LinkGraph, labels: seq<nat>): real {
    Total(|h.adj|, (u: nat, v: nat) => AgreeTerm(h, labels, u, v))
  }

  function LabelPull(h: LinkGraph, labels: seq<nat>, u: nat, c: nat, v: nat): real {
    if HasLabel(labels, v, c) then Weight(h, u, v) else 0.0
  }

  /** What the pair (u, v) gains when node x takes label c. */
  function AgreeGain(h: LinkGraph, labels: seq<nat>, x: nat, c: nat, u: nat, v: nat): real
    requires x < |labels|
  {
    AgreeTerm(h, labels[x := c], u, v) - AgreeTerm(h, labels, u, v)
  }

  /** A node that changes its label trades the pull of the old one for that of the new
      one, on both sides of its edges. */
  lemma AgreementChange(h: LinkGraph, labels: seq<nat>, x: nat, c: nat)
    requires Mutual(h) && |labels| == |h.adj| && x < |labels|
    ensures Agreement(h, labels[x := c])
         == Agreement(h, labels) + 2.0 * (WeightTo(h, labels, x, c) - WeightTo(h, labels, x, labels[x]))
  {
    var n, after := |h.adj|, labels[x := c];
    var gain := (u: nat, v: nat) => AgreeGain(h, labels, x, c, u, v);
    TotalPlus(n, (u: nat, v: nat) => AgreeTerm(h, labels, u, v), gain, (u: nat, v: nat) => AgreeTerm(h, after, u, v));
    forall u: nat, v: nat | u < n && v < n ensures gain(u, v) == gain(v, u) { GainIsMutual(h, labels, x, c, u, v); }
    CrossTotal(n, x, gain);
    RowOfGain(h, labels, x, c);
  }

  lemma GainIsMutual(h: LinkGraph, labels: seq<nat>, x: nat, c: nat, u: nat, v: nat)
    requires Mutual(h) && |labels| == |h.adj| && x < |labels| && u < |labels| && v < |labels|
    ensures AgreeGain(h, labels, x, c, u, v) == AgreeGain(h, labels, x, c, v, u)
  {}

  lemma RowOfGain(h: LinkGraph, labels: seq<nat>, x: nat, c: nat)
    requires Mutual(h) && |labels| == |h.adj| && x < |labels|
    ensures Row(|h.adj|, (u: nat, v: nat) => AgreeGain(h, labels, x, c, u, v), x)
         == WeightTo(h, labels, x, c) - WeightTo(h, labels, x, labels[x])
  {
    var n := |h.adj|;
    var gain := (v: nat) => AgreeGain(h, labels, x, c, x, v);
    var joined := (v: nat) => LabelPull(h, labels, x, c, v);
    var left := (v: nat) => LabelPull(h, labels, x, labels[x], v);
    SumPlus(n, left, gain, joined);
    SumEq(n, joined, (v: nat) => if HasLabel(labels, v, c) then Weight(h, x, v) else 0.0);
    SumEq(n, left, (v: nat) => if HasLabel(labels, v, labels[x]) then Weight(h, x, v) else 0.0);
    SumEq(n, gain, (v: nat) => ((u: nat, w: nat) => AgreeGain(h, labels, x, c, u, w))(x, v));
  }

  /** All pulls together. */
  function PullTotal(h: LinkGraph): real {
    Total(|h.adj|, (u: nat, v: nat) => Weight(h, u, v))
  }

  lemma AgreementRange(h: LinkGraph, labels: seq<nat>)
    requires Mutual(h)
    ensures 0.0 <= Agreement(h, labels) <= PullTotal(h)
  {
    var n := |h.adj|;
    var zero := (u: nat, v: nat) => 0.0;
    TotalMono(n, zero, (u: nat, v: nat) => AgreeTerm(h, labels, u, v));
    TotalMono(n, (u: nat, v: nat) => AgreeTerm(h, labels, u, v), (u: nat, v: nat) => Weight(h, u, v));
    TotalScale(n, 0.0, zero, zero);
  }

  // ------------------------------------------------------------------ one adoption

  function LabelSum(labels: seq<nat>): nat {
    if labels == [] then 0 else LabelSum(labels[..|labels| - 1]) + labels[|labels| - 1]
  }

  lemma {:induction false} LabelSumUpdate(labels: seq<nat>, x: nat, c: nat)
    requires x < |labels|
    ensures LabelSum(labels[x := c]) == LabelSum(labels) + c - labels[x]
  {
    var n := |labels| - 1;
    if x < n {
      LabelSumUpdate(labels[..n], x, c);
      assert labels[x := c][..n] == labels[..n][x := c];
    } else {
      assert labels[x := c][..n] == labels[..n];
    }
  }

  lemma {:induction false} LabelSumBound(labels: seq<nat>, k: nat)
    requires Below(labels, k)
    ensures LabelSum(labels) <= |labels| * k
  {
    if labels != [] {
      LabelSumBound(labels[..|labels| - 1], k);
      assert |labels| * k == (|labels| - 1) * k + k;
    }
  }

  /** All pulls are multiples of the step, and the step is above the tolerance. */
  ghost predicate OnGrid(h: LinkGraph, step: real) {
    step > EPSILON && forall u: nat, v: nat :: u < |h.adj| && v < |h.adj| ==> Multiple(Weight(h, u, v), step)
  }

  /** All edge weights are multiples of a step above the tolerance. */
  ghost predicate WeightsOnGrid(g: LinkGraph, step: real) {
    step > EPSILON && forall u: nat, v: nat :: u < |g.adj| && v < |g.adj| ==> Multiple(Weight(g, u, v), step)
  }

  lemma PullIsMultiple(common: nat, weight: real, step: real)
    requires Multiple(weight, step)
    ensures Multiple(PullOn(common, weight), step)
  {
    var i :| weight == Times(i, step);
    assert PullOn(common, weight) == Times(i * (1 + common), step);
  }

  /** Pulls multiply edge weights by whole numbers, so they stay on the grid. */
  lemma PullsOnGrid(g: ProperGraph, h: LinkGraph, step: real)
    requires IsReweighted(g, h) && WeightsOnGrid(g, step)
    ensures OnGrid(h, step)
  {
    forall u: nat, v: nat | u < |h.adj| && v < |h.adj| ensures Multiple(Weight(h, u, v), step) {
      PullBetween(g, h, u, v);
      PullIsMultiple(CommonNeighbours(g, u, v), Weight(g, u, v), step);
    }
  }

  lemma LabelPullIsMultiple(h: LinkGraph, labels: seq<nat>, u: nat, c: nat, step: real)
    requires OnGrid(h, step) && u < |h.adj|
    ensures Multiple(WeightTo(h, labels, u, c), step)
  {
    assert 0.0 == Times(0, step);
    SumMultiple(|h.adj|, (v: nat) => if HasLabel(labels, v, c) then Weight(h, u, v) else 0.0, step);
  }

  /** A label pulls exactly when a neighbour has it. */
  lemma PullingLabels(g: ProperGraph, h: LinkGraph, labels: seq<nat>, u: nat, c: nat)
    requires IsReweighted(g, h) && |labels| == |g.adj| && u < |g.adj|
    ensures WeightTo(h, labels, u, c) >= 0.0
    ensures NeighbourLabel(g, labels, u, c) ==> WeightTo(h, labels, u, c) > 0.0
    ensures !NeighbourLabel(g, labels, u, c) ==> WeightTo(h, labels, u, c) == 0.0
  {
    var n := |g.adj|;
    var pull := (v: nat) => if HasLabel(labels, v, c) then Weight(h, u, v) else 0.0;
    forall v: nat | v < n ensures pull(v) >= 0.0 && (pull(v) > 0.0 ==> NeighbourLabel(g, labels, u, c)) {
      PullFacts(g, h, u, v);
      WeightFacts(g, u, v);
    }
    SumMono(n, (v: nat) => 0.0, pull);
    SumZero(n, (v: nat) => 0.0);
    if NeighbourLabel(g, labels, u, c) {
      var k :| 0 <= k < |g.adj[u]| && labels[g.adj[u][k].node] == c;
      var v := g.adj[u][k].node;
      PullFacts(g, h, u, v);
      WeightFacts(g, u, v);
      TermAtMostSum(n, v, pull);
    } else {
      SumZero(n, pull);
    }
  }

  /** A node that changes its label gains a whole step of pull, or lowers its label
      without losing any. */
  lemma AdoptionGains(g: ProperGraph, h: LinkGraph, labels: seq<nat>, u: nat, step: real)
    requires IsReweighted(g, h) && OnGrid(h, step) && |labels| == |g.adj| && u < |g.adj| && Below(labels, |g.adj|)
    ensures var after := Adopt(g, h, labels, u);
      && Below(after, |g.adj|)
      && (after != labels ==>
           var c := after[u];
           var gain := WeightTo(h, labels, u, c) - WeightTo(h, labels, u, labels[u]);
           after == labels[u := c] && c < |g.adj| && (gain >= step || (gain >= 0.0 && c < labels[u])))
  {
    var b, current := Strongest(g, h, labels, u, |g.adj|), labels[u];
    StrongestIsBest(g, h, labels, u, |g.adj|);
    assert labels[u := current] == labels;
    if b.Favourite? && b.community != current {
      var x, y := WeightTo(h, labels, u, b.community), WeightTo(h, labels, u, current);
      PullingLabels(g, h, labels, u, b.community);
      PullingLabels(g, h, labels, u, current);
      LabelPullIsMultiple(h, labels, u, b.community, step);
      LabelPullIsMultiple(h, labels, u, current, step);
      if y < x { StrictGain(x, y, step); } else { MultiplesApart(y, x, step); }
    }
  }

  lemma StrictGain(x: real, y: real, step: real)
    requires step > 0.0 && Multiple(x, step) && Multiple(y, step) && y < x
    ensures x >= y + step
  {
    if x < y + step { MultiplesApart(x, y, step); }
  }

  // ----------------------------------------------------------------- the potential

  /** Grows by at least one with every change; `rate` is the number of nodes over twice
      the step. */
  function Potential(h: LinkGraph, labels: seq<nat>, rate: real): real {
    Scaled(rate, Agreement(h, labels)) - LabelSum(labels) as real
  }

  function PotentialOf(h: LinkGraph, rate: real): seq<nat> -> real {
    (labels: seq<nat>) => Potential(h, labels, rate)
  }

  /** Every adoption that changes a label raises phi by at least one. */
  ghost predicate Climbs(g: ProperGraph, h: LinkGraph, phi: seq<nat> -> real) {
    forall labels: seq<nat>, u: nat :: |labels| == |g.adj| && u < |g.adj| && Below(labels, |g.adj|) ==>
      RaisedBy(g, phi, labels, Adopt(g, h, labels, u), 1)
  }

  ghost predicate RaisedBy(g: ProperGraph, phi: seq<nat> -> real, labels: seq<nat>, after: seq<nat>, n: nat) {
    Below(after, |g.adj|) && (after != labels ==> phi(after) >= phi(labels) + n as real)
  }

  lemma {:induction false} SweepClimbs(g: ProperGraph, h: LinkGraph, phi: seq<nat> -> real, labels: seq<nat>, u: nat)
    requires Climbs(g, h, phi) && |labels| == |g.adj| && u <= |g.adj| && Below(labels, |g.adj|)
    ensures RaisedBy(g, phi, labels, Sweep(g, h, labels, u), 1)
  {
    if u > 0 {
      SweepClimbs(g, h, phi, labels, u - 1);
      var before := Sweep(g, h, labels, u - 1);
      assert RaisedBy(g, phi, before, Adopt(g, h, before, u - 1), 1);
    }
  }

  /** A sweep changes nothing. */
  ghost predicate AtRest(g: ProperGraph, h: LinkGraph, labels: seq<nat>)
    requires |labels| == |g.adj|
  {
    Sweep(g, h, labels, |g.adj|) == labels
  }

  /** n sweeps have reached rest or have raised phi by n. */
  lemma {:induction false} RestOrRise(g: ProperGraph, h: LinkGraph, phi: seq<nat> -> real, labels: seq<nat>, n: nat)
    requires Climbs(g, h, phi) && |labels| == |g.adj| && Below(labels, |g.adj|)
    ensures var after := Sweeps(g, h, labels, n);
      Below(after, |g.adj|) && (AtRest(g, h, after) || phi(after) >= phi(labels) + n as real)
  {
    if n > 0 {
      RestOrRise(g, h, phi, labels, n - 1);
      SweepClimbs(g, h, phi, Sweeps(g, h, labels, n - 1), |g.adj|);
    }
  }

  lemma AdoptionRaises(g: ProperGraph, h: LinkGraph, labels: seq<nat>, u: nat, step: real, rate: real)
    requires IsReweighted(g, h) && OnGrid(h, step) && |labels| == |g.adj| && u < |g.adj| && Below(labels, |g.adj|)
    requires Scaled(rate, 2.0 * step) == |g.adj| as real
    ensures RaisedBy(g, PotentialOf(h, rate), labels, Adopt(g, h, labels, u), 1)
  {
    AdoptionGains(g, h, labels, u, step);
    PullsAreMutual(g, h);
    var after := Adopt(g, h, labels, u);
    if after != labels { ChangeRaises(h, labels, u, after[u], step, rate); }
  }

  lemma ChangeRaises(h: LinkGraph, labels: seq<nat>, u: nat, c: nat, step: real, rate: real)
    requires Mutual(h) && |labels| == |h.adj| && u < |labels| && Below(labels, |labels|) && c < |labels|
    requires step > 0.0 && Scaled(rate, 2.0 * step) == |labels| as real
    requires var gain := WeightTo(h, labels, u, c) - WeightTo(h, labels, u, labels[u]);
      gain >= step || (gain >= 0.0 && c < labels[u])
    ensures Potential(h, labels[u := c], rate) >= Potential(h, labels, rate) + 1.0
  {
    AgreementChange(h, labels, u, c);
    LabelSumUpdate(labels, u, c);
    ScaledGain(rate, step, Agreement(h, labels), WeightTo(h, labels, u, c) - WeightTo(h, labels, u, labels[u]),
               |labels| as real);
  }

  lemma ScaledGain(rate: real, step: real, before: real, gain: real, n: real)
    requires step > 0.0 && Scaled(rate, 2.0 * step) == n && n >= 0.0 && gain >= 0.0
    ensures Scaled(rate, before + 2.0 * gain) >= Scaled(rate, before)
    ensures gain >= step ==> Scaled(rate, before + 2.0 * gain) >= Scaled(rate, before) + n
  {
    assert rate >= 0.0;
    assert Scaled(rate, before + 2.0 * gain) == rate * before + rate * (2.0 * gain);
    if gain >= step { assert rate * (2.0 * gain) == rate * (2.0 * step) + rate * (2.0 * (gain - step)); }
  }

  /** More sweeps than this always come to rest. */
  function Patience(h: LinkGraph, step: real): real
    requires step > 0.0
  {
    Scaled(Rate(|h.adj|, step), PullTotal(h)) + |h.adj| as real * |h.adj| as real
  }

  /** Changes that one node could make while a whole step of pull is gained. */
  function Rate(n: nat, step: real): (rate: real)
    requires step > 0.0
    ensures rate >= 0.0 && Scaled(rate, 2.0 * step) == n as real
  {
    n as real / (2.0 * step)
  }

  /** From any labelling the sweeps come to rest, without the cap. */
  lemma ComesToRest(g: ProperGraph, h: LinkGraph, labels: seq<nat>, n: nat, step: real)
    requires IsReweighted(g, h) && WeightsOnGrid(g, step) && |labels| == |g.adj| && Below(labels, |g.adj|)
    requires n as real > Patience(h, step)
    ensures AtRest(g, h, Sweeps(g, h, labels, n))
  {
    PullsOnGrid(g, h, step);
    var rate := Rate(|g.adj|, step);
    PotentialClimbs(g, h, step, rate);
    RestOrRise(g, h, PotentialOf(h, rate), labels, n);
    PullsAreMutual(g, h);
    TooHigh(h, labels, Sweeps(g, h, labels, n), n, step);
  }

  lemma PotentialClimbs(g: ProperGraph, h: LinkGraph, step: real, rate: real)
    requires IsReweighted(g, h) && OnGrid(h, step) && Scaled(rate, 2.0 * step) == |g.adj| as real
    ensures Climbs(g, h, PotentialOf(h, rate))
  {
    forall x: seq<nat>, u: nat | |x| == |g.adj| && u < |g.adj| && Below(x, |g.adj|)
      ensures RaisedBy(g, PotentialOf(h, rate), x, Adopt(g, h, x, u), 1)
    {
      AdoptionRaises(g, h, x, u, step, rate);
    }
  }

  /** No two labellings are further apart than the whole range of the potential. */
  lemma TooHigh(h: LinkGraph, labels: seq<nat>, after: seq<nat>, n: nat, step: real)
    requires Mutual(h) && step > 0.0 && n as real > Patience(h, step)
    requires |labels| == |h.adj| && Below(labels, |h.adj|) && |after| == |h.adj| && Below(after, |h.adj|)
    ensures PotentialOf(h, Rate(|h.adj|, step))(after) < PotentialOf(h, Rate(|h.adj|, step))(labels) + n as real
  {
    PotentialRange(h, labels, Rate(|h.adj|, step));
    PotentialRange(h, after, Rate(|h.adj|, step));
  }

  lemma PotentialRange(h: LinkGraph, labels: seq<nat>, rate: real)
    requires Mutual(h) && rate >= 0.0 && |labels| == |h.adj| && Below(labels, |h.adj|)
    ensures -(|h.adj| as real * |h.adj| as real) <= Potential(h, labels, rate) <= Scaled(rate, PullTotal(h))
  {
    AgreementRange(h, labels);
    LabelSumBound(labels, |h.adj|);
    ScaledOrder(rate, 0.0, Agreement(h, labels));
    ScaledOrder(rate, Agreement(h, labels), PullTotal(h));
  }

  lemma ScaledOrder(k: real, x: real, y: real)
    requires k >= 0.0 && x <= y
    ensures Scaled(k, x) <= Scaled(k, y)
  {
    assert k * y == k * x + k * (y - x);
  }

  /** Where the sweeps from singletons rest, every node with a neighbour has the
      smallest of the labels that pull it most. */
  lemma UncappedRunIsStable(g: ProperGraph, n: nat, step: real, u: nat, c: nat)
    requires WeightsOnGrid(g, step) && n as real > Patience(Reweighted(g), step)
    requires u < |g.adj| && c < |g.adj|
    requires NeighbourLabel(g, Sweeps(g, Reweighted(g), Singletons(|g.adj|), n), u, c)
    ensures var h, labels := Reweighted(g), Sweeps(g, Reweighted(g), Singletons(|g.adj|), n);
      && NeighbourLabel(g, labels, u, labels[u]) && WeightTo(h, labels, u, c) <= WeightTo(h, labels, u, labels[u])
      && (c < labels[u] ==> WeightTo(h, labels, u, c) < WeightTo(h, labels, u, labels[u]))
  {
    var h, labels := Reweighted(g), Sweeps(g, Reweighted(g), Singletons(|g.adj|), n);
    ComesToRest(g, h, Singletons(|g.adj|), n, step);
    PullsOnGrid(g, h, step);
    FixedPointIsStable(g, h, labels, u, c);
    LabelPullIsMultiple(h, labels, u, c, step);
    LabelPullIsMultiple(h, labels, u, labels[u], step);
    MultiplesApart(WeightTo(h, labels, u, c), WeightTo(h, labels, u, labels[u]), step);
  }
}
