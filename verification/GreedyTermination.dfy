/** The greedy optimiser without its cap on passes (src/communities.rs,
    `greedy_modularity`): every pass that moves a node gains more than the tolerance
    and the score is bounded, so it comes to rest, and where it rests it is locally
    optimal. */
module GreedyTermination {
  import opened LinkGraphs
  import opened Modularity
  import opened ModularityBounds
  import opened GreedyModularity

  /** A pass moves nothing. */
  ghost predicate AtRest(g: ProperGraph, labels: seq<nat>)
    requires |labels| == |g.adj|
  {
    Pass(g, labels, |g.adj|) == labels
  }

  /** n passes have reached rest or have gained n times the tolerance. */
  lemma {:induction false} RestOrProgress(g: ProperGraph, labels: seq<nat>, n: nat)
    requires |labels| == |g.adj|
    ensures AtRest(g, Run(g, labels, n)) || Newman(g, Run(g, labels, n)) >= Newman(g, labels) + n as real * EPSILON
    decreases n
  {
    if n > 0 {
      var next := Pass(g, labels, |g.adj|);
      if next == labels {
        FixedPointStays(g, labels, n);
      } else {
        PassImproves(g, labels, |g.adj|);
        RestOrProgress(g, next, n - 1);
        assert n as real * EPSILON == (n - 1) as real * EPSILON + EPSILON;
      }
    }
  }

  /** From any labelling, a number of passes whose tolerances add up to the whole
      range of the score is enough to come to rest. */
  lemma ComesToRest(g: ProperGraph, labels: seq<nat>, n: nat)
    requires |labels| == |g.adj| && n as real * EPSILON >= 1.5
    ensures AtRest(g, Run(g, labels, n))
  {
    if g.totalWeight > 0.0 {
      RestOrProgress(g, labels, n);
      ModularityRange(g, labels);
      ModularityRange(g, Run(g, labels, n));
    } else {
      RestOrProgress(g, labels, n);
    }
  }

  /** At rest no single node gains more than the tolerance by joining the community of
      a neighbour. */
  lemma UncappedRunIsLocalOptimum(g: ProperGraph, n: nat, u: nat, c: nat)
    requires n as real * EPSILON >= 1.5 && u < |g.adj| && c < |g.adj|
    requires NeighbourLabel(g, Run(g, Singletons(|g.adj|), n), u, c)
    ensures Gain(g, Run(g, Singletons(|g.adj|), n), u, c) <= EPSILON
  {
    ComesToRest(g, Singletons(|g.adj|), n);
    FixedPointIsLocalOptimum(g, Run(g, Singletons(|g.adj|), n), u, c);
  }
}
