/** Greedy modularity optimisation (src/communities.rs, `greedy_modularity`).

    The reference optimiser `Run` recomputes Newman modularity from scratch for
    every candidate move. The program never evaluates modularity at all: it
    keeps the degree sum of every community up to date and uses a local gain
    formula. `Optimise` is the program's form, proved to return exactly the
    labelling of the reference optimiser; the theorems are about the reference. */
module GreedyModularity {
  import opened RealSums
  import opened LinkGraphs
  import opened Modularity
  import opened ComputeModularity

  /** Tolerance of every gain comparison. */
  const EPSILON: real := 0.000000000001
  /** Cap on the number of passes. */
  const MAX_ALGO_ITERS: nat := 50

  // ---------------------------------------------------- reference optimiser

  ghost predicate NeighbourLabel(g: ProperGraph, labels: seq<nat>, u: nat, c: nat)
    requires |labels| == |g.adj| && u < |g.adj|
  {
    exists k :: 0 <= k < |g.adj[u]| && labels[g.adj[u][k].node] == c
  }

  /** The true change of modularity when u is relabelled c. */
  ghost function Gain(g: LinkGraph, labels: seq<nat>, u: nat, c: nat): real
    requires u < |labels|
  {
    Newman(g, labels[u := c]) - Newman(g, labels)
  }

  datatype Choice = Choice(community: nat, gain: real)

  ghost predicate Better(g: ProperGraph, labels: seq<nat>, u: nat, c: nat, best: real)
    requires |labels| == |g.adj| && u < |g.adj|
  {
    NeighbourLabel(g, labels, u, c) && c != labels[u] && Gain(g, labels, u, c) > best + EPSILON
  }

  /** Best move of u among the communities with a label below k, tried in
      ascending order. */
  ghost function BestMove(g: ProperGraph, labels: seq<nat>, u: nat, k: nat): Choice
    requires |labels| == |g.adj| && u < |g.adj|
  {
    if k == 0 then Choice(labels[u], 0.0)
    else
      var best := BestMove(g, labels, u, k - 1);
      if Better(g, labels, u, k - 1, best.gain) then Choice(k - 1, Gain(g, labels, u, k - 1)) else best
  }

  ghost function Visit(g: ProperGraph, labels: seq<nat>, u: nat): (r: seq<nat>)
    requires |labels| == |g.adj| && u < |g.adj|
    ensures |r| == |labels|
  {
    labels[u := BestMove(g, labels, u, |g.adj|).community]
  }

  /** The labelling after the first u nodes have been visited. */
  ghost function Pass(g: ProperGraph, labels: seq<nat>, u: nat): (r: seq<nat>)
    requires |labels| == |g.adj| && u <= |g.adj|
    ensures |r| == |labels|
  {
    if u == 0 then labels else Visit(g, Pass(g, labels, u - 1), u - 1)
  }

  ghost function Run(g: ProperGraph, labels: seq<nat>, passes: nat): (r: seq<nat>)
    requires |labels| == |g.adj|
    ensures |r| == |labels|
    decreases passes
  {
    if passes == 0 then labels else Run(g, Pass(g, labels, |g.adj|), passes - 1)
  }

  // ------------------------------------------------ facts about one decision

  /** The chosen move: staying put gains nothing, moving gains more than the
      tolerance; no community beats the choice by more than the tolerance, and
      every community with a smaller label gains strictly less. */
  lemma {:induction false} BestMoveIsBest(g: ProperGraph, labels: seq<nat>, u: nat, k: nat)
    requires |labels| == |g.adj| && u < |g.adj|
    ensures var b := BestMove(g, labels, u, k);
      && b.gain == Gain(g, labels, u, b.community)
      && (b.community == labels[u] ||
           (b.community < k && NeighbourLabel(g, labels, u, b.community) && b.gain > EPSILON))
      && (forall c: nat :: c < k && NeighbourLabel(g, labels, u, c) && c != labels[u] ==>
            Gain(g, labels, u, c) <= b.gain + EPSILON)
      && (b.community != labels[u] ==>
            forall c: nat :: c < k && c < b.community && NeighbourLabel(g, labels, u, c) && c != labels[u] ==>
              Gain(g, labels, u, c) < b.gain)
      && b.gain >= 0.0
  {
    if k == 0 {
      assert labels[u := labels[u]] == labels;
    } else {
      BestMoveIsBest(g, labels, u, k - 1);
    }
  }

  lemma VisitImproves(g: ProperGraph, labels: seq<nat>, u: nat)
    requires |labels| == |g.adj| && u < |g.adj|
    ensures Visit(g, labels, u) != labels ==> Newman(g, Visit(g, labels, u)) > Newman(g, labels) + EPSILON
  {
    BestMoveIsBest(g, labels, u, |g.adj|);
    assert labels[u := labels[u]] == labels;
  }

  lemma {:induction false} PassImproves(g: ProperGraph, labels: seq<nat>, u: nat)
    requires |labels| == |g.adj| && u <= |g.adj|
    ensures Pass(g, labels, u) != labels ==> Newman(g, Pass(g, labels, u)) > Newman(g, labels) + EPSILON
  {
    if u > 0 {
      PassImproves(g, labels, u - 1);
      VisitImproves(g, Pass(g, labels, u - 1), u - 1);
    }
  }

  /** Modularity never falls, and a run that changes the labelling at all ends
      strictly above where it started. */
  lemma {:induction false} RunImproves(g: ProperGraph, labels: seq<nat>, passes: nat)
    requires |labels| == |g.adj|
    ensures Newman(g, Run(g, labels, passes)) >= Newman(g, labels)
    ensures Run(g, labels, passes) != labels ==> Newman(g, Run(g, labels, passes)) > Newman(g, labels) + EPSILON
    decreases passes
  {
    if passes > 0 {
      PassImproves(g, labels, |g.adj|);
      RunImproves(g, Pass(g, labels, |g.adj|), passes - 1);
    }
  }

  lemma VisitKeepsPaths(g: ProperGraph, labels: seq<nat>, u: nat)
    requires LabelsFollowPaths(g, labels) && u < |g.adj|
    ensures LabelsFollowPaths(g, Visit(g, labels, u))
  {
    BestMoveIsBest(g, labels, u, |g.adj|);
    var b := BestMove(g, labels, u, |g.adj|).community;
    if b == labels[u] {
      assert labels[u := b] == labels;
    } else {
      var k :| 0 <= k < |g.adj[u]| && labels[g.adj[u][k].node] == b;
      AdoptingKeepsPaths(g, labels, u, k);
    }
  }

  lemma {:induction false} PassKeepsPaths(g: ProperGraph, labels: seq<nat>, u: nat)
    requires LabelsFollowPaths(g, labels) && u <= |g.adj|
    ensures LabelsFollowPaths(g, Pass(g, labels, u))
  {
    if u > 0 {
      PassKeepsPaths(g, labels, u - 1);
      VisitKeepsPaths(g, Pass(g, labels, u - 1), u - 1);
    }
  }

  /** After any number of passes no community spans two connected components. */
  lemma {:induction false} RunKeepsPaths(g: ProperGraph, labels: seq<nat>, passes: nat)
    requires LabelsFollowPaths(g, labels)
    ensures LabelsFollowPaths(g, Run(g, labels, passes))
    ensures CommunitiesConnected(g, Run(g, labels, passes))
    decreases passes
  {
    if passes > 0 {
      PassKeepsPaths(g, labels, |g.adj|);
      RunKeepsPaths(g, Pass(g, labels, |g.adj|), passes - 1);
    } else {
      PathsGiveConnectedCommunities(g, labels);
    }
  }

  // -------------------------------------------------------------- fixed points

  /** A pass that ends where it began changed nothing on the way, because
      modularity would otherwise have risen. */
  lemma {:induction false} QuietPrefix(g: ProperGraph, labels: seq<nat>, u: nat, v: nat)
    requires |labels| == |g.adj| && u <= v <= |g.adj|
    requires Pass(g, labels, v) == labels
    ensures Pass(g, labels, u) == labels
    decreases v - u
  {
    if u < v {
      VisitImproves(g, Pass(g, labels, v - 1), v - 1);
      PassImproves(g, labels, v - 1);
      QuietPrefix(g, labels, u, v - 1);
    }
  }

  /** At a fixed point no node can gain more than the tolerance by joining a
      neighbouring community. */
  lemma FixedPointIsLocalOptimum(g: ProperGraph, labels: seq<nat>, u: nat, c: nat)
    requires |labels| == |g.adj| && u < |g.adj|
    requires Pass(g, labels, |g.adj|) == labels
    requires c < |g.adj| && NeighbourLabel(g, labels, u, c)
    ensures Gain(g, labels, u, c) <= EPSILON
  {
    QuietPrefix(g, labels, u, |g.adj|);
    QuietPrefix(g, labels, u + 1, |g.adj|);
    BestMoveIsBest(g, labels, u, |g.adj|);
    assert labels[u := labels[u]] == labels;
    var b := BestMove(g, labels, u, |g.adj|);
    assert labels[u := b.community][u] == labels[u];
  }

  lemma {:induction false} FixedPointStays(g: ProperGraph, labels: seq<nat>, passes: nat)
    requires |labels| == |g.adj|
    requires Pass(g, labels, |g.adj|) == labels
    ensures Run(g, labels, passes) == labels
  {
    if passes > 0 { FixedPointStays(g, labels, passes - 1); }
  }

  /** Without edges nothing ever moves. */
  lemma {:induction false} EdgelessPass(g: ProperGraph, labels: seq<nat>, u: nat)
    requires |labels| == |g.adj| && u <= |g.adj|
    requires forall x :: 0 <= x < |g.adj| ==> g.adj[x] == []
    ensures Pass(g, labels, u) == labels
  {
    if u > 0 {
      EdgelessPass(g, labels, u - 1);
      IsolatedStays(g, labels, u - 1);
    }
  }

  lemma IsolatedStays(g: ProperGraph, labels: seq<nat>, u: nat)
    requires |labels| == |g.adj| && u < |g.adj| && g.adj[u] == []
    ensures Visit(g, labels, u) == labels
  {
    BestMoveIsBest(g, labels, u, |g.adj|);
  }

  // ---------------------------------------------------------- program's form

  /** `commDegree` is the table of community volumes. */
  ghost predicate Tallied(g: LinkGraph, labels: seq<nat>, commDegree: seq<real>) {
    && |labels| == |commDegree| == |g.adj|
    && Below(labels, |g.adj|)
    && forall c :: 0 <= c < |commDegree| ==> commDegree[c] == Volume(g, labels, c)
  }

  /** Moving u takes its degree from one volume and adds it to another. */
  lemma VolumeAfterMove(g: LinkGraph, labels: seq<nat>, u: nat, b: nat, c: nat)
    requires |labels| == |g.adj| && u < |g.adj|
    ensures Volume(g, labels[u := b], c) == Volume(g, labels, c)
      + (if c == b then Degree(g, u) else 0.0) - (if c == labels[u] then Degree(g, u) else 0.0)
  {
    SumUpdate(|g.adj|, u, (x: nat) => if HasLabel(labels, x, c) then Degree(g, x) else 0.0,
              (x: nat) => if HasLabel(labels[u := b], x, c) then Degree(g, x) else 0.0);
  }

  /** Weight from the first k entries of u's list into community c. */
  function WeightToUpTo(g: LinkGraph, labels: seq<nat>, u: nat, k: nat, c: nat): real
    requires u < |g.adj| && k <= |g.adj[u]|
  {
    ListSum(g.adj[u][..k], (v: nat) => HasLabel(labels, v, c))
  }

  lemma WholeListIsWeightTo(g: LinkGraph, labels: seq<nat>, u: nat, c: nat)
    requires u < |g.adj| && forall i :: 0 <= i < |g.adj[u]| ==> g.adj[u][i].node < |g.adj|
    ensures WeightToUpTo(g, labels, u, |g.adj[u]|, c) == WeightTo(g, labels, u, c)
  {
    var p := (v: nat) => HasLabel(labels, v, c);
    var f := (v: nat) => if HasLabel(labels, v, c) then Weight(g, u, v) else 0.0;
    assert g.adj[u][..|g.adj[u]|] == g.adj[u];
    forall v: nat | v < |g.adj| ensures f(v) == if p(v) then ListWeight(g.adj[u], v) else 0.0 {
      assert Weight(g, u, v) == ListWeight(g.adj[u], v);
    }
    ListSumIsRowSum(g.adj[u], |g.adj|, p, f);
  }

  /** The weight from u to each community that holds one of its neighbours. */
  method NeighbourWeights(g: ProperGraph, labels: array<nat>, u: nat) returns (wTo: map<nat, real>)
    requires labels.Length == |g.adj| && u < |g.adj|
    ensures forall c :: c in wTo <==> NeighbourLabel(g, labels[..], u, c)
    ensures forall c :: Get(wTo, c) == WeightTo(g, labels[..], u, c)
  {
    wTo := map[];
    for k := 0 to |g.adj[u]|
      invariant forall c :: c in wTo <==> exists i :: 0 <= i < k && labels[g.adj[u][i].node] == c
      invariant forall c :: Get(wTo, c) == WeightToUpTo(g, labels[..], u, k, c)
    {
      var e := g.adj[u][k];
      assert g.adj[u][..k + 1][..k] == g.adj[u][..k];
      ghost var before := wTo;
      wTo := wTo[labels[e.node] := Get(wTo, labels[e.node]) + e.weight];
      forall c: nat ensures Get(wTo, c) == WeightToUpTo(g, labels[..], u, k + 1, c) {
        assert g.adj[u][..k + 1][k] == e;
        assert Get(before, c) == WeightToUpTo(g, labels[..], u, k, c);
        assert WeightToUpTo(g, labels[..], u, k + 1, c)
            == WeightToUpTo(g, labels[..], u, k, c) + if labels[e.node] == c then e.weight else 0.0;
      }
    }
    forall c ensures Get(wTo, c) == WeightTo(g, labels[..], u, c) { WholeListIsWeightTo(g, labels[..], u, c); }
  }

  /** The program's gain expression is the true change of modularity. */
  method GainOfMove(g: ProperGraph, ghost labels: seq<nat>, ghost u: nat, ghost c: nat, wC: real, wCur: real, deg: real,
                    volC: real, volCur: real) returns (gain: real)
    requires g.totalWeight > 0.0 && |labels| == |g.adj| && u < |g.adj| && c != labels[u]
    requires wC == WeightTo(g, labels, u, c) && wCur == WeightTo(g, labels, u, labels[u]) && deg == Degree(g, u)
    requires volC == Volume(g, labels, c) && volCur == Volume(g, labels, labels[u]) - deg
    ensures gain == Gain(g, labels, u, c)
  {
    var m := g.totalWeight;
    gain := (wC - wCur) / m - deg * (volC - volCur) / (2.0 * m * m);
    MoveGain(g, labels, u, c);
  }

  /** Scan the neighbouring communities in ascending order, with u already
      taken out of its own community's degree sum. */
  method ChooseCommunity(g: ProperGraph, degree: seq<real>, labels: array<nat>, commDegree: array<real>, u: nat,
                         wTo: map<nat, real>) returns (bestComm: nat)
    requires g.totalWeight > 0.0 && u < |g.adj| && labels.Length == commDegree.Length == |g.adj|
    requires Below(labels[..], |g.adj|)
    requires |degree| == |g.adj| && degree[u] == Degree(g, u)
    requires forall c :: c in wTo <==> NeighbourLabel(g, labels[..], u, c)
    requires forall c :: Get(wTo, c) == WeightTo(g, labels[..], u, c)
    requires forall c :: 0 <= c < |g.adj| ==>
      commDegree[c] == Volume(g, labels[..], c) - if c == labels[u] then Degree(g, u) else 0.0
    ensures bestComm == BestMove(g, labels[..], u, |g.adj|).community < |g.adj|
  {
    var cur := labels[u];
    var wCur := Get(wTo, cur);
    bestComm := cur;
    var bestGain := 0.0;
    for c := 0 to |g.adj|
      invariant bestComm < |g.adj|
      invariant Choice(bestComm, bestGain) == BestMove(g, labels[..], u, c)
    {
      if c in wTo && c != cur {
        var gain := GainOfMove(g, labels[..], u, c, wTo[c], wCur, degree[u], commDegree[c], commDegree[cur]);
        if gain > bestGain + EPSILON {
          bestGain, bestComm := gain, c;
        }
      }
    }
  }

  /** One node visit: the labelling moves as in the reference optimiser and
      the degree sums stay exact. */
  method VisitNode(g: ProperGraph, degree: seq<real>, labels: array<nat>, commDegree: array<real>, u: nat)
    returns (moved: bool)
    requires g.totalWeight > 0.0 && u < |g.adj|
    requires |degree| == |g.adj| && forall x: nat :: x < |g.adj| ==> degree[x] == Degree(g, x)
    requires Tallied(g, labels[..], commDegree[..])
    modifies labels, commDegree
    ensures Tallied(g, labels[..], commDegree[..])
    ensures labels[..] == Visit(g, old(labels[..]), u)
    ensures moved <==> labels[..] != old(labels[..])
  {
    if |g.adj[u]| == 0 {
      IsolatedStays(g, labels[..], u);
      return false;
    }
    ghost var before := labels[..];
    var cur := labels[u];
    var wTo := NeighbourWeights(g, labels, u);
    commDegree[cur] := commDegree[cur] - degree[u];
    var bestComm := ChooseCommunity(g, degree, labels, commDegree, u, wTo);
    commDegree[bestComm] := commDegree[bestComm] + degree[u];
    forall c: nat | c < |g.adj| ensures commDegree[c] == Volume(g, before[u := bestComm], c) {
      VolumeAfterMove(g, before, u, bestComm, c);
    }
    assert before[u := before[u]] == before;
    moved := bestComm != cur;
    if moved {
      labels[u] := bestComm;
    }
    assert labels[..] == before[u := bestComm];
  }

  /** The program returns the labelling of the reference optimiser. */
  method Optimise(g: ProperGraph, maxPasses: nat := MAX_ALGO_ITERS) returns (labels: array<nat>)
    ensures fresh(labels) && labels[..] == Run(g, Singletons(|g.adj|), maxPasses)
  {
    var n := |g.adj|;
    labels := new nat[n](i => i);
    assert labels[..] == Singletons(n);
    EdgelessIffWeightless(g);
    if g.totalWeight <= 0.0 {
      EdgelessPass(g, labels[..], n);
      FixedPointStays(g, labels[..], maxPasses);
      return;
    }
    var degree: seq<real> := seq(n, u requires 0 <= u < n => ListTotal(g.adj[u]));
    forall u: nat | u < n ensures degree[u] == Degree(g, u) { DegreeIsListSum(g, u); }
    var commDegree := new real[n](i requires 0 <= i < n => degree[i]);
    SingletonsTallied(g, commDegree[..]);
    for pass := 0 to maxPasses
      invariant Tallied(g, labels[..], commDegree[..])
      invariant Run(g, Singletons(n), maxPasses) == Run(g, labels[..], maxPasses - pass)
    {
      ghost var start := labels[..];
      var moved := false;
      for u := 0 to n
        invariant Tallied(g, labels[..], commDegree[..])
        invariant labels[..] == Pass(g, start, u)
        invariant !moved ==> labels[..] == start
      {
        var m := VisitNode(g, degree, labels, commDegree, u);
        moved := moved || m;
      }
      if !moved {
        FixedPointStays(g, start, maxPasses - pass);
        return;
      }
    }
  }

  lemma SingletonsTallied(g: LinkGraph, commDegree: seq<real>)
    requires |commDegree| == |g.adj|
    requires forall u: nat :: u < |g.adj| ==> commDegree[u] == Degree(g, u)
    ensures Tallied(g, Singletons(|g.adj|), commDegree)
  {
    var labels := Singletons(|g.adj|);
    forall c: nat | c < |g.adj| ensures commDegree[c] == Volume(g, labels, c) {
      SumOnly(|g.adj|, c, (u: nat) => if HasLabel(labels, u, c) then Degree(g, u) else 0.0);
    }
  }

  /** What the caller of `greedy_modularity` may rely on. */
  lemma OptimiserTheorem(g: ProperGraph, maxPasses: nat)
    ensures var start, labels := Singletons(|g.adj|), Run(g, Singletons(|g.adj|), maxPasses);
      && CommunitiesConnected(g, labels)
      && Newman(g, labels) >= Newman(g, start)
      && (labels != start ==> Newman(g, labels) > Newman(g, start) + EPSILON)
  {
    SingletonsFollowPaths(g);
    RunKeepsPaths(g, Singletons(|g.adj|), maxPasses);
    RunImproves(g, Singletons(|g.adj|), maxPasses);
  }
}
