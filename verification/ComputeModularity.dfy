/** The program's modularity computation (src/communities.rs, `modularity`):
    one pass over the adjacency lists fills two maps, and one pass over the map
    of communities, in no particular order, adds up their terms. */
module ComputeModularity {
  import opened RealSums
  import opened LinkGraphs
  import opened Modularity
  import ModularityBounds

  function Get(m: map<nat, real>, c: nat): real {
    if c in m then m[c] else 0.0
  }

  function InternalRow(g: LinkGraph, labels: seq<nat>, c: nat, u: nat): real {
    Sum(|g.adj|, (v: nat) => if u < v && HasLabel(labels, u, c) && HasLabel(labels, v, c) then Weight(g, u, v) else 0.0)
  }

  lemma InternalByRows(g: LinkGraph, labels: seq<nat>, c: nat)
    ensures Internal(g, labels, c) == Sum(|g.adj|, (u: nat) => InternalRow(g, labels, c, u))
  {
    var n := |g.adj|;
    var b := (u: nat, v: nat) =>
      if u < v && HasLabel(labels, u, c) && HasLabel(labels, v, c) then Weight(g, u, v) else 0.0;
    forall u: nat | u < n ensures Row(n, b, u) == InternalRow(g, labels, c, u) {
      SumEq(n, (v: nat) => b(u, v), (v: nat) =>
        if u < v && HasLabel(labels, u, c) && HasLabel(labels, v, c) then Weight(g, u, v) else 0.0);
    }
    SumEq(n, (u: nat) => Row(n, b, u), (u: nat) => InternalRow(g, labels, c, u));
  }

  /** The weight the inner loop adds for node u. */
  function LaterPeers(g: LinkGraph, labels: seq<nat>, u: nat, k: nat): real
    requires u < |g.adj| && k <= |g.adj[u]|
  {
    ListSum(g.adj[u][..k], (v: nat) => u < v && SameLabel(labels, v, u))
  }

  lemma LaterPeersIsRow(g: LinkGraph, labels: seq<nat>, u: nat, c: nat)
    requires WellFormed(g) && |labels| == |g.adj| && u < |g.adj|
    ensures InternalRow(g, labels, c, u) == if labels[u] == c then LaterPeers(g, labels, u, |g.adj[u]|) else 0.0
  {
    var f := (v: nat) => if u < v && HasLabel(labels, u, c) && HasLabel(labels, v, c) then Weight(g, u, v) else 0.0;
    if labels[u] == c {
      assert g.adj[u][..|g.adj[u]|] == g.adj[u];
      var p := (v: nat) => u < v && SameLabel(labels, v, u);
      forall v: nat | v < |g.adj| ensures f(v) == if p(v) then ListWeight(g.adj[u], v) else 0.0 {
        assert Weight(g, u, v) == ListWeight(g.adj[u], v);
      }
      ListSumIsRowSum(g.adj[u], |g.adj|, p, f);
    } else {
      SumZero(|g.adj|, f);
    }
  }

  /** Volume of community c among the first u nodes. */
  function VolumeUpTo(g: LinkGraph, labels: seq<nat>, c: nat, u: nat): real {
    Sum(u, (x: nat) => if HasLabel(labels, x, c) then Degree(g, x) else 0.0)
  }

  function InternalUpTo(g: LinkGraph, labels: seq<nat>, c: nat, u: nat): real {
    Sum(u, (x: nat) => InternalRow(g, labels, c, x))
  }

  /** First loop: internal weight and degree sum per community. */
  method Accumulate(g: LinkGraph, labels: seq<nat>) returns (internal: map<nat, real>, degSum: map<nat, real>)
    requires WellFormed(g) && |labels| == |g.adj|
    ensures forall c :: c in degSum <==> c in labels
    ensures forall c :: c in degSum ==> degSum[c] == Volume(g, labels, c)
    ensures forall c :: Get(internal, c) == Internal(g, labels, c)
  {
    internal, degSum := map[], map[];
    for u := 0 to |g.adj|
      invariant forall c :: c in degSum <==> c in labels[..u]
      invariant forall c :: Get(degSum, c) == VolumeUpTo(g, labels, c, u)
      invariant forall c :: Get(internal, c) == InternalUpTo(g, labels, c, u)
    {
      var l := labels[u];
      DegreeIsListSum(g, u);
      degSum := degSum[l := Get(degSum, l) + ListTotal(g.adj[u])];
      forall c ensures Get(degSum, c) == VolumeUpTo(g, labels, c, u + 1) {
        assert VolumeUpTo(g, labels, c, u + 1) == VolumeUpTo(g, labels, c, u) +
          if labels[u] == c then Degree(g, u) else 0.0;
      }
      ghost var before := internal;
      for k := 0 to |g.adj[u]|
        invariant forall c :: Get(internal, c) == Get(before, c) + if c == l then LaterPeers(g, labels, u, k) else 0.0
      {
        var e := g.adj[u][k];
        assert g.adj[u][..k + 1][..k] == g.adj[u][..k];
        if u < e.node && labels[e.node] == l {
          internal := internal[l := Get(internal, l) + e.weight];
        }
      }
      forall c ensures Get(internal, c) == Get(before, c) + InternalRow(g, labels, c, u) {
        LaterPeersIsRow(g, labels, u, c);
      }
      assert labels[..u + 1] == labels[..u] + [l];
    }
    assert labels[..|labels|] == labels;
    forall c ensures Get(degSum, c) == Volume(g, labels, c) {
      assert Volume(g, labels, c) == VolumeUpTo(g, labels, c, |g.adj|);
    }
    forall c ensures Get(internal, c) == Internal(g, labels, c) { InternalByRows(g, labels, c); }
  }

  /** The program's modularity equals Newman's double sum for every labelling. */
  method Compute(g: LinkGraph, labels: seq<nat>) returns (q: real)
    requires WellFormed(g) && |labels| == |g.adj|
    ensures q == Newman(g, labels)
  {
    var m := g.totalWeight;
    if m <= 0.0 {
      return 0.0;
    }
    var internal, degSum := Accumulate(g, labels);
    q := SumTerms(g, labels, internal, degSum);
    NewmanByCommunity(g, labels, LabelBound(labels));
  }

  /** The closing loop over the communities met, in any order. */
  method SumTerms(g: LinkGraph, labels: seq<nat>, internal: map<nat, real>, degSum: map<nat, real>) returns (q: real)
    requires WellFormed(g) && |labels| == |g.adj| && g.totalWeight > 0.0
    requires forall c :: c in degSum <==> c in labels
    requires forall c :: c in degSum ==> degSum[c] == Volume(g, labels, c)
    requires forall c :: Get(internal, c) == Internal(g, labels, c)
    ensures q == Sum(LabelBound(labels), (c: nat) => CommunityTerm(g, labels, c))
  {
    var m := g.totalWeight;
    q := 0.0;
    var rest := degSum.Keys;
    ghost var done: set<nat> := {};
    NothingDone(g, labels);
    while rest != {}
      invariant rest == degSum.Keys - done && done <= degSum.Keys
      invariant q == DoneSum(g, labels, done)
      decreases rest
    {
      var c :| c in rest;
      var d := degSum[c];
      var term := Get(internal, c) / m - (d / (2.0 * m)) * (d / (2.0 * m));
      q := q + term;
      OneMoreDone(g, labels, done, c);
      rest, done := rest - {c}, done + {c};
    }
    assert done == degSum.Keys;
    AllDone(g, labels, done);
  }

  ghost function DoneSum(g: LinkGraph, labels: seq<nat>, done: set<nat>): real {
    Sum(LabelBound(labels), (c: nat) => DoneTerm(g, labels, done, c))
  }

  lemma NothingDone(g: LinkGraph, labels: seq<nat>)
    ensures DoneSum(g, labels, {}) == 0.0
  {
    SumZero(LabelBound(labels), (c: nat) => DoneTerm(g, labels, {}, c));
  }

  lemma OneMoreDone(g: LinkGraph, labels: seq<nat>, done: set<nat>, c: nat)
    requires c in labels && c !in done
    ensures DoneSum(g, labels, done + {c}) == DoneSum(g, labels, done) + CommunityTerm(g, labels, c)
  {
    assert c < LabelBound(labels);
    SumUpdate(LabelBound(labels), c, (x: nat) => DoneTerm(g, labels, done, x),
              (x: nat) => DoneTerm(g, labels, done + {c}, x));
  }

  lemma AllDone(g: LinkGraph, labels: seq<nat>, done: set<nat>)
    requires WellFormed(g) && |labels| == |g.adj| && g.totalWeight > 0.0
    requires forall c :: c in labels ==> c in done
    ensures DoneSum(g, labels, done) == Sum(LabelBound(labels), (c: nat) => CommunityTerm(g, labels, c))
  {
    var bound := LabelBound(labels);
    forall c: nat | c < bound ensures DoneTerm(g, labels, done, c) == CommunityTerm(g, labels, c) {
      if c !in done { ModularityBounds.AbsentCommunity(g, labels, c); }
    }
    SumEq(bound, (c: nat) => DoneTerm(g, labels, done, c), (c: nat) => CommunityTerm(g, labels, c));
  }

  /** The term of c once c has been visited, and 0 before. */
  ghost function DoneTerm(g: LinkGraph, labels: seq<nat>, done: set<nat>, c: nat): real {
    if c in done then CommunityTerm(g, labels, c) else 0.0
  }
}
