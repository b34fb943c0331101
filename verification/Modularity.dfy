/** Newman modularity (src/communities.rs, `modularity`).

    `Newman` is the textbook double sum over node pairs. `ComputeModularity` is
    the program's form: one pass that accumulates internal weight and degree per
    community, then one term per community. */
module Modularity {
  import opened RealSums
  import opened LinkGraphs

  // ------------------------------------------------------------ definitions

  predicate SameLabel(labels: seq<nat>, u: nat, v: nat) {
    u < |labels| && v < |labels| && labels[u] == labels[v]
  }

  predicate HasLabel(labels: seq<nat>, u: nat, c: nat) {
    u < |labels| && labels[u] == c
  }

  function Square(x: real): real { x * x }

  function Scaled(k: real, x: real): real { k * x }

  /** How much the edge between u and v exceeds the weight expected from the
      degrees alone, scaled by 2m: 2m * (A_uv - d_u * d_v / 2m). */
  function ScaledExcess(g: LinkGraph, u: nat, v: nat): real {
    2.0 * g.totalWeight * Weight(g, u, v) - Degree(g, u) * Degree(g, v)
  }

  function PairTerm(g: LinkGraph, labels: seq<nat>, u: nat, v: nat): real {
    if SameLabel(labels, u, v) then ScaledExcess(g, u, v) else 0.0
  }

  /** The double sum of pair terms. */
  function PairSum(g: LinkGraph, labels: seq<nat>): real {
    Total(|g.adj|, (u: nat, v: nat) => PairTerm(g, labels, u, v))
  }

  /** Newman's modularity: (1/2m) * sum over pairs in one community of
      (A_uv - d_u * d_v / 2m); 0 for an edgeless graph. */
  function Newman(g: LinkGraph, labels: seq<nat>): real {
    if g.totalWeight <= 0.0 then 0.0
    else Square(1.0 / (2.0 * g.totalWeight)) * PairSum(g, labels)
  }

  /** Sum of the degrees of the nodes labelled c. */
  function Volume(g: LinkGraph, labels: seq<nat>, c: nat): real {
    Sum(|g.adj|, (u: nat) => if HasLabel(labels, u, c) then Degree(g, u) else 0.0)
  }

  /** Edge weight from u into the nodes labelled c. */
  function WeightTo(g: LinkGraph, labels: seq<nat>, u: nat, c: nat): real {
    Sum(|g.adj|, (v: nat) => if HasLabel(labels, v, c) then Weight(g, u, v) else 0.0)
  }

  /** Weight of the edges inside community c, each counted once. */
  function Internal(g: LinkGraph, labels: seq<nat>, c: nat): real {
    Total(|g.adj|, (u: nat, v: nat) =>
      if u < v && HasLabel(labels, u, c) && HasLabel(labels, v, c) then Weight(g, u, v) else 0.0)
  }

  /** The contribution of one community to the modularity. */
  function CommunityTerm(g: LinkGraph, labels: seq<nat>, c: nat): real
  {
    if g.totalWeight <= 0.0 then 0.0 else
    Internal(g, labels, c) / g.totalWeight - Square(Volume(g, labels, c) / (2.0 * g.totalWeight))
  }

  ghost predicate Below(labels: seq<nat>, k: nat) {
    forall u :: 0 <= u < |labels| ==> labels[u] < k
  }

  /** One more than the largest label. */
  function LabelBound(labels: seq<nat>): (k: nat)
    ensures Below(labels, k)
  {
    if labels == [] then 0
    else
      var front, last := LabelBound(labels[..|labels| - 1]), labels[|labels| - 1];
      assert forall u :: 0 <= u < |labels| - 1 ==> labels[u] == labels[..|labels| - 1][u];
      if last < front then front else last + 1
  }

  // ------------------------------------------- one community at a time

  function BothTerm(g: LinkGraph, labels: seq<nat>, c: nat, u: nat, v: nat): real {
    if HasLabel(labels, u, c) && HasLabel(labels, v, c) then ScaledExcess(g, u, v) else 0.0
  }

  /** The pair terms inside community c. */
  function CommunityPairSum(g: LinkGraph, labels: seq<nat>, c: nat): real {
    Total(|g.adj|, (u: nat, v: nat) => BothTerm(g, labels, c, u, v))
  }

  function InsideWeight(g: LinkGraph, labels: seq<nat>, c: nat, u: nat, v: nat): real {
    if HasLabel(labels, u, c) && HasLabel(labels, v, c) then Weight(g, u, v) else 0.0
  }

  function MemberDegree(g: LinkGraph, labels: seq<nat>, c: nat, u: nat): real {
    if HasLabel(labels, u, c) then Degree(g, u) else 0.0
  }

  lemma InsidePairs(g: LinkGraph, labels: seq<nat>, c: nat)
    requires WellFormed(g)
    ensures Total(|g.adj|, (u: nat, v: nat) => InsideWeight(g, labels, c, u, v)) == 2.0 * Internal(g, labels, c)
  {
    var inside := (u: nat, v: nat) => InsideWeight(g, labels, c, u, v);
    forall u: nat | u < |g.adj| ensures inside(u, u) == 0.0 { WeightFacts(g, u, u); }
    Handshake(|g.adj|, inside, (u: nat, v: nat) =>
      if u < v && HasLabel(labels, u, c) && HasLabel(labels, v, c) then Weight(g, u, v) else 0.0);
  }

  lemma DegreePairs(g: LinkGraph, labels: seq<nat>, c: nat, degs: (nat, nat) -> real)
    requires forall u: nat, v: nat :: u < |g.adj| && v < |g.adj| ==>
      degs(u, v) == Scaled(MemberDegree(g, labels, c, u), MemberDegree(g, labels, c, v))
    ensures Total(|g.adj|, degs) == Square(Volume(g, labels, c))
  {
    var member := (u: nat) => MemberDegree(g, labels, c, u);
    OuterProduct(|g.adj|, member, degs);
    SumEq(|g.adj|, member, (u: nat) => if HasLabel(labels, u, c) then Degree(g, u) else 0.0);
  }

  lemma SplitBothTerm(g: LinkGraph, labels: seq<nat>, c: nat, u: nat, v: nat)
    ensures BothTerm(g, labels, c, u, v) == Scaled(2.0 * g.totalWeight, InsideWeight(g, labels, c, u, v))
                                          - Scaled(MemberDegree(g, labels, c, u), MemberDegree(g, labels, c, v))
  {}

  /** The pairs inside community c sum to 4m * Internal(c) - Volume(c)^2. */
  lemma CommunityPairs(g: LinkGraph, labels: seq<nat>, c: nat)
    requires WellFormed(g)
    ensures CommunityPairSum(g, labels, c)
         == 2.0 * g.totalWeight * (2.0 * Internal(g, labels, c)) - Square(Volume(g, labels, c))
  {
    var degs := (u: nat, v: nat) => Scaled(MemberDegree(g, labels, c, u), MemberDegree(g, labels, c, v));
    InsidePairs(g, labels, c);
    DegreePairs(g, labels, c, degs);
    SplitPairs(g, labels, c, (u: nat, v: nat) => InsideWeight(g, labels, c, u, v), degs);
  }

  lemma SplitPairs(g: LinkGraph, labels: seq<nat>, c: nat, inside: (nat, nat) -> real, degs: (nat, nat) -> real)
    requires forall u: nat, v: nat :: u < |g.adj| && v < |g.adj| ==> inside(u, v) == InsideWeight(g, labels, c, u, v)
    requires forall u: nat, v: nat :: u < |g.adj| && v < |g.adj| ==>
      degs(u, v) == Scaled(MemberDegree(g, labels, c, u), MemberDegree(g, labels, c, v))
    ensures CommunityPairSum(g, labels, c) == 2.0 * g.totalWeight * Total(|g.adj|, inside) - Total(|g.adj|, degs)
  {
    var n, k := |g.adj|, 2.0 * g.totalWeight;
    var both := (u: nat, v: nat) => BothTerm(g, labels, c, u, v);
    forall u: nat, v: nat | u < n && v < n ensures both(u, v) == Scaled(k, inside(u, v)) - degs(u, v) {
      SplitBothTerm(g, labels, c, u, v);
    }
    CombinePairs(n, k, inside, degs, both);
  }

  lemma CombinePairs(n: nat, k: real, a: (nat, nat) -> real, b: (nat, nat) -> real, c: (nat, nat) -> real)
    requires forall u: nat, v: nat :: u < n && v < n ==> c(u, v) == Scaled(k, a(u, v)) - b(u, v)
    ensures Total(n, c) == k * Total(n, a) - Total(n, b)
  {
    var ka := (u: nat, v: nat) => Scaled(k, a(u, v));
    TotalScale(n, k, a, ka);
    TotalPlus(n, b, c, ka);
  }

  /** The part of a pair's term that falls to communities below k. */
  function TermBelow(g: LinkGraph, labels: seq<nat>, k: nat, u: nat, v: nat): real {
    if u < |labels| && labels[u] < k then PairTerm(g, labels, u, v) else 0.0
  }

  lemma TermByLabel(g: LinkGraph, labels: seq<nat>, k: nat, u: nat, v: nat)
    ensures TermBelow(g, labels, k + 1, u, v) == TermBelow(g, labels, k, u, v) + BothTerm(g, labels, k, u, v)
  {}

  /** The pairs that share a label below k, split by that label. */
  lemma {:induction false} SplitByLabel(g: LinkGraph, labels: seq<nat>, k: nat, part: nat -> real)
    requires forall c: nat :: c < k ==> part(c) == CommunityPairSum(g, labels, c)
    ensures Sum(k, part) == Total(|g.adj|, (u: nat, v: nat) => TermBelow(g, labels, k, u, v))
  {
    var n := |g.adj|;
    var upTo := (u: nat, v: nat) => TermBelow(g, labels, k, u, v);
    if k == 0 {
      TotalScale(n, 0.0, (u: nat, v: nat) => 0.0, upTo);
    } else {
      SplitByLabel(g, labels, k - 1, part);
      forall u: nat, v: nat ensures upTo(u, v) == TermBelow(g, labels, k - 1, u, v) + BothTerm(g, labels, k - 1, u, v) {
        TermByLabel(g, labels, k - 1, u, v);
      }
      TotalPlus(n, (u: nat, v: nat) => TermBelow(g, labels, k - 1, u, v),
                (u: nat, v: nat) => BothTerm(g, labels, k - 1, u, v), upTo);
    }
  }

  /** The pair terms fall apart by community. */
  lemma PairSumByCommunity(g: LinkGraph, labels: seq<nat>, k: nat, part: nat -> real)
    requires Below(labels, k) && forall c: nat :: c < k ==> part(c) == CommunityPairSum(g, labels, c)
    ensures PairSum(g, labels) == Sum(k, part)
  {
    SplitByLabel(g, labels, k, part);
    TotalEq(|g.adj|, (u: nat, v: nat) => PairTerm(g, labels, u, v), (u: nat, v: nat) => TermBelow(g, labels, k, u, v));
  }

  lemma TermIsScaledPart(g: LinkGraph, labels: seq<nat>, c: nat)
    requires WellFormed(g) && g.totalWeight > 0.0
    ensures CommunityTerm(g, labels, c) == Square(1.0 / (2.0 * g.totalWeight)) * CommunityPairSum(g, labels, c)
  {
    CommunityPairs(g, labels, c);
    ScaledTerm(g.totalWeight, Internal(g, labels, c), Volume(g, labels, c));
  }

  /** The program's per-community form equals Newman's double sum. */
  lemma NewmanByCommunity(g: LinkGraph, labels: seq<nat>, k: nat)
    requires WellFormed(g) && g.totalWeight > 0.0
    requires Below(labels, k)
    ensures Newman(g, labels) == Sum(k, (c: nat) => CommunityTerm(g, labels, c))
  {
    var part := (c: nat) => CommunityPairSum(g, labels, c);
    PairSumByCommunity(g, labels, k, part);
    TermsAreScaledParts(g, labels, k, Square(1.0 / (2.0 * g.totalWeight)), part,
                        (c: nat) => CommunityTerm(g, labels, c));
  }

  lemma TermsAreScaledParts(g: LinkGraph, labels: seq<nat>, k: nat, scale: real, part: nat -> real, term: nat -> real)
    requires WellFormed(g) && g.totalWeight > 0.0 && scale == Square(1.0 / (2.0 * g.totalWeight))
    requires forall c: nat :: c < k ==>
      part(c) == CommunityPairSum(g, labels, c) && term(c) == CommunityTerm(g, labels, c)
    ensures Sum(k, term) == scale * Sum(k, part)
  {
    forall c: nat | c < k ensures term(c) == scale * part(c) {
      TermIsScaledPart(g, labels, c);
    }
    SumScale(k, scale, part, term);
  }

  lemma ScaledTerm(m: real, internal: real, vol: real)
    requires m > 0.0
    ensures internal / m - Square(vol / (2.0 * m))
         == Square(1.0 / (2.0 * m)) * (2.0 * m * (2.0 * internal) - Square(vol))
  {
    var i := 1.0 / (2.0 * m);
    assert 2.0 * m * i == 1.0;
    assert vol / (2.0 * m) == vol * i;
    assert internal / m == internal * (2.0 * i);
    calc {
      i * i * (2.0 * m * (2.0 * internal) - vol * vol);
      (2.0 * m * i) * i * (2.0 * internal) - (vol * i) * (vol * i);
      i * (2.0 * internal) - (vol * i) * (vol * i);
    }
  }

  // ------------------------------------------------ the effect of one move

  function IntoCommunity(g: LinkGraph, labels: seq<nat>, x: nat, c: nat, v: nat): real {
    if HasLabel(labels, v, c) then ScaledExcess(g, x, v) else 0.0
  }

  function RowInto(g: LinkGraph, labels: seq<nat>, x: nat, c: nat): real {
    Sum(|g.adj|, (v: nat) => IntoCommunity(g, labels, x, c, v))
  }

  /** The weight between x and v, if v is labelled c. */
  function WeightAt(g: LinkGraph, labels: seq<nat>, x: nat, c: nat, v: nat): real {
    if HasLabel(labels, v, c) then Weight(g, x, v) else 0.0
  }

  /** Row x of the pair terms restricted to the nodes labelled c. */
  lemma RowIntoCommunity(g: LinkGraph, labels: seq<nat>, x: nat, c: nat)
    ensures RowInto(g, labels, x, c) ==
      2.0 * g.totalWeight * WeightTo(g, labels, x, c) - Degree(g, x) * Volume(g, labels, c)
  {
    var n, k, l := |g.adj|, 2.0 * g.totalWeight, Degree(g, x);
    var kw := (v: nat) => Scaled(k, WeightAt(g, labels, x, c, v));
    var ld := (v: nat) => Scaled(l, MemberDegree(g, labels, c, v));
    ScaledWeightTo(g, labels, x, c, k, kw);
    ScaledVolume(g, labels, c, l, ld);
    SplitRow(g, labels, x, c, kw, ld);
  }

  lemma SplitRow(g: LinkGraph, labels: seq<nat>, x: nat, c: nat, kw: nat -> real, ld: nat -> real)
    requires forall v: nat :: v < |g.adj| ==> kw(v) == Scaled(2.0 * g.totalWeight, WeightAt(g, labels, x, c, v))
    requires forall v: nat :: v < |g.adj| ==> ld(v) == Scaled(Degree(g, x), MemberDegree(g, labels, c, v))
    ensures RowInto(g, labels, x, c) == Sum(|g.adj|, kw) - Sum(|g.adj|, ld)
  {
    var into := (v: nat) => IntoCommunity(g, labels, x, c, v);
    forall v: nat | v < |g.adj| ensures kw(v) == into(v) + ld(v) {
      IntoSplits(g, labels, x, c, v);
    }
    SumPlus(|g.adj|, into, ld, kw);
  }

  lemma ScaledWeightTo(g: LinkGraph, labels: seq<nat>, x: nat, c: nat, k: real, kw: nat -> real)
    requires forall v: nat :: v < |g.adj| ==> kw(v) == Scaled(k, WeightAt(g, labels, x, c, v))
    ensures Sum(|g.adj|, kw) == k * WeightTo(g, labels, x, c)
  {
    var w := (v: nat) => WeightAt(g, labels, x, c, v);
    SumScale(|g.adj|, k, w, kw);
    SumEq(|g.adj|, w, (v: nat) => if HasLabel(labels, v, c) then Weight(g, x, v) else 0.0);
  }

  lemma ScaledVolume(g: LinkGraph, labels: seq<nat>, c: nat, l: real, ld: nat -> real)
    requires forall v: nat :: v < |g.adj| ==> ld(v) == Scaled(l, MemberDegree(g, labels, c, v))
    ensures Sum(|g.adj|, ld) == l * Volume(g, labels, c)
  {
    var d := (v: nat) => MemberDegree(g, labels, c, v);
    SumScale(|g.adj|, l, d, ld);
    SumEq(|g.adj|, d, (u: nat) => if HasLabel(labels, u, c) then Degree(g, u) else 0.0);
  }

  lemma IntoSplits(g: LinkGraph, labels: seq<nat>, x: nat, c: nat, v: nat)
    ensures IntoCommunity(g, labels, x, c, v) ==
      Scaled(2.0 * g.totalWeight, WeightAt(g, labels, x, c, v)) - Scaled(Degree(g, x), MemberDegree(g, labels, c, v))
  {
    SplitExcess(g, x, v);
  }

  lemma SplitExcess(g: LinkGraph, x: nat, v: nat)
    ensures ScaledExcess(g, x, v) == (2.0 * g.totalWeight) * Weight(g, x, v) - Degree(g, x) * Degree(g, v)
  {}

  /** Relabelling x moves its row from one community's columns to another's. */
  lemma RelabelledRow(n: nat, x: nat, s: nat -> real, into: nat -> real, from: nat -> real, e: nat -> real)
    requires x < n && into(x) == 0.0 && from(x) == s(x) && e(x) == 0.0
    requires forall v: nat :: v < n && v != x ==> e(v) == into(v) - from(v)
    ensures Sum(n, e) == Sum(n, into) - Sum(n, from) + s(x)
  {
    var stay := (v: nat) => if v == x then s(x) else 0.0;
    var left := (v: nat) => e(v) + from(v);
    SumOnly(n, x, stay);
    SumPlus(n, into, stay, left);
    SumPlus(n, e, from, left);
  }

  /** What moving x into community c adds to row x of the pair terms. */
  lemma MovedRow(g: LinkGraph, labels: seq<nat>, x: nat, c: nat, e: nat -> real)
    requires WellFormed(g) && |labels| == |g.adj| && x < |g.adj| && c != labels[x]
    requires forall v: nat :: v < |g.adj| ==> e(v) == PairTerm(g, labels[x := c], x, v) - PairTerm(g, labels, x, v)
    ensures Sum(|g.adj|, e) ==
      (2.0 * g.totalWeight * WeightTo(g, labels, x, c) - Degree(g, x) * Volume(g, labels, c))
      - (2.0 * g.totalWeight * WeightTo(g, labels, x, labels[x]) - Degree(g, x) * Volume(g, labels, labels[x]))
      - Degree(g, x) * Degree(g, x)
  {
    RowIntoCommunity(g, labels, x, c);
    RowIntoCommunity(g, labels, x, labels[x]);
    MovedRowSums(g, labels, x, c, e);
    OwnExcess(g, x);
  }

  lemma OwnExcess(g: LinkGraph, x: nat)
    requires WellFormed(g) && x < |g.adj|
    ensures ScaledExcess(g, x, x) == -(Degree(g, x) * Degree(g, x))
  {
    WeightFacts(g, x, x);
    SplitExcess(g, x, x);
  }

  lemma MovedRowSums(g: LinkGraph, labels: seq<nat>, x: nat, c: nat, e: nat -> real)
    requires |labels| == |g.adj| && x < |g.adj| && c != labels[x]
    requires forall v: nat :: v < |g.adj| ==> e(v) == PairTerm(g, labels[x := c], x, v) - PairTerm(g, labels, x, v)
    ensures Sum(|g.adj|, e) == RowInto(g, labels, x, c) - RowInto(g, labels, x, labels[x]) + ScaledExcess(g, x, x)
  {
    var cur := labels[x];
    RelabelledRow(|g.adj|, x, (v: nat) => ScaledExcess(g, x, v),
                  (v: nat) => IntoCommunity(g, labels, x, c, v), (v: nat) => IntoCommunity(g, labels, x, cur, v), e);
  }

  lemma MovedPairSum(g: LinkGraph, labels: seq<nat>, x: nat, c: nat)
    requires WellFormed(g) && |labels| == |g.adj| && x < |g.adj| && c != labels[x]
    ensures PairSum(g, labels[x := c]) - PairSum(g, labels) == 2.0 * (
      (2.0 * g.totalWeight * WeightTo(g, labels, x, c) - Degree(g, x) * Volume(g, labels, c))
      - (2.0 * g.totalWeight * WeightTo(g, labels, x, labels[x]) - Degree(g, x) * Volume(g, labels, labels[x]))
      - Degree(g, x) * Degree(g, x))
  {
    var n := |g.adj|;
    var before := (u: nat, v: nat) => PairTerm(g, labels, u, v);
    var after := (u: nat, v: nat) => PairTerm(g, labels[x := c], u, v);
    var e := (u: nat, v: nat) => after(u, v) - before(u, v);
    var row := (v: nat) => e(x, v);
    TotalPlus(n, before, e, after);
    forall u: nat, v: nat | u < n && v < n ensures e(u, v) == e(v, u) {
      PairTermSymmetric(g, labels, labels[x := c], u, v);
    }
    CrossTotal(n, x, e);
    MovedRow(g, labels, x, c, row);
    assert Row(n, e, x) == Sum(n, row);
  }

  /** The local gain computed by `greedy_modularity` is exactly the change of
      the global modularity. */
  lemma MoveGain(g: LinkGraph, labels: seq<nat>, x: nat, c: nat)
    requires WellFormed(g) && g.totalWeight > 0.0
    requires |labels| == |g.adj| && x < |g.adj| && c != labels[x]
    ensures Newman(g, labels[x := c]) - Newman(g, labels) == LocalGain(g.totalWeight, Degree(g, x),
      WeightTo(g, labels, x, c), WeightTo(g, labels, x, labels[x]),
      Volume(g, labels, c), Volume(g, labels, labels[x]) - Degree(g, x))
  {
    MovedPairSum(g, labels, x, c);
    GainArithmetic(g.totalWeight, Degree(g, x), WeightTo(g, labels, x, c), WeightTo(g, labels, x, labels[x]),
                   Volume(g, labels, c), Volume(g, labels, labels[x]), PairSum(g, labels), PairSum(g, labels[x := c]));
  }

  lemma PairTermSymmetric(g: LinkGraph, labels: seq<nat>, labels': seq<nat>, u: nat, v: nat)
    requires WellFormed(g) && u < |g.adj| && v < |g.adj|
    ensures PairTerm(g, labels, u, v) == PairTerm(g, labels, v, u)
    ensures PairTerm(g, labels', u, v) == PairTerm(g, labels', v, u)
  {}

  /** The gain expression of src/communities.rs:212-213. */
  function LocalGain(m: real, degree: real, wTo: real, wCur: real, volTo: real, volCur: real): real
    requires m > 0.0
  {
    (wTo - wCur) / m - degree * (volTo - volCur) / (2.0 * m * m)
  }

  lemma GainArithmetic(m: real, d: real, wTo: real, wCur: real, volTo: real, volCur: real, before: real, after: real)
    requires m > 0.0
    requires after - before == 2.0 * ((2.0 * m * wTo - d * volTo) - (2.0 * m * wCur - d * volCur) - d * d)
    ensures Square(1.0 / (2.0 * m)) * after - Square(1.0 / (2.0 * m)) * before
         == LocalGain(m, d, wTo, wCur, volTo, volCur - d)
  {
    var i, dw, p := 1.0 / (2.0 * m), wTo - wCur, d * (volTo - (volCur - d));
    assert 2.0 * m * i == 1.0;
    assert after - before == 2.0 * (2.0 * m * dw - p);
    assert dw / m == dw * (2.0 * i);
    assert p / (2.0 * m * m) == p * (2.0 * (i * i)) by {
      assert (2.0 * m * m) * (2.0 * (i * i)) == (2.0 * m * i) * (2.0 * m * i);
      QuotientByInverse(p, 2.0 * m * m, 2.0 * (i * i));
    }
    calc {
      i * i * after - i * i * before;
      i * i * (after - before);
      i * i * (2.0 * (2.0 * m * dw - p));
      (2.0 * m * i) * (2.0 * i) * dw - p * (2.0 * (i * i));
      2.0 * i * dw - p * (2.0 * (i * i));
    }
  }

  lemma QuotientByInverse(x: real, y: real, z: real)
    requires y * z == 1.0 && y != 0.0
    ensures x / y == x * z
  {
    assert x / y * y == x;
    assert x / y == x / y * (y * z) == (x / y * y) * z;
  }
}
