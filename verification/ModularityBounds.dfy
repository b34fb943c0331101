/** The range of Newman modularity on graphs built by the program
    (src/communities.rs, `modularity`): it lies in [-1/2, 1), and a labelling
    with a single community scores exactly 0. */
module ModularityBounds {
  import opened RealSums
  import opened LinkGraphs
  import opened Modularity

  // --------------------------------------- what is known of each community

  /** Twice the internal weight of a community is at most its volume. */
  lemma InternalAtMostVolume(g: LinkGraph, labels: seq<nat>, c: nat)
    requires WellFormed(g)
    ensures 0.0 <= 2.0 * Internal(g, labels, c) <= Volume(g, labels, c)
  {
    var n := |g.adj|;
    var inside := (u: nat, v: nat) => InsideWeight(g, labels, c, u, v);
    var touching := (u: nat, v: nat) => if HasLabel(labels, u, c) then Weight(g, u, v) else 0.0;
    forall u: nat, v: nat | u < n && v < n ensures 0.0 <= inside(u, v) <= touching(u, v) { WeightFacts(g, u, v); }
    InsidePairs(g, labels, c);
    TotalMono(n, inside, touching);
    TouchingIsVolume(g, labels, c, touching);
    var zero := (u: nat, v: nat) => 0.0;
    TotalScale(n, 0.0, zero, zero);
    TotalMono(n, zero, inside);
  }

  lemma TouchingIsVolume(g: LinkGraph, labels: seq<nat>, c: nat, touching: (nat, nat) -> real)
    requires forall u: nat, v: nat :: u < |g.adj| && v < |g.adj| ==>
      touching(u, v) == if HasLabel(labels, u, c) then Weight(g, u, v) else 0.0
    ensures Total(|g.adj|, touching) == Volume(g, labels, c)
  {
    var n := |g.adj|;
    var member := (u: nat) => if HasLabel(labels, u, c) then Degree(g, u) else 0.0;
    forall u: nat | u < n ensures Row(n, touching, u) == member(u) {
      if HasLabel(labels, u, c) {
        SumEq(n, (v: nat) => touching(u, v), (v: nat) => Weight(g, u, v));
      } else {
        SumZero(n, (v: nat) => touching(u, v));
      }
    }
    SumEq(n, (u: nat) => Row(n, touching, u), member);
  }

  /** The weight leaving a community also lands outside it, so
      Internal(c) >= Volume(c) - m. */
  lemma InternalAtLeast(g: LinkGraph, labels: seq<nat>, c: nat)
    requires WellFormed(g)
    ensures Internal(g, labels, c) >= Volume(g, labels, c) - g.totalWeight
  {
    var n := |g.adj|;
    var w := (u: nat, v: nat) => Weight(g, u, v);
    var rows := (u: nat, v: nat) => if HasLabel(labels, u, c) then Weight(g, u, v) else 0.0;
    var cols := (u: nat, v: nat) => if HasLabel(labels, v, c) then Weight(g, v, u) else 0.0;
    var inside := (u: nat, v: nat) => InsideWeight(g, labels, c, u, v);
    TouchingIsVolume(g, labels, c, rows);
    TransposeTotal(n, rows, cols);
    InsidePairs(g, labels, c);
    var either := (u: nat, v: nat) => rows(u, v) + cols(u, v);
    var overlap := (u: nat, v: nat) => w(u, v) + inside(u, v);
    TotalPlus(n, rows, cols, either);
    TotalPlus(n, w, inside, overlap);
    forall u: nat, v: nat | u < n && v < n ensures either(u, v) <= overlap(u, v) { WeightFacts(g, u, v); }
    TotalMono(n, either, overlap);
    MatrixSumsToTwiceTotal(g);
  }

  /** The volumes of the communities add up to 2m. */
  lemma {:induction false} VolumesBelow(g: LinkGraph, labels: seq<nat>, k: nat)
    ensures Sum(k, (c: nat) => Volume(g, labels, c)) ==
            Sum(|g.adj|, (u: nat) => if u < |labels| && labels[u] < k then Degree(g, u) else 0.0)
  {
    var upTo := (u: nat) => if u < |labels| && labels[u] < k then Degree(g, u) else 0.0;
    if k == 0 {
      SumZero(|g.adj|, upTo);
    } else {
      VolumesBelow(g, labels, k - 1);
      SumPlus(|g.adj|, (u: nat) => if u < |labels| && labels[u] < k - 1 then Degree(g, u) else 0.0,
              (u: nat) => if HasLabel(labels, u, k - 1) then Degree(g, u) else 0.0, upTo);
    }
  }

  lemma VolumesSumToTwiceTotal(g: LinkGraph, labels: seq<nat>, k: nat)
    requires WellFormed(g) && |labels| == |g.adj| && Below(labels, k)
    ensures Sum(k, (c: nat) => Volume(g, labels, c)) == 2.0 * g.totalWeight
  {
    VolumesBelow(g, labels, k);
    DegreesSumToTwiceTotal(g);
    SumEq(|g.adj|, (u: nat) => Degree(g, u), (u: nat) => if u < |labels| && labels[u] < k then Degree(g, u) else 0.0);
  }

  // ------------------------------------------------- the arithmetic of shares

  /** a(c) is the share of the total volume, e(c) the share of the weight that
      is internal to c. */
  ghost predicate Shares(k: nat, a: nat -> real, e: nat -> real) {
    && Sum(k, a) == 1.0
    && forall c: nat :: c < k ==> 0.0 <= e(c) <= a(c) && e(c) >= 2.0 * a(c) - 1.0
  }

  lemma UpperBound(k: nat, a: nat -> real, e: nat -> real, q: nat -> real)
    requires Shares(k, a, e)
    requires forall c: nat :: c < k ==> q(c) == e(c) - Square(a(c))
    ensures Sum(k, q) < 1.0
  {
    var sq := (c: nat) => Square(a(c));
    var top := (c: nat) => a(c) - sq(c);
    SumMono(k, q, top);
    SumPlus(k, top, sq, a);
    if forall c: nat :: c < k ==> a(c) == 0.0 { SumZero(k, a); assert false; }
    var c: nat :| c < k && a(c) != 0.0;
    PositiveSquare(a(c));
    forall i: nat | i < k ensures sq(i) >= 0.0 { NonNegativeSquare(a(i)); }
    TermAtMostSum(k, c, sq);
  }

  lemma PositiveSquare(x: real)
    requires x > 0.0
    ensures Square(x) > 0.0
  {
    PositiveProduct(x, x);
    assert Square(x) == Product(x, x);
  }

  function Product(x: real, y: real): real { x * y }

  lemma PositiveProduct(x: real, y: real)
    requires x > 0.0 && y > 0.0
    ensures Product(x, y) > 0.0
  {}

  lemma NonNegativeSquare(x: real)
    requires x >= 0.0
    ensures Square(x) >= 0.0
  {}

  lemma SquareAtMost(x: real, y: real)
    requires 0.0 <= x <= y
    ensures Square(x) <= Product(y, x)
  {}

  lemma LowerBound(k: nat, a: nat -> real, e: nat -> real, q: nat -> real)
    requires Shares(k, a, e)
    requires forall c: nat :: c < k ==> q(c) == e(c) - Square(a(c))
    ensures Sum(k, q) >= -0.5
  {
    if c: nat :| c < k && a(c) > 0.5 {
      DominatedLowerBound(k, a, e, q, c);
    } else {
      var half := (c: nat) => -0.5 * a(c);
      forall c: nat | c < k ensures half(c) <= q(c) { SquareAtMost(a(c), 0.5); }
      SumScale(k, -0.5, a, half);
      SumMono(k, half, q);
    }
  }

  /** One community holds more than half of the volume: the others share the
      rest r, so the sum is at least -r^2 - r * r with r < 1/2. */
  lemma DominatedLowerBound(k: nat, a: nat -> real, e: nat -> real, q: nat -> real, c: nat)
    requires Shares(k, a, e) && c < k && a(c) > 0.5
    requires forall c: nat :: c < k ==> q(c) == e(c) - Square(a(c))
    ensures Sum(k, q) >= -0.5
  {
    var r := 1.0 - a(c);
    var others := (i: nat) => if i == c then 0.0 else a(i);
    var scaled := (i: nat) => -Product(r, others(i));
    SumUpdate(k, c, a, others);
    SumScale(k, -r, others, scaled);
    assert Sum(k, scaled) == -Square(r);
    forall i: nat | i < k ensures scaled(i) - (if i == c then Square(r) else 0.0) <= q(i) {
      if i == c {
        CompleteSquare(a(c));
      } else {
        TermAtMostSum(k, i, others);
        SquareAtMost(a(i), r);
      }
    }
    SpikedMono(k, c, Square(r), scaled, q);
    TermAtMostSum(k, c, a);
    SquareAtMost(r, 0.5);
  }

  /** f, lowered by s at c, is a lower bound of q. */
  lemma SpikedMono(k: nat, c: nat, s: real, f: nat -> real, q: nat -> real)
    requires c < k
    requires forall i: nat :: i < k ==> f(i) - (if i == c then s else 0.0) <= q(i)
    ensures Sum(k, f) - s <= Sum(k, q)
  {
    var low := (i: nat) => f(i) - (if i == c then s else 0.0);
    SumUpdate(k, c, f, low);
    SumMono(k, low, q);
  }

  lemma CompleteSquare(x: real)
    ensures 2.0 * x - 1.0 - Square(x) == -Square(1.0 - x)
  {}

  // ------------------------------------------------------------ the theorems

  lemma CommunityShares(g: LinkGraph, labels: seq<nat>, k: nat)
    requires WellFormed(g) && g.totalWeight > 0.0
    requires |labels| == |g.adj| && Below(labels, k)
    ensures Shares(k, (c: nat) => Volume(g, labels, c) / (2.0 * TotalOrOne(g)),
                      (c: nat) => Internal(g, labels, c) / TotalOrOne(g))
  {
    var m := g.totalWeight;
    var vol := (c: nat) => Volume(g, labels, c);
    var a := (c: nat) => Volume(g, labels, c) / (2.0 * TotalOrOne(g));
    VolumesSumToTwiceTotal(g, labels, k);
    SumScale(k, 1.0 / (2.0 * m), vol, a);
    forall c: nat | c < k
      ensures 0.0 <= Internal(g, labels, c) / m <= Volume(g, labels, c) / (2.0 * m)
      ensures Internal(g, labels, c) / m >= 2.0 * (Volume(g, labels, c) / (2.0 * m)) - 1.0
    {
      OneShare(g, labels, c);
    }
  }

  lemma ShareArithmetic(m: real, i: real, v: real)
    requires m > 0.0 && 0.0 <= 2.0 * i <= v && i >= v - m
    ensures 0.0 <= i / m <= v / (2.0 * m) && i / m >= 2.0 * (v / (2.0 * m)) - 1.0
  {
    var x, y := i / m, v / (2.0 * m);
    assert x * m == i;
    assert y * (2.0 * m) == v;
    NonNegativeFactor(x, m);
    assert (y - x) * m == (v - 2.0 * i) / 2.0;
    NonNegativeFactor(y - x, m);
    assert (x - 2.0 * y + 1.0) * m == i - v + m;
    NonNegativeFactor(x - 2.0 * y + 1.0, m);
  }

  lemma NonNegativeFactor(x: real, m: real)
    requires m > 0.0 && x * m >= 0.0
    ensures x >= 0.0
  {}

  lemma OneShare(g: LinkGraph, labels: seq<nat>, c: nat)
    requires WellFormed(g) && g.totalWeight > 0.0 && |labels| == |g.adj|
    ensures var m := g.totalWeight;
      && 0.0 <= Internal(g, labels, c) / m <= Volume(g, labels, c) / (2.0 * m)
      && Internal(g, labels, c) / m >= 2.0 * (Volume(g, labels, c) / (2.0 * m)) - 1.0
  {
    InternalAtMostVolume(g, labels, c);
    InternalAtLeast(g, labels, c);
    ShareArithmetic(g.totalWeight, Internal(g, labels, c), Volume(g, labels, c));
  }

  function TotalOrOne(g: LinkGraph): (m: real)
    ensures m > 0.0
  {
    if g.totalWeight > 0.0 then g.totalWeight else 1.0
  }

  /** Modularity lies in [-1/2, 1) for every labelling of a graph with an edge. */
  lemma ModularityRange(g: LinkGraph, labels: seq<nat>)
    requires WellFormed(g) && g.totalWeight > 0.0 && |labels| == |g.adj|
    ensures -0.5 <= Newman(g, labels) < 1.0
  {
    var k := LabelBound(labels);
    var a := (c: nat) => Volume(g, labels, c) / (2.0 * TotalOrOne(g));
    var e := (c: nat) => Internal(g, labels, c) / TotalOrOne(g);
    var q := (c: nat) => CommunityTerm(g, labels, c);
    CommunityShares(g, labels, k);
    UpperBound(k, a, e, q);
    LowerBound(k, a, e, q);
    NewmanByCommunity(g, labels, k);
  }

  /** Putting every node into one community scores exactly 0. */
  lemma SingleCommunityScoresZero(g: LinkGraph, labels: seq<nat>, c: nat)
    requires WellFormed(g) && |labels| == |g.adj|
    requires forall u :: 0 <= u < |labels| ==> labels[u] == c
    ensures Newman(g, labels) == 0.0
  {
    if g.totalWeight > 0.0 {
      var n, m := |g.adj|, g.totalWeight;
      var q := (x: nat) => CommunityTerm(g, labels, x);
      NewmanByCommunity(g, labels, c + 1);
      DegreesSumToTwiceTotal(g);
      SumEq(n, (u: nat) => if HasLabel(labels, u, c) then Degree(g, u) else 0.0, (u: nat) => Degree(g, u));
      TotalEq(n, (u: nat, v: nat) =>
                if u < v && HasLabel(labels, u, c) && HasLabel(labels, v, c) then Weight(g, u, v) else 0.0,
              (u: nat, v: nat) => if u < v then Weight(g, u, v) else 0.0);
      assert q(c) == 0.0;
      forall x: nat | x < c ensures q(x) == 0.0 { AbsentCommunity(g, labels, x); }
      SumZero(c, q);
    }
  }

  /** A label nobody carries contributes nothing. */
  lemma AbsentCommunity(g: LinkGraph, labels: seq<nat>, c: nat)
    requires WellFormed(g) && forall u :: 0 <= u < |labels| ==> labels[u] != c
    ensures CommunityTerm(g, labels, c) == 0.0
  {
    SumZero(|g.adj|, (u: nat) => if HasLabel(labels, u, c) then Degree(g, u) else 0.0);
    InternalAtMostVolume(g, labels, c);
  }
}
