/** Finite sums of real-valued functions over an initial segment of the naturals.

    The lemmas are relational: the caller names every summand and shows how the
    summands are related point by point, so no proof depends on two lambdas
    being recognised as the same function. */
module RealSums {

  /** f(0) + f(1) + ... + f(n-1) */
  function Sum(n: nat, f: nat -> real): real {
    if n == 0 then 0.0 else Sum(n - 1, f) + f(n - 1)
  }

  lemma {:induction false} SumEq(n: nat, f: nat -> real, g: nat -> real)
    requires forall i: nat :: i < n ==> f(i) == g(i)
    ensures Sum(n, f) == Sum(n, g)
  {
    if n > 0 { SumEq(n - 1, f, g); }
  }

  lemma {:induction false} SumPlus(n: nat, f: nat -> real, g: nat -> real, h: nat -> real)
    requires forall i: nat :: i < n ==> h(i) == f(i) + g(i)
    ensures Sum(n, h) == Sum(n, f) + Sum(n, g)
  {
    if n > 0 { SumPlus(n - 1, f, g, h); }
  }

  lemma {:induction false} SumScale(n: nat, k: real, f: nat -> real, h: nat -> real)
    requires forall i: nat :: i < n ==> h(i) == k * f(i)
    ensures Sum(n, h) == k * Sum(n, f)
  {
    if n > 0 {
      SumScale(n - 1, k, f, h);
      Distribute(k, Sum(n - 1, f), f(n - 1));
    }
  }

  lemma Distribute(k: real, x: real, y: real)
    ensures k * (x + y) == k * x + k * y
  {}

  lemma {:induction false} SumMono(n: nat, f: nat -> real, g: nat -> real)
    requires forall i: nat :: i < n ==> f(i) <= g(i)
    ensures Sum(n, f) <= Sum(n, g)
  {
    if n > 0 { SumMono(n - 1, f, g); }
  }

  lemma {:induction false} SumZero(n: nat, f: nat -> real)
    requires forall i: nat :: i < n ==> f(i) == 0.0
    ensures Sum(n, f) == 0.0
  {
    if n > 0 { SumZero(n - 1, f); }
  }

  /** A sum whose summands vanish everywhere except at x. */
  lemma {:induction false} SumOnly(n: nat, x: nat, f: nat -> real)
    requires x < n
    requires forall i: nat :: i < n && i != x ==> f(i) == 0.0
    ensures Sum(n, f) == f(x)
  {
    if x == n - 1 { SumZero(n - 1, f); } else { SumOnly(n - 1, x, f); }
  }

  /** Two summands that agree everywhere except at x. */
  lemma {:induction false} SumUpdate(n: nat, x: nat, f: nat -> real, g: nat -> real)
    requires x < n
    requires forall i: nat :: i < n && i != x ==> f(i) == g(i)
    ensures Sum(n, g) == Sum(n, f) + g(x) - f(x)
  {
    if x == n - 1 { SumEq(n - 1, f, g); } else { SumUpdate(n - 1, x, f, g); }
  }

  /** One term of a sum of non-negative terms is at most the sum. */
  lemma {:induction false} TermAtMostSum(n: nat, x: nat, f: nat -> real)
    requires x < n
    requires forall i: nat :: i < n ==> f(i) >= 0.0
    ensures f(x) <= Sum(n, f)
  {
    var only := (i: nat) => if i == x then f(x) else 0.0;
    SumOnly(n, x, only);
    SumMono(n, only, f);
  }

  // ---------------------------------------------------------------- matrices

  function Row(n: nat, b: (nat, nat) -> real, u: nat): real {
    Sum(n, (v: nat) => b(u, v))
  }

  /** The sum of all entries of the n-by-n matrix b. */
  function Total(n: nat, b: (nat, nat) -> real): real {
    Sum(n, (u: nat) => Row(n, b, u))
  }

  lemma RowEq(n: nat, b: (nat, nat) -> real, c: (nat, nat) -> real, u: nat)
    requires forall v: nat :: v < n ==> b(u, v) == c(u, v)
    ensures Row(n, b, u) == Row(n, c, u)
  {
    SumEq(n, (v: nat) => b(u, v), (v: nat) => c(u, v));
  }

  lemma TotalEq(n: nat, b: (nat, nat) -> real, c: (nat, nat) -> real)
    requires forall u: nat, v: nat :: u < n && v < n ==> b(u, v) == c(u, v)
    ensures Total(n, b) == Total(n, c)
  {
    forall u: nat | u < n ensures Row(n, b, u) == Row(n, c, u) { RowEq(n, b, c, u); }
    SumEq(n, (u: nat) => Row(n, b, u), (u: nat) => Row(n, c, u));
  }

  lemma TotalPlus(n: nat, b: (nat, nat) -> real, c: (nat, nat) -> real, d: (nat, nat) -> real)
    requires forall u: nat, v: nat :: u < n && v < n ==> d(u, v) == b(u, v) + c(u, v)
    ensures Total(n, d) == Total(n, b) + Total(n, c)
  {
    forall u: nat | u < n ensures Row(n, d, u) == Row(n, b, u) + Row(n, c, u) {
      SumPlus(n, (v: nat) => b(u, v), (v: nat) => c(u, v), (v: nat) => d(u, v));
    }
    SumPlus(n, (u: nat) => Row(n, b, u), (u: nat) => Row(n, c, u), (u: nat) => Row(n, d, u));
  }

  lemma TotalScale(n: nat, k: real, b: (nat, nat) -> real, c: (nat, nat) -> real)
    requires forall u: nat, v: nat :: u < n && v < n ==> c(u, v) == k * b(u, v)
    ensures Total(n, c) == k * Total(n, b)
  {
    forall u: nat | u < n ensures Row(n, c, u) == k * Row(n, b, u) {
      SumScale(n, k, (v: nat) => b(u, v), (v: nat) => c(u, v));
    }
    SumScale(n, k, (u: nat) => Row(n, b, u), (u: nat) => Row(n, c, u));
  }

  lemma TotalMono(n: nat, b: (nat, nat) -> real, c: (nat, nat) -> real)
    requires forall u: nat, v: nat :: u < n && v < n ==> b(u, v) <= c(u, v)
    ensures Total(n, b) <= Total(n, c)
  {
    forall u: nat | u < n ensures Row(n, b, u) <= Row(n, c, u) {
      SumMono(n, (v: nat) => b(u, v), (v: nat) => c(u, v));
    }
    SumMono(n, (u: nat) => Row(n, b, u), (u: nat) => Row(n, c, u));
  }

  /** An outer product sums to the product of the sums. */
  lemma OuterProduct(n: nat, a: nat -> real, b: (nat, nat) -> real)
    requires forall u: nat, v: nat :: u < n && v < n ==> b(u, v) == a(u) * a(v)
    ensures Total(n, b) == Sum(n, a) * Sum(n, a)
  {
    var s := Sum(n, a);
    forall u: nat | u < n ensures Row(n, b, u) == s * a(u) {
      SumScale(n, a(u), a, (v: nat) => b(u, v));
    }
    SumScale(n, s, a, (u: nat) => Row(n, b, u));
  }

  /** Rectangular double sum, rows outside. */
  function Rect(r: nat, n: nat, b: (nat, nat) -> real): real {
    Sum(r, (u: nat) => Row(n, b, u))
  }

  /** Summing the transpose of a matrix gives the same total. */
  lemma TransposeTotal(n: nat, b: (nat, nat) -> real, t: (nat, nat) -> real)
    requires forall u: nat, v: nat :: u < n && v < n ==> t(u, v) == b(v, u)
    ensures Total(n, t) == Total(n, b)
  {
    RectTranspose(n, n, b, t);
  }

  lemma {:induction false} RectTranspose(r: nat, n: nat, b: (nat, nat) -> real, t: (nat, nat) -> real)
    requires forall u: nat, v: nat :: u < n && v < r ==> t(u, v) == b(v, u)
    ensures Rect(r, n, b) == Sum(n, (u: nat) => Row(r, t, u))
  {
    if r == 0 {
      SumZero(n, (u: nat) => Row(r, t, u));
    } else {
      RectTranspose(r - 1, n, b, t);
      SumPlus(n, (u: nat) => Row(r - 1, t, u), (u: nat) => b(r - 1, u), (u: nat) => Row(r, t, u));
    }
  }

  /** Handshake: a symmetric matrix with a zero diagonal sums to twice its
      strict upper triangle. */
  lemma Handshake(n: nat, b: (nat, nat) -> real, upper: (nat, nat) -> real)
    requires forall u: nat, v: nat :: u < n && v < n ==> b(u, v) == b(v, u)
    requires forall u: nat :: u < n ==> b(u, u) == 0.0
    requires forall u: nat, v: nat :: u < n && v < n ==> upper(u, v) == if u < v then b(u, v) else 0.0
    ensures Total(n, b) == 2.0 * Total(n, upper)
  {
    var lower := (u: nat, v: nat) => if v < u then b(u, v) else 0.0;
    TotalPlus(n, upper, lower, b);
    TransposeTotal(n, upper, lower);
  }

  /** A symmetric matrix that vanishes off row x and column x, and at (x, x),
      sums to twice its row x. */
  lemma CrossTotal(n: nat, x: nat, e: (nat, nat) -> real)
    requires x < n
    requires forall u: nat, v: nat :: u < n && v < n ==> e(u, v) == e(v, u)
    requires forall u: nat, v: nat :: u < n && v < n && (u != x || v == x) && (u == x || v != x) ==> e(u, v) == 0.0
    ensures Total(n, e) == 2.0 * Row(n, e, x)
  {
    var row := Row(n, e, x);
    var spike := (u: nat) => if u == x then row else 0.0;
    var line := (u: nat) => e(x, u);
    forall u: nat | u < n ensures Row(n, e, u) == spike(u) + line(u) {
      if u != x { SumOnly(n, x, (v: nat) => e(u, v)); }
    }
    SumPlus(n, spike, line, (u: nat) => Row(n, e, u));
    SumOnly(n, x, spike);
  }
}
