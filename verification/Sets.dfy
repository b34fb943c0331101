/** Cardinalities of finite sets. */
module Sets {

  lemma {:induction false} SubsetCardinality<T>(a: set<T>, b: set<T>)
    requires a <= b
    ensures |a| <= |b|
  {
    if a != {} {
      var x :| x in a;
      SubsetCardinality(a - {x}, b - {x});
    }
  }

  lemma CardinalityOfUnion<T>(a: set<T>, b: set<T>)
    ensures |a + b| == |a| + |b| - |a * b|
    ensures |a * b| <= |a| && |a * b| <= |b|
  {
    SubsetCardinality(a * b, a);
    SubsetCardinality(a * b, b);
  }

  /** The naturals below n. */
  function FirstNaturals(n: nat): (r: set<nat>)
    ensures |r| == n && forall i: nat :: i in r <==> i < n
  {
    if n == 0 then {} else FirstNaturals(n - 1) + {n - 1}
  }
}
