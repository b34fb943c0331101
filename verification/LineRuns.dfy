/** Runs of consecutive lines, given for each line whether it is outside every run,
    opens one, or continues the one before it. */
module LineRuns {
  datatype Kind = Outside | Opens | Continues

  /** A run of lines, both ends included. */
  datatype Block = Block(first: nat, last: nat)

  /** In order, none overlapping, all below line `n`. */
  ghost predicate Ordered(n: nat, blocks: seq<Block>) {
    && (forall k :: 0 <= k < |blocks| ==> blocks[k].first <= blocks[k].last < n)
    && (forall k, l :: 0 <= k < l < |blocks| ==> blocks[k].last < blocks[l].first)
  }

  predicate Holds(b: Block, j: int) { b.first <= j <= b.last }

  /** Line `j` is in some run. */
  ghost predicate InSome(blocks: seq<Block>, j: int) {
    exists k :: 0 <= k < |blocks| && Holds(blocks[k], j)
  }

  /** Line `j` is the first line of a run. */
  ghost predicate Begins(blocks: seq<Block>, j: int) {
    exists k :: 0 <= k < |blocks| && blocks[k].first == j
  }

  /** A line continues a run only if the line before it is in one. */
  ghost predicate WellFormed(kinds: seq<Kind>) {
    forall j :: 0 <= j < |kinds| && kinds[j] == Continues ==> j > 0 && kinds[j - 1] != Outside
  }

  /** The runs a labelling stands for. */
  ghost predicate RunsOf(kinds: seq<Kind>, blocks: seq<Block>) {
    && Ordered(|kinds|, blocks)
    && (forall j :: 0 <= j < |kinds| ==> (InSome(blocks, j) <==> kinds[j] != Outside))
    && (forall j :: 0 <= j < |kinds| ==> (Begins(blocks, j) <==> kinds[j] == Opens))
  }

  function Extended(blocks: seq<Block>, n: nat): seq<Block> {
    if blocks == [] then [] else blocks[..|blocks| - 1] + [Block(blocks[|blocks| - 1].first, n)]
  }

  function Runs(kinds: seq<Kind>): seq<Block> {
    if kinds == [] then []
    else
      var n := |kinds| - 1;
      var before := Runs(kinds[..n]);
      match kinds[n]
      case Outside => before
      case Opens => before + [Block(n, n)]
      case Continues => Extended(before, n)
  }

  lemma InSomeMore(blocks: seq<Block>, b: Block, j: int)
    ensures InSome(blocks + [b], j) <==> InSome(blocks, j) || Holds(b, j)
    ensures Begins(blocks + [b], j) <==> Begins(blocks, j) || b.first == j
  {
    var more := blocks + [b];
    assert more[|blocks|] == b && forall k :: 0 <= k < |blocks| ==> more[k] == blocks[k];
  }

  lemma OnlyBelow(n: nat, blocks: seq<Block>, j: int)
    requires Ordered(n, blocks) && j >= n
    ensures !InSome(blocks, j) && !Begins(blocks, j)
  {}

  lemma OutsideStep(kinds: seq<Kind>, blocks: seq<Block>)
    requires RunsOf(kinds, blocks)
    ensures RunsOf(kinds + [Outside], blocks)
  {
    OnlyBelow(|kinds|, blocks, |kinds|);
    var more := kinds + [Outside];
    assert forall j :: 0 <= j < |kinds| ==> more[j] == kinds[j];
  }

  lemma OpensStep(kinds: seq<Kind>, blocks: seq<Block>)
    requires RunsOf(kinds, blocks)
    ensures RunsOf(kinds + [Opens], blocks + [Block(|kinds|, |kinds|)])
  {
    var n, more := |kinds|, kinds + [Opens];
    OnlyBelow(n, blocks, n);
    forall j | 0 <= j <= n
      ensures InSome(blocks + [Block(n, n)], j) <==> more[j] != Outside
      ensures Begins(blocks + [Block(n, n)], j) <==> more[j] == Opens
    {
      InSomeMore(blocks, Block(n, n), j);
    }
  }

  lemma LastHolds(n: nat, blocks: seq<Block>, k: nat)
    requires Ordered(n, blocks) && k < |blocks| && Holds(blocks[k], n - 1)
    ensures k == |blocks| - 1
  {
    var z := blocks[|blocks| - 1];
  }

  /** Lengthening the last run by one line takes in that line and changes no start. */
  lemma ExtendedAt(n: nat, blocks: seq<Block>, j: nat)
    requires Ordered(n, blocks) && blocks != [] && blocks[|blocks| - 1].last == n - 1
    ensures InSome(Extended(blocks, n), j) <==> InSome(blocks, j) || j == n
    ensures Begins(Extended(blocks, n), j) <==> Begins(blocks, j)
  {
    var k := |blocks| - 1;
    var front, last := blocks[..k], blocks[k];
    assert blocks == front + [last];
    InSomeMore(front, last, j);
    InSomeMore(front, Block(last.first, n), j);
  }

  lemma ExtendedIsOrdered(n: nat, blocks: seq<Block>)
    requires Ordered(n, blocks)
    ensures Ordered(n + 1, Extended(blocks, n))
  {}

  lemma ContinuesStep(kinds: seq<Kind>, blocks: seq<Block>)
    requires RunsOf(kinds, blocks) && kinds != [] && kinds[|kinds| - 1] != Outside
    ensures RunsOf(kinds + [Continues], Extended(blocks, |kinds|))
  {
    var n := |kinds|;
    var more := kinds + [Continues];
    assert InSome(blocks, n - 1);
    var k :| 0 <= k < |blocks| && Holds(blocks[k], n - 1);
    LastHolds(n, blocks, k);
    OnlyBelow(n, blocks, n);
    forall j | 0 <= j <= n
      ensures InSome(Extended(blocks, n), j) <==> more[j] != Outside
      ensures Begins(Extended(blocks, n), j) <==> more[j] == Opens
    {
      ExtendedAt(n, blocks, j);
    }
    ExtendedIsOrdered(n, blocks);
  }

  lemma {:induction false} RunsAreRuns(kinds: seq<Kind>)
    requires WellFormed(kinds)
    ensures RunsOf(kinds, Runs(kinds))
  {
    if kinds != [] {
      var n := |kinds| - 1;
      var front := kinds[..n];
      RunsAreRuns(front);
      assert kinds == front + [kinds[n]];
      match kinds[n] {
        case Outside => OutsideStep(front, Runs(front));
        case Opens => OpensStep(front, Runs(front));
        case Continues => ContinuesStep(front, Runs(front));
      }
    }
  }
}
