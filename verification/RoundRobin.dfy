/** The round-robin citation scheduler of `global_recall` (src/communities.rs):
    communities take turns citing their ranked members until the limit is met. */
module RoundRobin {

  function Min(a: int, b: int): int { if a < b then a else b }

  function Max(a: int, b: int): int { if a < b then b else a }

  /** Number of entries over all communities. */
  function Count<T>(lists: seq<seq<T>>): nat {
    if lists == [] then 0 else Count(lists[..|lists| - 1]) + |lists[|lists| - 1]|
  }

  lemma {:induction false} CountUpdate<T>(lists: seq<seq<T>>, i: nat, x: T)
    requires i < |lists|
    ensures Count(lists[i := lists[i] + [x]]) == Count(lists) + 1
  {
    var front, r := lists[..|lists| - 1], lists[i := lists[i] + [x]];
    if i < |lists| - 1 {
      CountUpdate(front, i, x);
      assert r[..|lists| - 1] == front[i := front[i] + [x]];
    } else {
      assert r[..|lists| - 1] == front;
    }
  }

  /** Citations are prefixes of the ranked lists, and of two communities the
      earlier one is ahead by at most one citation and never behind, unless
      the one falling short has run out of members. */
  ghost predicate Fair<T>(members: seq<seq<T>>, cited: seq<seq<T>>) {
    && |cited| == |members|
    && (forall i :: 0 <= i < |members| ==> cited[i] <= members[i])
    && (forall i, j :: 0 <= i < j < |members| ==> |cited[j]| <= |cited[i]| || cited[i] == members[i])
    && (forall i, j :: 0 <= i < j < |members| ==> |cited[i]| <= |cited[j]| + 1 || cited[j] == members[j])
  }

  // ------------------------------------------------------------- uniqueness

  lemma {:induction false} CountMonotone<T>(c: seq<seq<T>>, d: seq<seq<T>>)
    requires |c| == |d| && forall i :: 0 <= i < |c| ==> |c[i]| <= |d[i]|
    ensures Count(c) <= Count(d)
    ensures Count(c) == Count(d) ==> forall i :: 0 <= i < |c| ==> |c[i]| == |d[i]|
  {
    if c != [] {
      CountMonotone(c[..|c| - 1], d[..|d| - 1]);
      if Count(c) == Count(d) {
        forall i | 0 <= i < |c| - 1 ensures |c[i]| == |d[i]| {
          assert c[i] == c[..|c| - 1][i] && d[i] == d[..|d| - 1][i];
        }
      }
    }
  }

  /** Fairness and the number of citations determine the schedule. */
  lemma FairIsUnique<T>(members: seq<seq<T>>, c: seq<seq<T>>, d: seq<seq<T>>)
    requires Fair(members, c) && Fair(members, d) && Count(c) == Count(d)
    ensures c == d
  {
    if i :| 0 <= i < |c| && |c[i]| > |d[i]| {
      if forall j :: 0 <= j < |c| ==> |d[j]| <= |c[j]| {
        CountMonotone(d, c);
        assert false;
      }
      var j :| 0 <= j < |c| && |d[j]| > |c[j]|;
      NoCrossing(members, c, d, i, j);
      assert false;
    }
    CountMonotone(c, d);
    assert forall i :: 0 <= i < |c| ==> c[i] == d[i];
  }

  lemma NoCrossing<T>(members: seq<seq<T>>, c: seq<seq<T>>, d: seq<seq<T>>, i: nat, j: nat)
    requires Fair(members, c) && Fair(members, d) && i < |c| && j < |c|
    ensures !(|c[i]| > |d[i]| && |d[j]| > |c[j]|)
  {
    assert |c[i]| <= |members[i]| && |d[j]| <= |members[j]|;
  }

  // -------------------------------------------------------------- the loop

  /** Position inside a round: communities before ci have had r + 1 turns, the
      others r. */
  ghost predicate InRound<T>(members: seq<seq<T>>, cited: seq<seq<T>>, r: nat, ci: nat) {
    && |cited| == |members|
    && forall i :: 0 <= i < |members| ==>
      cited[i] == members[i][..Min(|members[i]|, if i < ci then r + 1 else r)]
  }

  lemma InRoundIsFair<T>(members: seq<seq<T>>, cited: seq<seq<T>>, r: nat, ci: nat)
    requires InRound(members, cited, r, ci)
    ensures Fair(members, cited)
  {}

  lemma CiteNext<T>(members: seq<seq<T>>, cited: seq<seq<T>>, r: nat, ci: nat)
    requires InRound(members, cited, r, ci) && ci < |members| && r < |members[ci]|
    ensures InRound(members, cited[ci := cited[ci] + [members[ci][r]]], r, ci + 1)
  {
    assert members[ci][..r + 1] == members[ci][..r] + [members[ci][r]];
  }

  lemma SkipExhausted<T>(members: seq<seq<T>>, cited: seq<seq<T>>, r: nat, ci: nat)
    requires InRound(members, cited, r, ci) && ci < |members| && |members[ci]| <= |cited[ci]|
    ensures InRound(members, cited, r, ci + 1) && |members[ci]| <= r
  {}

  lemma Turn<T>(members: seq<seq<T>>, cited: seq<seq<T>>, cursors: seq<nat>, r: nat, ci: nat)
    requires InRound(members, cited, r, ci) && Tracks(cursors, cited) && ci < |members| && cursors[ci] < |members[ci]|
    ensures var next := cited[ci := cited[ci] + [members[ci][cursors[ci]]]];
      && InRound(members, next, r, ci + 1) && Tracks(cursors[ci := cursors[ci] + 1], next)
      && Count(next) == Count(cited) + 1
  {
    assert cursors[ci] == r;
    CountUpdate(cited, ci, members[ci][r]);
    CiteNext(members, cited, r, ci);
  }

  ghost predicate Tracks<T>(cursors: seq<nat>, cited: seq<seq<T>>) {
    |cursors| == |cited| && forall i :: 0 <= i < |cited| ==> cursors[i] == |cited[i]|
  }

  /** One round of turns; it stops early when the goal is reached. */
  method Round<T>(members: seq<seq<T>>, cited0: seq<seq<T>>, cursors0: seq<nat>, taken0: nat, goal: nat, ghost r: nat)
    returns (cited: seq<seq<T>>, cursors: seq<nat>, taken: nat, advanced: bool, ghost ci: nat)
    requires InRound(members, cited0, r, 0) && Tracks(cursors0, cited0) && taken0 == Count(cited0) < goal
    ensures InRound(members, cited, r, ci) && Tracks(cursors, cited) && taken == Count(cited) <= goal
    ensures ci <= |members| && (taken < goal ==> ci == |members|)
    ensures taken0 <= taken && (advanced <==> taken0 < taken)
    ensures !advanced ==> forall i :: 0 <= i < ci ==> |members[i]| <= r
  {
    cited, cursors, taken, advanced := cited0, cursors0, taken0, false;
    var c := 0;
    while c < |members| && taken < goal
      invariant 0 <= c <= |members|
      invariant taken0 <= taken == Count(cited) <= goal
      invariant InRound(members, cited, r, c) && Tracks(cursors, cited)
      invariant advanced <==> taken0 < taken
      invariant !advanced ==> forall i :: 0 <= i < c ==> |members[i]| <= r
    {
      if cursors[c] < |members[c]| {
        var m := members[c][cursors[c]];
        Turn(members, cited, cursors, r, c);
        cited := cited[c := cited[c] + [m]];
        cursors := cursors[c := cursors[c] + 1];
        taken := taken + 1;
        advanced := true;
      } else {
        SkipExhausted(members, cited, r, c);
      }
      c := c + 1;
    }
    ci := c;
  }

  /** The schedule is fair and cites as many members as the limit allows. */
  method Cite<T>(members: seq<seq<T>>, limit: nat) returns (cited: seq<seq<T>>)
    ensures Fair(members, cited)
    ensures Count(cited) == Min(Max(limit, 1), Count(members))
  {
    var goal := if limit < 1 then 1 else limit;
    var cursors := seq(|members|, _ => 0);
    cited := seq(|members|, _ => []);
    var taken := 0;
    ghost var r, ci := 0, 0;
    EmptyCount(cited);
    while taken < goal
      invariant taken == Count(cited) <= goal
      invariant InRound(members, cited, r, ci) && Tracks(cursors, cited)
      invariant taken < goal ==> ci == 0
      decreases goal - taken
    {
      var advanced;
      cited, cursors, taken, advanced, ci := Round(members, cited, cursors, taken, goal, r);
      if !advanced {
        AllExhausted(members, cited, r);
        InRoundIsFair(members, cited, r, ci);
        return;
      }
      if taken < goal {
        NextRound(members, cited, r);
        r, ci := r + 1, 0;
      }
    }
    InRoundIsFair(members, cited, r, ci);
    CountWithin(members, cited);
  }

  lemma AllExhausted<T>(members: seq<seq<T>>, cited: seq<seq<T>>, r: nat)
    requires InRound(members, cited, r, |members|) && forall i :: 0 <= i < |members| ==> |members[i]| <= r
    ensures cited == members
  {
    forall i | 0 <= i < |members| ensures cited[i] == members[i] {}
  }

  lemma NextRound<T>(members: seq<seq<T>>, cited: seq<seq<T>>, r: nat)
    requires InRound(members, cited, r, |members|)
    ensures InRound(members, cited, r + 1, 0)
  {}

  lemma {:induction false} EmptyCount<T>(lists: seq<seq<T>>)
    requires forall i :: 0 <= i < |lists| ==> lists[i] == []
    ensures Count(lists) == 0
  {
    if lists != [] { EmptyCount(lists[..|lists| - 1]); }
  }

  lemma CountWithin<T>(members: seq<seq<T>>, cited: seq<seq<T>>)
    requires Fair(members, cited)
    ensures Count(cited) <= Count(members)
  {
    CountMonotone(cited, members);
  }
}
