/** Validating and replaying a plan against the separately retrieved original
    (src/context_transform.rs, `ReplayPlan::validate` and `replay_membership`). */
module ContextReplay {
  import opened Sets
  import opened Options
  import opened ContextMessages
  import opened ContextDiff

  // ----------------------------------------------------------------- validation

  ghost predicate SeenSoFar(ms: seq<Member>, k: nat, ids: set<string>, orders: set<nat>)
    requires k <= |ms|
  {
    && (forall s :: s in ids <==> exists i :: 0 <= i < k && ms[i].sourceId == s)
    && orders == OutputOrders(ms[..k])
  }

  function OrderOf(m: Member): set<nat> {
    if m.outputOrder.Some? then {m.outputOrder.value} else {}
  }

  lemma OutputOrdersMore(ms: seq<Member>, k: nat)
    requires k < |ms|
    ensures OutputOrders(ms[..k + 1]) == OutputOrders(ms[..k]) + OrderOf(ms[k])
  {
    var front, more := ms[..k], ms[..k + 1];
    assert more[k] == ms[k] && forall i :: 0 <= i < k ==> more[i] == front[i];
    forall x | x in OutputOrders(front) ensures x in OutputOrders(more) {
      var i :| 0 <= i < k && front[i].outputOrder == Some(x);
      assert more[i].outputOrder == Some(x);
    }
  }

  lemma SeenOneMore(ms: seq<Member>, k: nat, ids: set<string>, orders: set<nat>)
    requires k < |ms| && SeenSoFar(ms, k, ids, orders)
    ensures SeenSoFar(ms, k + 1, ids + {ms[k].sourceId}, orders + OrderOf(ms[k]))
  {
    OutputOrdersMore(ms, k);
  }

  lemma DistinctOneMore(ms: seq<Member>, k: nat, ids: set<string>, orders: set<nat>)
    requires k < |ms| && SeenSoFar(ms, k, ids, orders) && DistinctMembers(ms[..k])
    ensures ms[k].sourceId !in ids && OrderOf(ms[k]) !! orders ==> DistinctMembers(ms[..k + 1])
    ensures ms[k].sourceId in ids || !(OrderOf(ms[k]) !! orders) ==> !DistinctMembers(ms)
  {
    var front := ms[..k];
    assert ms[..k + 1] == front + [ms[k]];
    assert forall i :: 0 <= i < k ==> front[i] == ms[i];
    forall i | 0 <= i < k && ms[i].outputOrder.Some? ensures ms[i].outputOrder.value in orders {
      assert front[i].outputOrder.value in OutputOrders(front);
    }
  }

  /** The member loop of `validate`. */
  method ValidateMembers(ms: seq<Member>) returns (ok: bool, orders: set<nat>)
    ensures ok <==> DistinctMembers(ms) && forall i :: 0 <= i < |ms| ==> MemberOk(ms[i], i, |ms|)
    ensures ok ==> orders == OutputOrders(ms)
  {
    var ids: set<string> := {};
    orders := {};
    for k := 0 to |ms|
      invariant SeenSoFar(ms, k, ids, orders) && DistinctMembers(ms[..k])
      invariant forall i :: 0 <= i < k ==> MemberOk(ms[i], i, |ms|)
    {
      var m := ms[k];
      SeenOneMore(ms, k, ids, orders);
      DistinctOneMore(ms, k, ids, orders);
      if !MemberOk(m, k, |ms|) || m.sourceId in ids || !(OrderOf(m) !! orders) {
        return false, orders;
      }
      ids, orders := ids + {m.sourceId}, orders + OrderOf(m);
    }
    assert ms[..|ms|] == ms;
    ok := true;
  }

  /** `validate` accepts exactly the valid plans. */
  method ValidatePlan(p: Plan) returns (ok: bool)
    ensures ok <==> PlanOk(p)
  {
    if |p.membership| == 0 || !ReferenceOk(p.envelope) || !ReferenceOk(p.original) {
      return false;
    }
    var membersOk, orders := ValidateMembers(p.membership);
    if !membersOk {
      return false;
    }
    ok := orders == FirstNaturals(|orders|) && FingerprintOk(p);
  }

  // --------------------------------------------------------------------- replay

  datatype Entry = Entry(order: nat, id: string, commitment: Option<string>)

  datatype Replayed = Replayed(orderedIds: seq<string>, commitments: seq<Option<string>>, omittedIds: seq<string>)

  predicate DigestMatches(m: Message, d: Digest) {
    MessageDigest(m) == d || (!ChainOf(m).known && OfLegacyMessage(m.contentClass, m.body) == d)
  }

  ghost predicate SourceMatches(original: seq<Message>, member: Member) {
    var at := Find(original, member.sourceId);
    at.Some? && DigestMatches(original[at.value], member.inputDigest) && ChainOf(original[at.value]) == member.chain
  }

  /** The plan is valid and every member is found unchanged in the original. */
  ghost predicate Replayable(p: Plan, original: seq<Message>) {
    && PlanOk(p) && ValidList(original)
    && forall i :: 0 <= i < |p.membership| ==> SourceMatches(original, p.membership[i])
  }

  function EntryOf(m: Member): Entry
    requires m.outputOrder.Some?
  {
    Entry(m.outputOrder.value, m.sourceId, if m.chain.known then Some(m.chain.material) else None)
  }

  function Entries(ms: seq<Member>): seq<Entry> {
    if ms == [] then []
    else Entries(ms[..|ms| - 1]) + if ms[|ms| - 1].outputOrder.Some? then [EntryOf(ms[|ms| - 1])] else []
  }

  /** Source ids without an output position, in membership order. */
  function Omitted(ms: seq<Member>): seq<string> {
    if ms == [] then []
    else Omitted(ms[..|ms| - 1]) + if ms[|ms| - 1].outputOrder.Some? then [] else [ms[|ms| - 1].sourceId]
  }

  /** Each admitted member stands at its recorded output position; the omitted
      ids follow the membership order. */
  ghost predicate ReplaySpec(ms: seq<Member>, r: Replayed) {
    && |r.orderedIds| == |r.commitments| == |OutputOrders(ms)|
    && (forall i :: 0 <= i < |ms| && ms[i].outputOrder.Some? ==>
          var x := ms[i].outputOrder.value;
          x < |r.orderedIds| && r.orderedIds[x] == ms[i].sourceId && r.commitments[x] == EntryOf(ms[i]).commitment)
    && r.omittedIds == Omitted(ms)
  }

  // ----------------------------------------------------------- sorting by order

  ghost predicate Sorted(s: seq<Entry>) {
    forall i, j :: 0 <= i < j < |s| ==> s[i].order < s[j].order
  }

  ghost predicate DistinctOrders(s: seq<Entry>) {
    forall i, j :: 0 <= i < j < |s| ==> s[i].order != s[j].order
  }

  function InsertEntry(s: seq<Entry>, e: Entry): (r: seq<Entry>)
    requires Sorted(s) && forall x :: x in s ==> x.order != e.order
    ensures Sorted(r) && |r| == |s| + 1 && forall x :: x in r <==> x in s || x == e
  {
    if s == [] then [e]
    else
      var front, last := s[..|s| - 1], s[|s| - 1];
      assert s == front + [last];
      if last.order < e.order then s + [e]
      else
        var r := InsertEntry(front, e);
        assert forall x :: x in front ==> x.order < last.order;
        assert forall i :: 0 <= i < |r| ==> r[i] in r && r[i].order < last.order;
        r + [last]
  }

  /** `sort_by_key` on entries with different output orders. */
  function SortEntries(s: seq<Entry>): (r: seq<Entry>)
    requires DistinctOrders(s)
    ensures Sorted(r) && |r| == |s| && forall x :: x in r <==> x in s
  {
    if s == [] then []
    else
      var front, last := s[..|s| - 1], s[|s| - 1];
      assert s == front + [last];
      assert forall x :: x in front ==> x.order != last.order;
      InsertEntry(SortEntries(front), last)
  }

  lemma {:induction false} AtLeastPosition(s: seq<Entry>, k: nat)
    requires k < |s| && Sorted(s)
    ensures s[k].order >= k
  {
    if k > 0 { AtLeastPosition(s, k - 1); }
  }

  lemma {:induction false} AtMostPosition(s: seq<Entry>, k: nat)
    requires k < |s| && Sorted(s) && forall i :: 0 <= i < |s| ==> s[i].order < |s|
    ensures s[k].order <= k
    decreases |s| - k
  {
    if k < |s| - 1 { AtMostPosition(s, k + 1); }
  }

  lemma {:induction false} EntriesContents(ms: seq<Member>)
    ensures forall e :: e in Entries(ms) <==>
      exists i :: 0 <= i < |ms| && ms[i].outputOrder.Some? && EntryOf(ms[i]) == e
  {
    if ms != [] {
      var front := ms[..|ms| - 1];
      EntriesContents(front);
      assert forall i :: 0 <= i < |front| ==> front[i] == ms[i];
    }
  }

  lemma OrdersOneMore(front: seq<Member>, last: Member)
    ensures OutputOrders(front + [last]) ==
      OutputOrders(front) + if last.outputOrder.Some? then {last.outputOrder.value} else {}
  {
    var ms := front + [last];
    assert forall i :: 0 <= i < |front| ==> ms[i] == front[i];
    assert ms[|front|] == last;
  }

  /** No earlier member has the output order of the last one. */
  lemma LastOrderIsNew(front: seq<Member>, last: Member)
    requires DistinctMembers(front + [last]) && last.outputOrder.Some?
    ensures last.outputOrder.value !in OutputOrders(front)
    ensures forall e :: e in Entries(front) ==> e.order != last.outputOrder.value
  {
    var ms := front + [last];
    assert forall i :: 0 <= i < |front| ==> ms[i] == front[i];
    assert ms[|front|] == last;
    EntriesContents(front);
  }

  lemma DistinctAppend(s: seq<Entry>, e: Entry)
    requires DistinctOrders(s) && forall x :: x in s ==> x.order != e.order
    ensures DistinctOrders(s + [e])
  {
    assert forall i :: 0 <= i < |s| ==> s[i] in s;
  }

  lemma DistinctPrefix(front: seq<Member>, last: Member)
    requires DistinctMembers(front + [last])
    ensures DistinctMembers(front)
  {
    var ms := front + [last];
    assert forall i :: 0 <= i < |front| ==> ms[i] == front[i];
  }

  lemma {:induction false} EntriesDistinct(ms: seq<Member>)
    requires DistinctMembers(ms)
    ensures |Entries(ms)| == |OutputOrders(ms)|
    ensures DistinctOrders(Entries(ms))
  {
    if ms != [] {
      var front, last := ms[..|ms| - 1], ms[|ms| - 1];
      assert ms == front + [last];
      DistinctPrefix(front, last);
      EntriesDistinct(front);
      OrdersOneMore(front, last);
      if last.outputOrder.Some? {
        LastOrderIsNew(front, last);
        DistinctAppend(Entries(front), EntryOf(last));
      }
    }
  }

  /** Entry k of the sorted list is the member with output order k. */
  lemma SortedEntries(ms: seq<Member>)
    requires DistinctMembers(ms) && ContiguousOutput(ms)
    ensures DistinctOrders(Entries(ms))
    ensures var s := SortEntries(Entries(ms));
      && |s| == |OutputOrders(ms)|
      && forall i :: 0 <= i < |ms| && ms[i].outputOrder.Some? ==>
           ms[i].outputOrder.value < |s| && s[ms[i].outputOrder.value] == EntryOf(ms[i])
  {
    EntriesDistinct(ms);
    EntriesContents(ms);
    var u, s := Entries(ms), SortEntries(Entries(ms));
    forall k | 0 <= k < |s| ensures s[k].order < |s| {
      assert s[k] in u;
      assert s[k].order in OutputOrders(ms);
    }
    forall i | 0 <= i < |ms| && ms[i].outputOrder.Some?
      ensures ms[i].outputOrder.value < |s| && s[ms[i].outputOrder.value] == EntryOf(ms[i])
    {
      assert EntryOf(ms[i]) in u;
      var k :| 0 <= k < |s| && s[k] == EntryOf(ms[i]);
      AtLeastPosition(s, k);
      AtMostPosition(s, k);
    }
  }

  // ----------------------------------------------------------------- the method

  method CollectMembers(ms: seq<Member>, original: seq<Message>)
    returns (ok: bool, ordered: seq<Entry>, omitted: seq<string>)
    ensures ok <==> forall i :: 0 <= i < |ms| ==> SourceMatches(original, ms[i])
    ensures ok ==> ordered == Entries(ms) && omitted == Omitted(ms)
  {
    ordered, omitted := [], [];
    for k := 0 to |ms|
      invariant forall i :: 0 <= i < k ==> SourceMatches(original, ms[i])
      invariant ordered == Entries(ms[..k]) && omitted == Omitted(ms[..k])
    {
      var m := ms[k];
      assert ms[..k + 1][..k] == ms[..k];
      var at := Find(original, m.sourceId);
      if at.None? || !DigestMatches(original[at.value], m.inputDigest) || ChainOf(original[at.value]) != m.chain {
        return false, ordered, omitted;
      }
      if m.outputOrder.Some? {
        ordered := ordered + [EntryOf(m)];
      } else {
        omitted := omitted + [m.sourceId];
      }
    }
    assert ms[..|ms|] == ms;
    ok := true;
  }

  /** Replay succeeds exactly for a valid plan whose members are found unchanged
      in the original, and reproduces the recorded order. */
  method ReplayMembership(p: Plan, original: seq<Message>) returns (r: Option<Replayed>)
    ensures r.Some? <==> Replayable(p, original)
    ensures r.Some? ==> ReplaySpec(p.membership, r.value)
  {
    var planOk := ValidatePlan(p);
    if !planOk {
      return None;
    }
    var listOk := ValidateList(original);
    if !listOk {
      return None;
    }
    var ok, ordered, omitted := CollectMembers(p.membership, original);
    if !ok {
      return None;
    }
    SortedEntriesReplay(p.membership);
    r := Some(ReplayedOf(SortEntries(ordered), omitted));
  }

  function ReplayedOf(sorted: seq<Entry>, omitted: seq<string>): Replayed {
    Replayed(seq(|sorted|, i requires 0 <= i < |sorted| => sorted[i].id),
             seq(|sorted|, i requires 0 <= i < |sorted| => sorted[i].commitment), omitted)
  }

  lemma SortedEntriesReplay(ms: seq<Member>)
    requires DistinctMembers(ms) && ContiguousOutput(ms)
    ensures DistinctOrders(Entries(ms)) && ReplaySpec(ms, ReplayedOf(SortEntries(Entries(ms)), Omitted(ms)))
  {
    SortedEntries(ms);
  }

  // ----------------------------------------------------------------- the theorem

  /** The input messages that the proposal leaves out, in input order. */
  function LeftOut(input: seq<Message>, output: seq<Message>): seq<string> {
    if input == [] then []
    else
      var last := input[|input| - 1];
      LeftOut(input[..|input| - 1], output) + if HasId(output, last.id) then [] else [last.id]
  }

  lemma {:induction false} OmittedAreLeftOut(input: seq<Message>, output: seq<Message>)
    ensures Omitted(Memberships(input, output)) == LeftOut(input, output)
  {
    if input != [] {
      var front := input[..|input| - 1];
      OmittedAreLeftOut(front, output);
      assert Memberships(input, output)[..|input| - 1] == Memberships(front, output);
    }
  }

  lemma ReplayedOrder(input: seq<Message>, output: seq<Message>, r: Replayed)
    requires DistinctIds(output) && Contiguous(output) && SupportedMembership(input, output)
    requires ReplaySpec(Memberships(input, output), r)
    ensures r.orderedIds == Ids(output) && r.omittedIds == LeftOut(input, output)
  {
    var ms := Memberships(input, output);
    OmittedAreLeftOut(input, output);
    OrdersAreOutputPositions(input, output);
    forall x: nat | x < |output| ensures r.orderedIds[x] == output[x].id {
      var i :| 0 <= i < |input| && input[i].id == output[x].id;
      FindUnique(output, x);
      assert ms[i].outputOrder == Some(x);
    }
  }

  /** Replaying the plan of a comparison against the original succeeds and
      reconstructs the proposal's membership and order, and the omissions in input
      order. */
  lemma PlanReconstructsProposal(input: seq<Message>, output: seq<Message>, envelope: Option<Reference>,
                                 original: Option<Reference>, r: Replayed)
    requires ValidList(input) && ValidList(output) && SupportedMembership(input, output) && input != []
    requires ReferenceOk(envelope) && ReferenceOk(original)
    ensures Replayable(MakePlan(envelope, original, Memberships(input, output)), input)
    ensures ReplaySpec(Memberships(input, output), r) ==>
      r.orderedIds == Ids(output) && r.omittedIds == LeftOut(input, output)
  {
    var ms := Memberships(input, output);
    ComparisonYieldsValidPlan(input, output, envelope, original);
    forall i | 0 <= i < |ms| ensures SourceMatches(input, ms[i]) { FindUnique(input, i); }
    if ReplaySpec(ms, r) { ReplayedOrder(input, output, r); }
  }

  /** A replay hands out the chain commitment of each message, if its chain is known. */
  lemma ReplayedCommitments(input: seq<Message>, output: seq<Message>, r: Replayed, i: nat, x: nat)
    requires ValidList(input) && ValidList(output) && ReplaySpec(Memberships(input, output), r)
    requires i < |input| && x < |output| && input[i].id == output[x].id
    ensures x < |r.commitments|
    ensures r.commitments[x] ==
      if input[i].chain.Some? && input[i].chain.value.known then Some(input[i].chain.value.material) else None
  {
    FindUnique(output, x);
    assert Memberships(input, output)[i].outputOrder == Some(x);
  }

  /** The message stands in the list with its class, body and chain. */
  ghost predicate FoundUnchanged(original: seq<Message>, m: Message) {
    exists k ::
      && 0 <= k < |original| && original[k].id == m.id && original[k].contentClass == m.contentClass
      && original[k].body == m.body && original[k].chain == m.chain
  }

  /** The plan of a comparison can be replayed against exactly the lists that hold every
      message of its input unchanged. */
  lemma ReplayNeedsTheOriginal(input: seq<Message>, output: seq<Message>, envelope: Option<Reference>,
                               reference: Option<Reference>, original: seq<Message>)
    requires ValidList(input) && ValidList(output) && SupportedMembership(input, output) && input != []
    requires ReferenceOk(envelope) && ReferenceOk(reference) && ValidList(original)
    ensures Replayable(MakePlan(envelope, reference, Memberships(input, output)), original) <==>
      forall i :: 0 <= i < |input| ==> FoundUnchanged(original, input[i])
  {
    ComparisonYieldsValidPlan(input, output, envelope, reference);
    forall i | 0 <= i < |input|
      ensures SourceMatches(original, MemberOf(input[i], output)) <==> FoundUnchanged(original, input[i])
    {
      SourceMeans(original, input[i], output);
    }
  }

  lemma SourceMeans(original: seq<Message>, m: Message, output: seq<Message>)
    requires DistinctIds(original)
    ensures SourceMatches(original, MemberOf(m, output)) <==> FoundUnchanged(original, m)
  {
    if k :| 0 <= k < |original| && original[k].id == m.id { FindUnique(original, k); }
  }
}
