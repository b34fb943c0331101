/** Comparing a proposed message list with the input, the replay plan the
    comparison yields, and replaying that plan (src/context_transform.rs,
    `compare_messages`, `ReplayPlan` and `replay_membership`). */
module ContextDiff {
  import opened Options
  import opened Text
  import opened ContextMessages

  const MAX_CHANGED_SPANS := 128

  /** Digests by their pre-image; `Text` is a digest whose origin is unknown. */
  datatype Digest =
    | OfMessage(contentClass: string, body: Payload, chain: Option<Chain>)
    | OfLegacyMessage(legacyClass: string, legacyBody: Payload)
    | OfList(messages: seq<Message>)
    | OfMembership(members: seq<Member>)
    | OfLegacyMembership(bare: seq<Member>)
    | Text(text: string)

  datatype Member = Member(sourceId: string, inputOrder: nat, outputOrder: Option<nat>, contentClass: string,
                           inputDigest: Digest, outputDigest: Option<Digest>, disposition: string, chain: Chain)

  datatype Reference = Reference(kind: string, id: string, digest: string)

  datatype Plan = Plan(envelope: Option<Reference>, original: Option<Reference>, membership: seq<Member>,
                       fingerprint: Digest)

  predicate IsDigest(d: Digest) {
    d.Text? ==> IsSha256(d.text)
  }

  predicate ReferenceOk(r: Option<Reference>) {
    r.Some? ==> IsIdentifier(r.value.kind) && IsIdentifier(r.value.id) && IsSha256(r.value.digest)
  }

  function MessageDigest(m: Message): Digest {
    OfMessage(m.contentClass, m.body, m.chain)
  }

  // ---------------------------------------------------------------- comparison

  /** Every proposed message has its own id, known to the input. */
  ghost predicate SupportedMembership(input: seq<Message>, output: seq<Message>) {
    DistinctIds(output) && forall k :: 0 <= k < |output| ==> HasId(input, output[k].id)
  }

  function Disposition(source: Message, candidate: Message): string {
    var sameContent := source.contentClass == candidate.contentClass && source.body == candidate.body;
    if sameContent && source.order == candidate.order && source.chain == candidate.chain then "retained"
    else if sameContent && source.order == candidate.order then "transformed"
    else if sameContent then "reordered"
    else "transformed"
  }

  /** The membership record of one input message. */
  function MemberOf(source: Message, output: seq<Message>): Member {
    var at := Find(output, source.id);
    if at.None? then
      Member(source.id, source.order, None, source.contentClass, MessageDigest(source), None, "omitted",
             ChainOf(source))
    else
      var candidate := output[at.value];
      Member(source.id, source.order, Some(candidate.order), source.contentClass, MessageDigest(source),
             Some(MessageDigest(candidate)), Disposition(source, candidate), ChainOf(source))
  }

  predicate Retained(source: Message, output: seq<Message>) {
    MemberOf(source, output).disposition == "retained"
  }

  /** Content classes touched by what happened to one input message. */
  function TouchedClasses(source: Message, output: seq<Message>): set<string> {
    if Retained(source, output) then {}
    else
      var at := Find(output, source.id);
      if at.None? then {source.contentClass} else {source.contentClass, output[at.value].contentClass}
  }

  function Memberships(input: seq<Message>, output: seq<Message>): (r: seq<Member>)
    ensures |r| == |input| && forall i :: 0 <= i < |input| ==> r[i] == MemberOf(input[i], output)
  {
    seq(|input|, i requires 0 <= i < |input| => MemberOf(input[i], output))
  }

  function ChangedClasses(input: seq<Message>, output: seq<Message>): set<string> {
    if input == [] then {}
    else ChangedClasses(input[..|input| - 1], output) + TouchedClasses(input[|input| - 1], output)
  }

  /** Number of input messages that are not retained. */
  function ChangedCount(input: seq<Message>, output: seq<Message>): nat {
    if input == [] then 0
    else ChangedCount(input[..|input| - 1], output) + if Retained(input[|input| - 1], output) then 0 else 1
  }

  datatype Diff = Diff(changed: bool, classes: set<string>, spans: nat, membership: seq<Member>)

  /** What the comparison returns: None when the membership is unsupported, a
      message is invalid, or too many messages changed. */
  ghost function Compare(input: seq<Message>, output: seq<Message>): Option<Diff> {
    if SupportedMembership(input, output) && AllValid(input) && ValidList(output)
       && ChangedCount(input, output) <= MAX_CHANGED_SPANS
    then Some(DiffUpTo(input, output))
    else None
  }

  function DiffUpTo(input: seq<Message>, output: seq<Message>): Diff {
    Diff(ChangedCount(input, output) > 0, ChangedClasses(input, output), ChangedCount(input, output),
         Memberships(input, output))
  }

  method CheckMembership(input: seq<Message>, output: seq<Message>) returns (ok: bool)
    ensures ok <==> SupportedMembership(input, output)
  {
    var inputIds := set i | 0 <= i < |input| :: input[i].id;
    var seen: set<string> := {};
    for k := 0 to |output|
      invariant SupportedMembership(input, output[..k])
      invariant forall s :: s in seen <==> exists i :: 0 <= i < k && output[i].id == s
    {
      if output[k].id in seen || output[k].id !in inputIds {
        return false;
      }
      seen := seen + {output[k].id};
    }
    assert output[..|output|] == output;
    ok := true;
  }

  lemma OneMoreSource(input: seq<Message>, output: seq<Message>, k: nat)
    requires k < |input|
    ensures ChangedClasses(input[..k + 1], output) == ChangedClasses(input[..k], output) +
      TouchedClasses(input[k], output)
    ensures ChangedCount(input[..k + 1], output) == ChangedCount(input[..k], output) +
      if Retained(input[k], output) then 0 else 1
    ensures Memberships(input[..k + 1], output) == Memberships(input[..k], output) + [MemberOf(input[k], output)]
  {
    assert input[..k + 1][..k] == input[..k];
  }

  /** The diff with one source more. */
  function DiffMore(d: Diff, source: Message, output: seq<Message>): Diff {
    var member := MemberOf(source, output);
    if member.disposition == "retained" then d.(membership := d.membership + [member])
    else Diff(true, d.classes + TouchedClasses(source, output), d.spans + 1, d.membership + [member])
  }

  lemma DiffUpToMore(input: seq<Message>, output: seq<Message>, k: nat)
    requires k < |input|
    ensures DiffUpTo(input[..k + 1], output) == DiffMore(DiffUpTo(input[..k], output), input[k], output)
  {
    OneMoreSource(input, output, k);
  }

  lemma AllValidMore(input: seq<Message>, k: nat)
    requires k < |input| && AllValid(input[..k])
    ensures ValidMessage(input[k]) ==> AllValid(input[..k + 1])
    ensures !ValidMessage(input[k]) ==> !AllValid(input)
  {
    assert input[..k + 1] == input[..k] + [input[k]];
  }

  /** The loop over the input; it fails on the first invalid source. */
  method DiffSources(input: seq<Message>, output: seq<Message>) returns (ok: bool, diff: Diff)
    ensures ok <==> AllValid(input)
    ensures ok ==> diff == DiffUpTo(input, output)
  {
    diff := Diff(false, {}, 0, []);
    for k := 0 to |input|
      invariant AllValid(input[..k]) && diff == DiffUpTo(input[..k], output)
    {
      AllValidMore(input, k);
      DiffUpToMore(input, output, k);
      if !ValidMessage(input[k]) {
        return false, diff;
      }
      diff := AddSource(diff, input[k], output);
    }
    assert input[..|input|] == input;
    ok := true;
  }

  /** One round of the loop: the flag, the class set, the span count and the
      membership list of the diff. */
  method AddSource(d: Diff, source: Message, output: seq<Message>) returns (r: Diff)
    ensures r == DiffMore(d, source, output)
  {
    var classes, spans, changed := d.classes, d.spans, d.changed;
    var member := MemberOf(source, output);
    if member.disposition != "retained" {
      changed := true;
      classes := classes + TouchedClasses(source, output);
      spans := spans + 1;
    }
    r := Diff(changed, classes, spans, d.membership + [member]);
  }

  /** The program's comparison. */
  method CompareMessages(input: seq<Message>, output: seq<Message>) returns (r: Option<Diff>)
    ensures r == Compare(input, output)
  {
    var supported := CheckMembership(input, output);
    if !supported {
      return None;
    }
    var ok, diff := DiffSources(input, output);
    if !ok || diff.spans > MAX_CHANGED_SPANS {
      return None;
    }
    var outputOk := ValidateList(output);
    r := if outputOk then Some(diff) else None;
  }

  // ------------------------------------------------------ facts about the diff

  /** A retained message is carried verbatim at its original position. */
  lemma RetainedIsVerbatim(input: seq<Message>, output: seq<Message>, i: nat)
    requires Contiguous(input) && Contiguous(output) && i < |input| && Retained(input[i], output)
    ensures i < |output| && output[i] == input[i]
  {}

  lemma {:induction false} NoChangeMeansAllRetained(input: seq<Message>, output: seq<Message>)
    ensures ChangedCount(input, output) == 0 <==> forall i :: 0 <= i < |input| ==> Retained(input[i], output)
  {
    if input != [] {
      var front := input[..|input| - 1];
      NoChangeMeansAllRetained(front, output);
      assert forall i :: 0 <= i < |front| ==> front[i] == input[i];
    }
  }

  /** The comparison reports no change exactly for the identical list. */
  lemma UnchangedIsIdentity(input: seq<Message>, output: seq<Message>)
    requires ValidList(input) && ValidList(output) && SupportedMembership(input, output)
    ensures ChangedCount(input, output) == 0 <==> output == input
  {
    NoChangeMeansAllRetained(input, output);
    if ChangedCount(input, output) == 0 {
      forall i | 0 <= i < |input| ensures i < |output| && output[i] == input[i] {
        RetainedIsVerbatim(input, output, i);
      }
      SubsetIsShorter(input, output);
    }
    if output == input {
      forall i | 0 <= i < |input| ensures Retained(input[i], output) { FindUnique(output, i); }
    }
  }

  /** A message that is not retained contributes its class. */
  lemma {:induction false} ChangedClassIsReported(input: seq<Message>, output: seq<Message>, i: nat)
    requires i < |input| && !Retained(input[i], output)
    ensures input[i].contentClass in ChangedClasses(input, output)
  {
    if i < |input| - 1 { ChangedClassIsReported(input[..|input| - 1], output, i); }
  }

  lemma {:induction false} ClassesAreIdentifiers(input: seq<Message>, output: seq<Message>)
    requires AllValid(input) && AllValid(output)
    ensures forall c :: c in ChangedClasses(input, output) ==> IsIdentifier(c)
  {
    if input != [] {
      ClassesAreIdentifiers(input[..|input| - 1], output);
      var at := Find(output, input[|input| - 1].id);
      assert ValidMessage(input[|input| - 1]) && (at.Some? ==> ValidMessage(output[at.value]));
    }
  }

  // --------------------------------------------------------------- replay plans

  /** Members without their chains, as receipts recorded them before chain
      identity existed. */
  function Bare(ms: seq<Member>): seq<Member> {
    seq(|ms|, i requires 0 <= i < |ms| => ms[i].(chain := UNKNOWN_CHAIN))
  }

  predicate MemberOk(m: Member, index: nat, size: nat) {
    && m.inputOrder == index && IsIdentifier(m.sourceId) && m.chain.wellFormed
    && IsIdentifier(m.contentClass) && IsDigest(m.inputDigest)
    && (m.outputOrder.Some? ==> m.outputOrder.value < size && m.outputDigest.Some? && IsDigest(m.outputDigest.value))
    && (m.outputOrder.None? ==> m.outputDigest.None? && m.disposition == "omitted")
    && m.disposition in {"retained", "transformed", "reordered", "omitted"}
  }

  ghost predicate DistinctMembers(ms: seq<Member>) {
    && (forall i, j :: 0 <= i < j < |ms| ==> ms[i].sourceId != ms[j].sourceId)
    && (forall i, j :: 0 <= i < j < |ms| && ms[i].outputOrder.Some? ==> ms[i].outputOrder != ms[j].outputOrder)
  }

  function OutputOrders(ms: seq<Member>): set<nat> {
    set i | 0 <= i < |ms| && ms[i].outputOrder.Some? :: ms[i].outputOrder.value
  }

  /** The output orders are 0, 1, ..., c - 1. */
  ghost predicate ContiguousOutput(ms: seq<Member>) {
    forall x: nat :: x in OutputOrders(ms) <==> x < |OutputOrders(ms)|
  }

  predicate FingerprintOk(p: Plan) {
    || p.fingerprint == OfMembership(p.membership)
    || ((forall i :: 0 <= i < |p.membership| ==> !p.membership[i].chain.known)
        && p.fingerprint == OfLegacyMembership(Bare(p.membership)))
  }

  /** A plan that passes `ReplayPlan::validate`. */
  ghost predicate PlanOk(p: Plan) {
    && p.membership != [] && ReferenceOk(p.envelope) && ReferenceOk(p.original)
    && SoundMembership(p.membership) && FingerprintOk(p)
  }

  function MakePlan(envelope: Option<Reference>, original: Option<Reference>, ms: seq<Member>): Plan {
    Plan(envelope, original, ms, OfMembership(ms))
  }

  /** The output orders recorded by a diff are exactly the positions of the
      proposal. */
  lemma OrdersAreOutputPositions(input: seq<Message>, output: seq<Message>)
    requires Contiguous(output) && SupportedMembership(input, output)
    ensures forall x: nat :: x in OutputOrders(Memberships(input, output)) <==> x < |output|
    ensures |OutputOrders(Memberships(input, output))| == |output|
  {
    var ms := Memberships(input, output);
    forall x: nat | x < |output| ensures x in OutputOrders(ms) {
      var i :| 0 <= i < |input| && input[i].id == output[x].id;
      FindUnique(output, x);
      assert ms[i].outputOrder == Some(x);
    }
    Segment(OutputOrders(ms), |output|);
  }

  lemma {:induction false} Segment(s: set<nat>, n: nat)
    requires forall x: nat :: x in s <==> x < n
    ensures |s| == n
  {
    if n == 0 {
      assert s == {};
    } else {
      Segment(s - {n - 1}, n - 1);
    }
  }

  lemma MembersAreDistinct(input: seq<Message>, output: seq<Message>)
    requires DistinctIds(input) && Contiguous(output)
    ensures DistinctMembers(Memberships(input, output))
  {}

  /** The plan built from any comparison of a non-empty input is valid. */
  lemma ComparisonYieldsValidPlan(input: seq<Message>, output: seq<Message>, envelope: Option<Reference>,
                                  original: Option<Reference>)
    requires ValidList(input) && ValidList(output) && SupportedMembership(input, output)
    requires ReferenceOk(envelope) && ReferenceOk(original)
    ensures PlanOk(MakePlan(envelope, original, Memberships(input, output))) <==> input != []
  {
    MembershipIsSound(input, output);
  }

  /** What plan validation asks of a membership. */
  ghost predicate SoundMembership(ms: seq<Member>) {
    && (forall i :: 0 <= i < |ms| ==> MemberOk(ms[i], i, |ms|))
    && DistinctMembers(ms) && ContiguousOutput(ms)
  }

  lemma MembershipIsSound(input: seq<Message>, output: seq<Message>)
    requires ValidList(input) && ValidList(output) && SupportedMembership(input, output)
    ensures SoundMembership(Memberships(input, output))
  {
    OrdersAreOutputPositions(input, output);
    SubsetIsShorter(input, output);
    MembersAreDistinct(input, output);
    MembersAreOk(input, output);
  }

  lemma MembersAreOk(input: seq<Message>, output: seq<Message>)
    requires ValidList(input) && ValidList(output) && |output| <= |input|
    ensures forall i :: 0 <= i < |input| ==> MemberOk(Memberships(input, output)[i], i, |input|)
  {
    forall i | 0 <= i < |input| ensures MemberOk(MemberOf(input[i], output), i, |input|) {
      assert ValidMessage(input[i]) && input[i].order == i;
      OneMemberIsOk(input[i], output, |input|);
    }
  }

  lemma OneMemberIsOk(source: Message, output: seq<Message>, size: nat)
    requires ValidMessage(source) && Contiguous(output) && |output| <= size
    ensures MemberOk(MemberOf(source, output), source.order, size)
  {}
}
