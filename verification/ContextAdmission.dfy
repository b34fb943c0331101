/** When a proposed context is served (src/context_transform.rs, `transform_context`),
    stated over the two message lists and the request alone: which input messages are
    not carried verbatim, and which content classes that touches. */
module ContextAdmission {
  import opened Options
  import opened ContextMessages
  import opened ContextDiff
  import opened ContextTransform

  // ------------------------------------------------------------------ what is altered

  /** Input message i does not stand unchanged at its position. */
  predicate Altered(input: seq<Message>, output: seq<Message>, i: nat) {
    i < |input| && !(i < |output| && output[i] == input[i])
  }

  ghost function AlteredSet(input: seq<Message>, output: seq<Message>): set<nat> {
    set i: nat | i < |input| && Altered(input, output, i)
  }

  /** The class belongs to an altered message or to what replaces it. */
  ghost predicate ClassAltered(input: seq<Message>, output: seq<Message>, c: string) {
    exists i: nat :: TouchesClass(input, output, i, c)
  }

  ghost predicate TouchesClass(input: seq<Message>, output: seq<Message>, i: nat, c: string) {
    Altered(input, output, i) && (c == input[i].contentClass || ReplacedBy(output, input[i].id, c))
  }

  ghost predicate ReplacedBy(output: seq<Message>, id: string, c: string) {
    exists k :: 0 <= k < |output| && output[k].id == id && output[k].contentClass == c
  }

  ghost predicate NoNewId(input: seq<Message>, output: seq<Message>) {
    forall k :: 0 <= k < |output| ==> exists i :: 0 <= i < |input| && input[i].id == output[k].id
  }

  lemma AlteredIsNotRetained(input: seq<Message>, output: seq<Message>, i: nat)
    requires ValidList(input) && ValidList(output) && i < |input|
    ensures Altered(input, output, i) <==> !Retained(input[i], output)
  {
    if Retained(input[i], output) { RetainedIsVerbatim(input, output, i); }
    if i < |output| && output[i] == input[i] { FindUnique(output, i); }
  }

  lemma {:induction false} ClassesUpTo(input: seq<Message>, output: seq<Message>, k: nat, c: string)
    requires ValidList(input) && ValidList(output) && k <= |input|
    ensures c in ChangedClasses(input[..k], output) <==> exists i: nat :: i < k && TouchesClass(input, output, i, c)
  {
    if k > 0 {
      ClassesUpTo(input, output, k - 1, c);
      OneMoreSource(input, output, k - 1);
      TouchedMeans(input, output, k - 1, c);
    }
  }

  lemma TouchedMeans(input: seq<Message>, output: seq<Message>, i: nat, c: string)
    requires ValidList(input) && ValidList(output) && i < |input|
    ensures c in TouchedClasses(input[i], output) <==> TouchesClass(input, output, i, c)
  {
    AlteredIsNotRetained(input, output, i);
    if k :| 0 <= k < |output| && output[k].id == input[i].id { FindUnique(output, k); }
  }

  /** The classes of a comparison are those altered. */
  lemma ChangedClassesAreAltered(input: seq<Message>, output: seq<Message>, c: string)
    requires ValidList(input) && ValidList(output)
    ensures c in ChangedClasses(input, output) <==> ClassAltered(input, output, c)
  {
    ClassesUpTo(input, output, |input|, c);
    assert input[..|input|] == input;
  }

  lemma {:induction false} CountUpTo(input: seq<Message>, output: seq<Message>, k: nat)
    requires ValidList(input) && ValidList(output) && k <= |input|
    ensures ChangedCount(input[..k], output) == |AlteredBelow(input, output, k)|
  {
    if k == 0 {
      assert AlteredBelow(input, output, 0) == {};
    } else {
      CountUpTo(input, output, k - 1);
      OneMoreSource(input, output, k - 1);
      AlteredIsNotRetained(input, output, k - 1);
      OneMoreAltered(input, output, k - 1);
    }
  }

  lemma OneMoreAltered(input: seq<Message>, output: seq<Message>, k: nat)
    ensures |AlteredBelow(input, output, k + 1)| ==
      |AlteredBelow(input, output, k)| + if Altered(input, output, k) then 1 else 0
  {
    assert AlteredBelow(input, output, k + 1) ==
      AlteredBelow(input, output, k) + if Altered(input, output, k) then {k} else {};
  }

  ghost function AlteredBelow(input: seq<Message>, output: seq<Message>, k: nat): set<nat> {
    set i: nat | i < k && Altered(input, output, i)
  }

  lemma ChangedCountIsAltered(input: seq<Message>, output: seq<Message>)
    requires ValidList(input) && ValidList(output)
    ensures ChangedCount(input, output) == |AlteredSet(input, output)|
  {
    CountUpTo(input, output, |input|);
    assert input[..|input|] == input && AlteredBelow(input, output, |input|) == AlteredSet(input, output);
  }

  /** Input message i stands with its content in another place. */
  ghost predicate Moved(input: seq<Message>, output: seq<Message>, i: nat)
    requires i < |input|
  {
    exists k ::
      && 0 <= k < |output| && k != i && output[k].id == input[i].id
      && output[k].contentClass == input[i].contentClass && output[k].body == input[i].body
  }

  /** The dispositions of a membership, in terms of the two lists: omitted without a
      message of that id, retained in its place, reordered with its content in another
      place, and transformed otherwise. */
  lemma DispositionMeans(input: seq<Message>, output: seq<Message>, i: nat)
    requires ValidList(input) && ValidList(output) && i < |input|
    ensures var d := Memberships(input, output)[i].disposition;
      && (d == "omitted" <==> forall k :: 0 <= k < |output| ==> output[k].id != input[i].id)
      && (d == "retained" <==> !Altered(input, output, i))
      && (d == "reordered" <==> Moved(input, output, i))
      && d in {"omitted", "retained", "reordered", "transformed"}
  {
    AlteredIsNotRetained(input, output, i);
    if k :| 0 <= k < |output| && output[k].id == input[i].id { FindUnique(output, k); }
  }

  /** The other fields of a membership record. */
  lemma MemberMeans(input: seq<Message>, output: seq<Message>, i: nat)
    requires ValidList(input) && ValidList(output) && i < |input|
    ensures var r := Memberships(input, output)[i];
      && r.sourceId == input[i].id && r.inputOrder == i && r.contentClass == input[i].contentClass
      && r.inputDigest == OfMessage(input[i].contentClass, input[i].body, input[i].chain)
      && (forall k :: 0 <= k < |output| && output[k].id == input[i].id ==>
           r.outputOrder == Some(k) &&
             r.outputDigest == Some(OfMessage(output[k].contentClass, output[k].body, output[k].chain)))
      && ((forall k :: 0 <= k < |output| ==> output[k].id != input[i].id) ==>
           r.outputOrder == None && r.outputDigest == None)
  {
    if k :| 0 <= k < |output| && output[k].id == input[i].id { FindUnique(output, k); }
  }

  // ----------------------------------------------------------------------- admission

  /** The proposal can be compared with the input: valid, shaped for the provider, no
      new id, and not too many messages altered. */
  ghost predicate Comparable(q: Request, proposed: seq<Message>) {
    && ValidList(proposed) && ShapeValid(q.format, proposed) && NoNewId(q.input, proposed)
    && |AlteredSet(q.input, proposed)| <= 128
  }

  ghost predicate AlteredKnown(q: Request, proposed: seq<Message>) {
    forall c :: ClassAltered(q.input, proposed, c) ==> c in KNOWN_CLASSES
  }

  ghost predicate AlteredProtected(q: Request, proposed: seq<Message>) {
    exists c :: ClassAltered(q.input, proposed, c) && c in PROTECTED_CLASSES
  }

  predicate BothReferences(q: Request) { q.original.Some? && q.envelope.Some? }

  predicate StageEnabled(q: Request) { exists i :: 0 <= i < |q.stages| && q.stages[i].enabled }

  predicate UntrustedEnabled(q: Request) {
    exists i :: 0 <= i < |q.stages| && q.stages[i].enabled && q.stages[i].trust == "untrusted"
  }

  /** A transformation is asked for that the caller is ready to let through. */
  ghost predicate Requested(q: Request, proposed: seq<Message>) {
    && Comparable(q, proposed) && AlteredSet(q.input, proposed) != {} && q.format == "openai-chat/v1"
    && StageEnabled(q) && q.policy != "passthrough" && AlteredKnown(q, proposed)
  }

  /** Nothing stands against it: protected content needs trusted stages and both
      references, and a reversible policy both references. */
  ghost predicate Safe(q: Request, proposed: seq<Message>) {
    && (AlteredProtected(q, proposed) ==> !UntrustedEnabled(q) && BothReferences(q))
    && (q.policy == "reversible" ==> BothReferences(q))
  }

  lemma ComparedMeans(q: Request, proposed: seq<Message>)
    requires RequestOk(q)
    ensures DiffOf(q, proposed).Some? <==> Comparable(q, proposed)
    ensures Contested(q, proposed) <==> Comparable(q, proposed) && AlteredSet(q.input, proposed) != {}
  {
    if ValidList(proposed) {
      ChangedCountIsAltered(q.input, proposed);
      assert SupportedMembership(q.input, proposed) <==> NoNewId(q.input, proposed);
    }
  }

  lemma ClassesCompared(q: Request, proposed: seq<Message>)
    requires RequestOk(q) && Contested(q, proposed)
    ensures var classes := DiffOf(q, proposed).value.classes;
      && (classes <= KNOWN_CLASSES <==> AlteredKnown(q, proposed))
      && (classes * PROTECTED_CLASSES != {} <==> AlteredProtected(q, proposed))
  {
    ContestedMeans(q, proposed);
    var classes := DiffOf(q, proposed).value.classes;
    forall c ensures c in classes <==> ClassAltered(q.input, proposed, c) {
      ChangedClassesAreAltered(q.input, proposed, c);
    }
    if AlteredProtected(q, proposed) {
      var c :| ClassAltered(q.input, proposed, c) && c in PROTECTED_CLASSES;
      assert c in classes * PROTECTED_CLASSES;
    }
    if classes * PROTECTED_CLASSES != {} {
      var c :| c in classes * PROTECTED_CLASSES;
      assert ClassAltered(q.input, proposed, c);
    }
  }

  /** The ladder, read off the request. */
  lemma RuleMeans(q: Request, classes: set<string>)
    requires HeaderOk(q)
    ensures var rule := Rule(q, classes);
      var asked := q.format == "openai-chat/v1" && StageEnabled(q) && q.policy != "passthrough" &&
        classes <= KNOWN_CLASSES;
      var safe := (classes * PROTECTED_CLASSES != {} ==> !UntrustedEnabled(q) && BothReferences(q))
        && (q.policy == "reversible" ==> BothReferences(q));
      && (rule.admit <==> asked && safe)
      && (rule.outcome == Transformed <==> asked && safe && BothReferences(q))
      && (rule.outcome == Degraded <==> asked && safe && !BothReferences(q))
      && (rule.outcome == Rejected <==> asked && !safe)
      && (rule.outcome == Passthrough <==> !asked)
  {}

  /** For every valid request: the proposal is served exactly when it is requested and
      safe. */
  lemma ServedExactlyWhen(q: Request, proposed: seq<Message>)
    requires RequestOk(q)
    ensures Served(q, proposed) == proposed && proposed != q.input <==> Requested(q, proposed) && Safe(q, proposed)
    ensures Served(q, proposed) == proposed || Served(q, proposed) == q.input
  {
    ComparedMeans(q, proposed);
    if Contested(q, proposed) {
      ClassesCompared(q, proposed);
      ContestedFacts(q, proposed);
      RuleMeans(q, DiffOf(q, proposed).value.classes);
    }
  }

  /** Each outcome of the receipt, exactly. */
  lemma OutcomeExactlyWhen(q: Request, proposed: seq<Message>)
    requires RequestOk(q)
    ensures var outcome := FinalReceipt(q, proposed).outcome;
      var shaped := ValidList(proposed) && ShapeValid(q.format, proposed);
      && (outcome == Transformed <==> Requested(q, proposed) && Safe(q, proposed) && BothReferences(q))
      && (outcome == Degraded <==> Requested(q, proposed) && Safe(q, proposed) && !BothReferences(q))
      && (outcome == Rejected <==> !shaped || (Requested(q, proposed) && !Safe(q, proposed)))
      && (outcome == Passthrough <==> shaped && !Requested(q, proposed))
  {
    ComparedMeans(q, proposed);
    if Contested(q, proposed) {
      ClassesCompared(q, proposed);
      RuleMeans(q, DiffOf(q, proposed).value.classes);
    }
  }

  /** The guard that a reason code names; `known`, `guarded` and `admitted` say whether the
      altered classes are known, whether one is protected and whether the proposal is served. */
  predicate Explains(q: Request, reason: Reason, known: bool, guarded: bool, admitted: bool) {
    match reason
    case UnsupportedFormat => q.format != "openai-chat/v1"
    case NoEnabledStage => !StageEnabled(q)
    case UnknownContent => !known
    case PolicyPassthrough => q.policy == "passthrough"
    case ProtectedByUntrusted => guarded && UntrustedEnabled(q)
    case ReversibleWithoutRecovery => q.policy == "reversible" && !BothReferences(q)
    case ProtectedWithoutRecovery => guarded && !BothReferences(q)
    case ReversibleAdmitted => admitted && BothReferences(q)
    case LossyOptIn => admitted && !BothReferences(q)
    case ShapeInvalid => false
    case UnsupportedMembership => false
  }

  lemma RuleReason(q: Request, classes: set<string>)
    requires HeaderOk(q)
    ensures var rule := Rule(q, classes);
      Explains(q, rule.reason, classes <= KNOWN_CLASSES, classes * PROTECTED_CLASSES != {}, rule.admit)
  {}

  /** The reason of a receipt: none for the input itself, the shape or the membership of a
      proposal that cannot be compared, and otherwise the guard that decided. */
  lemma ReasonTells(q: Request, proposed: seq<Message>)
    requires RequestOk(q)
    ensures var reason := FinalReceipt(q, proposed).reason;
      if !(ValidList(proposed) && ShapeValid(q.format, proposed)) then reason == Some(ShapeInvalid)
      else if !Comparable(q, proposed) then reason == Some(UnsupportedMembership)
      else if AlteredSet(q.input, proposed) == {} then reason == None
      else
        && reason.Some?
        && Explains(q, reason.value, AlteredKnown(q, proposed), AlteredProtected(q, proposed), Admitted(q, proposed))
  {
    ComparedMeans(q, proposed);
    if Contested(q, proposed) {
      ClassesCompared(q, proposed);
      RuleReason(q, DiffOf(q, proposed).value.classes);
    }
  }

  ghost predicate Comparison(q: Request, proposed: seq<Message>) {
    Comparable(q, proposed) && AlteredSet(q.input, proposed) != {}
  }

  /** The fields of a receipt that do not depend on the ruling: digests of the input, of
      what is served and of a proposal that was compared and not served, and the lossiness
      that goes with what is served. */
  ghost predicate DigestsRight(q: Request, proposed: seq<Message>, served: seq<Message>, compared: bool, r: Receipt) {
    && r.inputDigest == OfList(q.input) && r.outputDigest == OfList(served) && r.original == q.original
    && r.candidateDigest == (if compared && served != proposed then Some(OfList(proposed)) else None)
    && r.lossiness == (if served == q.input then Lossless else if BothReferences(q) then Reversible else Lossy)
  }

  lemma DigestsMean(q: Request, proposed: seq<Message>)
    requires RequestOk(q)
    ensures DigestsRight(q, proposed, Served(q, proposed), Comparison(q, proposed), FinalReceipt(q, proposed))
  {
    ComparedMeans(q, proposed);
    if Contested(q, proposed) {
      ContestedFacts(q, proposed);
      RulingLossiness(q, DiffOf(q, proposed).value.classes);
      RulingDigests(q, proposed, DiffOf(q, proposed).value, Rule(q, DiffOf(q, proposed).value.classes));
    } else {
      UncontestedDigests(q, proposed, Verdict(q, proposed).0, Verdict(q, proposed).1);
    }
  }

  lemma RulingDigests(q: Request, proposed: seq<Message>, diff: Diff, rule: Ruling)
    requires proposed != q.input
    requires rule.lossiness == if !rule.admit then Lossless else if BothReferences(q) then Reversible else Lossy
    ensures var served := if rule.admit then proposed else q.input;
      DigestsRight(q, proposed, served, true,
                   ReceiptOf(q, served, proposed, Some(diff), rule.outcome, rule.lossiness, Some(rule.reason)))
  {}

  lemma UncontestedDigests(q: Request, proposed: seq<Message>, outcome: Outcome, reason: Option<Reason>)
    ensures DigestsRight(q, proposed, q.input, false,
                         ReceiptOf(q, q.input, proposed, None, outcome, Lossless, reason))
  {}

  lemma RulingLossiness(q: Request, classes: set<string>)
    requires HeaderOk(q)
    ensures var rule := Rule(q, classes);
      rule.lossiness == if !rule.admit then Lossless else if BothReferences(q) then Reversible else Lossy
  {}

  /** What a receipt records of a comparison: the altered classes, their messages' number,
      and the plan to replay it. */
  lemma ComparisonRecorded(q: Request, proposed: seq<Message>)
    requires RequestOk(q)
    ensures var r, compared := FinalReceipt(q, proposed), Comparison(q, proposed);
      && (forall c :: c in r.classes <==> compared && ClassAltered(q.input, proposed, c))
      && r.spans == (if compared then |AlteredSet(q.input, proposed)| else 0)
      && r.replay == (if compared then Some(MakePlan(q.envelope, q.original, Memberships(q.input, proposed))) else None)
  {
    ComparedMeans(q, proposed);
    if Contested(q, proposed) {
      ContestedMeans(q, proposed);
      ChangedCountIsAltered(q.input, proposed);
      forall c ensures c in ChangedClasses(q.input, proposed) <==> ClassAltered(q.input, proposed, c) {
        ChangedClassesAreAltered(q.input, proposed, c);
      }
    }
  }
}
