/** The fail-closed context-transformer decision (src/context_transform.rs,
    `transform_context` and `make_decision`): which of two message lists may be
    served, and what the receipt records about it. */
module ContextTransform {
  import opened Text
  import opened Options
  import opened ContextMessages
  import opened ContextDiff
  import opened ContextReplay
  import opened ProviderShape

  const OPENAI_FORMAT := "openai-chat/v1"
  const MAX_STAGES := 32

  const PROTECTED_CLASSES: set<string> := {"system", "policy", "keystone_policy", "authority", "user_constraint"}
  const KNOWN_CLASSES: set<string> :=
    {"system", "policy", "keystone_policy", "authority", "user_constraint",
     "assistant_prose", "tool_use", "tool_result", "source_code", "fenced", "multimodal"}

  datatype Stage = Stage(name: string, version: string, enabled: bool, trust: string, configDigest: Option<string>)

  datatype Request = Request(provider: string, format: string, transformerName: string, transformerVersion: string,
                             stages: seq<Stage>, policy: string, input: seq<Message>, originalRetained: bool,
                             original: Option<Reference>, envelope: Option<Reference>)

  predicate StageOk(s: Stage) {
    && IsIdentifier(s.name) && IsIdentifier(s.version) && (s.trust == "trusted" || s.trust == "untrusted")
    && (s.configDigest.Some? ==> IsSha256(s.configDigest.value))
  }

  /** Everything `validate` demands of a request apart from its message list. */
  ghost predicate HeaderOk(q: Request) {
    && IsIdentifier(q.provider) && IsIdentifier(q.format)
    && IsIdentifier(q.transformerName) && IsIdentifier(q.transformerVersion)
    && |q.stages| <= MAX_STAGES && (forall i :: 0 <= i < |q.stages| ==> StageOk(q.stages[i]))
    && (forall i, j :: 0 <= i < j < |q.stages| ==> q.stages[i].name != q.stages[j].name)
    && q.policy in {"passthrough", "reversible", "lossy_opt_in"}
    && q.originalRetained == q.original.Some? && ReferenceOk(q.original) && ReferenceOk(q.envelope)
  }

  ghost predicate RequestOk(q: Request) {
    HeaderOk(q) && ValidList(q.input)
  }

  method ValidateHeader(q: Request) returns (ok: bool)
    ensures ok <==> HeaderOk(q)
  {
    if !(IsIdentifier(q.provider) && IsIdentifier(q.format) && IsIdentifier(q.transformerName)
         && IsIdentifier(q.transformerVersion) && |q.stages| <= MAX_STAGES) {
      return false;
    }
    var names: set<string> := {};
    for k := 0 to |q.stages|
      invariant forall i :: 0 <= i < k ==> StageOk(q.stages[i])
      invariant forall i, j :: 0 <= i < j < k ==> q.stages[i].name != q.stages[j].name
      invariant forall s :: s in names <==> exists i :: 0 <= i < k && q.stages[i].name == s
    {
      if !StageOk(q.stages[k]) || q.stages[k].name in names {
        return false;
      }
      names := names + {q.stages[k].name};
    }
    ok := q.policy in {"passthrough", "reversible", "lossy_opt_in"}
      && q.originalRetained == q.original.Some? && ReferenceOk(q.original) && ReferenceOk(q.envelope);
  }

  predicate HasEnabledStage(q: Request) {
    exists i :: 0 <= i < |q.stages| && q.stages[i].enabled
  }

  predicate HasUntrustedStage(q: Request) {
    exists i :: 0 <= i < |q.stages| && q.stages[i].enabled && q.stages[i].trust == "untrusted"
  }

  predicate RecoveryAvailable(q: Request) {
    q.originalRetained && q.original.Some? && q.envelope.Some?
  }

  ghost predicate ShapeValid(format: string, ms: seq<Message>) {
    if format == OPENAI_FORMAT then ShapeOk(ms) else ValidList(ms)
  }

  method InspectShape(format: string, ms: seq<Message>) returns (ok: bool)
    ensures ok <==> ShapeValid(format, ms)
  {
    if format == OPENAI_FORMAT {
      ok := ValidateOpenAI(ms);
    } else {
      ok := ValidateList(ms);
    }
  }

  // ------------------------------------------------------------------ decisions

  datatype Outcome = Passthrough | Transformed | Degraded | Rejected

  /** The reason codes of receipts. */
  datatype Reason =
    | ShapeInvalid | UnsupportedMembership | UnsupportedFormat | NoEnabledStage | UnknownContent | PolicyPassthrough
    | ProtectedByUntrusted | ReversibleWithoutRecovery | ProtectedWithoutRecovery | ReversibleAdmitted | LossyOptIn

  datatype Lossiness = Lossless | Reversible | Lossy

  datatype Receipt = Receipt(outcome: Outcome, lossiness: Lossiness, inputDigest: Digest, outputDigest: Digest,
                             candidateDigest: Option<Digest>, classes: set<string>, spans: nat,
                             original: Option<Reference>, replay: Option<Plan>, reason: Option<Reason>)

  datatype Decision = Decision(output: seq<Message>, receipt: Receipt)

  /** The receipt checks that depend on the decision. */
  ghost predicate SealOk(r: Receipt) {
    && |r.classes| <= MAX_CHANGED_SPANS && (forall c :: c in r.classes ==> IsIdentifier(c))
    && r.spans <= MAX_CHANGED_SPANS && ReferenceOk(r.original)
    && (r.replay.Some? ==> PlanOk(r.replay.value) && r.replay.value.original == r.original)
    && match r.outcome
       case Passthrough => r.lossiness == Lossless && r.inputDigest == r.outputDigest
       case Rejected => r.lossiness == Lossless && r.inputDigest == r.outputDigest
       case Transformed => r.lossiness == Reversible && r.inputDigest != r.outputDigest
       case Degraded => r.lossiness == Lossy && r.inputDigest != r.outputDigest
  }

  /** The receipt of a decision, before sealing. */
  function ReceiptOf(q: Request, accepted: seq<Message>, proposed: seq<Message>, diff: Option<Diff>,
                     outcome: Outcome, lossiness: Lossiness, reason: Option<Reason>): Receipt {
    var candidate := if diff.Some? && OfList(proposed) != OfList(accepted) then Some(OfList(proposed)) else None;
    var replay := if diff.Some? && diff.value.changed
                  then Some(MakePlan(q.envelope, q.original, diff.value.membership)) else None;
    Receipt(outcome, lossiness, OfList(q.input), OfList(accepted), candidate,
            if diff.Some? then diff.value.classes else {}, if diff.Some? then diff.value.spans else 0,
            q.original, replay, reason)
  }

  datatype Ruling = Ruling(admit: bool, outcome: Outcome, lossiness: Lossiness, reason: Reason)

  /** The ladder of `transform_context` for a changed, well-shaped proposal with a
      known membership: the first rule that applies decides. */
  function Rule(q: Request, classes: set<string>): Ruling {
    if q.format != OPENAI_FORMAT then Ruling(false, Passthrough, Lossless, UnsupportedFormat)
    else if !HasEnabledStage(q) then Ruling(false, Passthrough, Lossless, NoEnabledStage)
    else if !(classes <= KNOWN_CLASSES) then Ruling(false, Passthrough, Lossless, UnknownContent)
    else if q.policy == "passthrough" then Ruling(false, Passthrough, Lossless, PolicyPassthrough)
    else if classes * PROTECTED_CLASSES != {} && HasUntrustedStage(q)
      then Ruling(false, Rejected, Lossless, ProtectedByUntrusted)
    else if q.policy == "reversible" && !RecoveryAvailable(q)
      then Ruling(false, Rejected, Lossless, ReversibleWithoutRecovery)
    else if classes * PROTECTED_CLASSES != {} && !RecoveryAvailable(q)
      then Ruling(false, Rejected, Lossless, ProtectedWithoutRecovery)
    else if RecoveryAvailable(q) then Ruling(true, Transformed, Reversible, ReversibleAdmitted)
    else Ruling(true, Degraded, Lossy, LossyOptIn)
  }

  /** The comparison, attempted only for a valid and well-shaped proposal. */
  ghost function DiffOf(q: Request, proposed: seq<Message>): Option<Diff> {
    if ValidList(proposed) && ShapeValid(q.format, proposed) then Compare(q.input, proposed) else None
  }

  /** The proposal is comparable and differs from the input. */
  ghost predicate Contested(q: Request, proposed: seq<Message>) {
    DiffOf(q, proposed).Some? && DiffOf(q, proposed).value.changed
  }

  /** Why an uncontested proposal leaves the input in place. */
  ghost function Verdict(q: Request, proposed: seq<Message>): (Outcome, Option<Reason>) {
    if DiffOf(q, proposed).Some? then (Passthrough, None)
    else if ValidList(proposed) && ShapeValid(q.format, proposed)
    then (Passthrough, Some(UnsupportedMembership))
    else (Rejected, Some(ShapeInvalid))
  }

  /** The receipt an admissible request ends with. */
  ghost function FinalReceipt(q: Request, proposed: seq<Message>): Receipt {
    if Contested(q, proposed) then
      var diff := DiffOf(q, proposed);
      var rule := Rule(q, diff.value.classes);
      ReceiptOf(q, if rule.admit then proposed else q.input, proposed, diff, rule.outcome, rule.lossiness,
                Some(rule.reason))
    else
      ReceiptOf(q, q.input, proposed, None, Verdict(q, proposed).0, Lossless, Verdict(q, proposed).1)
  }

  ghost predicate Admitted(q: Request, proposed: seq<Message>) {
    Contested(q, proposed) && Rule(q, DiffOf(q, proposed).value.classes).admit
  }

  ghost function Served(q: Request, proposed: seq<Message>): seq<Message> {
    if Admitted(q, proposed) then proposed else q.input
  }

  // ------------------------------------------------------------------- theorems

  lemma ContestedMeans(q: Request, proposed: seq<Message>)
    requires Contested(q, proposed)
    ensures ValidList(proposed) && ShapeValid(q.format, proposed) && SupportedMembership(q.input, proposed)
    ensures ChangedCount(q.input, proposed) > 0
    ensures var diff := DiffOf(q, proposed).value;
      && diff.classes == ChangedClasses(q.input, proposed) && diff.spans <= MAX_CHANGED_SPANS
      && diff.membership == Memberships(q.input, proposed)
  {}

  /** What the comparison establishes about a contested proposal. */
  lemma ContestedFacts(q: Request, proposed: seq<Message>)
    requires RequestOk(q) && Contested(q, proposed)
    ensures ValidList(proposed) && ShapeValid(q.format, proposed) && SupportedMembership(q.input, proposed)
    ensures proposed != q.input && q.input != []
    ensures var diff := DiffOf(q, proposed).value;
      && diff.classes == ChangedClasses(q.input, proposed) && diff.spans <= MAX_CHANGED_SPANS
      && diff.membership == Memberships(q.input, proposed)
      && PlanOk(MakePlan(q.envelope, q.original, diff.membership))
      && forall c :: c in diff.classes ==> IsIdentifier(c)
  {
    ContestedMeans(q, proposed);
    ClassesAreIdentifiers(q.input, proposed);
    UnchangedIsIdentity(q.input, proposed);
    ComparisonYieldsValidPlan(q.input, proposed, q.envelope, q.original);
  }

  /** Accepting a different list is what separates an admitting outcome from the others. */
  lemma RulingSeals(q: Request, proposed: seq<Message>, rule: Ruling, diff: Diff)
    requires ReferenceOk(q.original) && diff.changed && proposed != q.input && diff.spans <= MAX_CHANGED_SPANS
    requires PlanOk(MakePlan(q.envelope, q.original, diff.membership))
    requires forall c :: c in diff.classes ==> IsIdentifier(c)
    requires rule.outcome == Transformed ==> rule.lossiness == Reversible && rule.admit
    requires rule.outcome == Degraded ==> rule.lossiness == Lossy && rule.admit
    requires rule.outcome in {Passthrough, Rejected} ==> rule.lossiness == Lossless && !rule.admit
    ensures var accepted := if rule.admit then proposed else q.input;
      var receipt := ReceiptOf(q, accepted, proposed, Some(diff), rule.outcome, rule.lossiness, Some(rule.reason));
      SealOk(receipt) <==> |diff.classes| <= MAX_CHANGED_SPANS
  {}

  lemma IdentitySeals(q: Request, proposed: seq<Message>, outcome: Outcome, reason: Option<Reason>)
    requires ReferenceOk(q.original) && outcome in {Passthrough, Rejected}
    ensures SealOk(ReceiptOf(q, q.input, proposed, None, outcome, Lossless, reason))
  {}

  lemma RuleShape(q: Request, classes: set<string>)
    ensures var rule := Rule(q, classes);
      && (rule.outcome == Transformed ==> rule.lossiness == Reversible && rule.admit)
      && (rule.outcome == Degraded ==> rule.lossiness == Lossy && rule.admit)
      && (rule.outcome in {Passthrough, Rejected} ==> rule.lossiness == Lossless && !rule.admit)
  {}

  /** The receipt can be sealed in every case but one: a contested proposal that
      touches more than 128 content classes. */
  lemma SealsExactlyWhen(q: Request, proposed: seq<Message>)
    requires RequestOk(q)
    ensures SealOk(FinalReceipt(q, proposed)) <==>
      (Contested(q, proposed) ==> |ChangedClasses(q.input, proposed)| <= MAX_CHANGED_SPANS)
  {
    if Contested(q, proposed) {
      ContestedSeals(q, proposed);
    } else {
      IdentitySeals(q, proposed, Verdict(q, proposed).0, Verdict(q, proposed).1);
    }
  }

  lemma ContestedSeals(q: Request, proposed: seq<Message>)
    requires RequestOk(q) && Contested(q, proposed)
    ensures SealOk(FinalReceipt(q, proposed)) <==> |ChangedClasses(q.input, proposed)| <= MAX_CHANGED_SPANS
  {
    ContestedFacts(q, proposed);
    var diff := DiffOf(q, proposed).value;
    RuleShape(q, diff.classes);
    RulingSeals(q, proposed, Rule(q, diff.classes), diff);
  }

  /** A proposal is admitted only if it is valid and well shaped, brings in no new
      id, and no fail-closed rule stands against it. */
  lemma AdmittedOnlyIf(q: Request, proposed: seq<Message>)
    requires RequestOk(q) && Admitted(q, proposed)
    ensures q.format == OPENAI_FORMAT && ValidList(proposed) && ShapeOk(proposed)
    ensures SupportedMembership(q.input, proposed) && proposed != q.input
    ensures HasEnabledStage(q) && q.policy != "passthrough" && (q.policy == "reversible" ==> RecoveryAvailable(q))
    ensures FinalReceipt(q, proposed).outcome == if RecoveryAvailable(q) then Transformed else Degraded
  {
    ContestedFacts(q, proposed);
    RuleAdmits(q, DiffOf(q, proposed).value.classes);
  }

  lemma RuleAdmits(q: Request, classes: set<string>)
    requires Rule(q, classes).admit
    ensures q.format == OPENAI_FORMAT && HasEnabledStage(q) && q.policy != "passthrough"
    ensures q.policy == "reversible" ==> RecoveryAvailable(q)
    ensures Rule(q, classes).outcome == if RecoveryAvailable(q) then Transformed else Degraded
  {}

  /** Whatever is not admitted is served as the input, and the receipt says so. */
  lemma OtherwiseIdentity(q: Request, proposed: seq<Message>)
    requires !Admitted(q, proposed)
    ensures Served(q, proposed) == q.input
    ensures FinalReceipt(q, proposed).outcome in {Passthrough, Rejected}
    ensures FinalReceipt(q, proposed).inputDigest == FinalReceipt(q, proposed).outputDigest
  {
    if Contested(q, proposed) { RuleShape(q, DiffOf(q, proposed).value.classes); }
  }

  /** Protected content is carried verbatim at its original position, unless no
      untrusted stage is enabled and both recovery references exist. */
  lemma ProtectedContentIsCarried(q: Request, proposed: seq<Message>, i: nat)
    requires RequestOk(q) && i < |q.input| && q.input[i].contentClass in PROTECTED_CLASSES
    requires HasUntrustedStage(q) || !RecoveryAvailable(q)
    ensures i < |Served(q, proposed)| && Served(q, proposed)[i] == q.input[i]
  {
    if Admitted(q, proposed) {
      ContestedFacts(q, proposed);
      if !Retained(q.input[i], proposed) {
        ChangedClassIsReported(q.input, proposed, i);
        ProtectedChangeIsRefused(q, ChangedClasses(q.input, proposed), q.input[i].contentClass);
      }
      RetainedIsVerbatim(q.input, proposed, i);
    }
  }

  lemma ProtectedChangeIsRefused(q: Request, classes: set<string>, c: string)
    requires c in classes && c in PROTECTED_CLASSES && (HasUntrustedStage(q) || !RecoveryAvailable(q))
    ensures !Rule(q, classes).admit
  {
    assert c in classes * PROTECTED_CLASSES;
  }

  /** An admitted proposal leaves a plan from which replay against the original
      recovers its ids in order and the omissions in input order. */
  lemma AdmittedProposalReplays(q: Request, proposed: seq<Message>, r: Replayed)
    requires RequestOk(q) && Admitted(q, proposed)
    ensures FinalReceipt(q, proposed).replay.Some?
    ensures var plan := FinalReceipt(q, proposed).replay.value;
      && Replayable(plan, q.input)
      && (ReplaySpec(plan.membership, r) ==>
           r.orderedIds == Ids(Served(q, proposed)) && r.omittedIds == LeftOut(q.input, proposed))
  {
    ContestedFacts(q, proposed);
    PlanReconstructsProposal(q.input, proposed, q.envelope, q.original, r);
  }

  // ----------------------------------------------------------------- the method

  /** `seal`: the receipt's own validation. */
  method Seal(r: Receipt) returns (ok: bool)
    ensures ok <==> SealOk(r)
  {
    var replayOk := true;
    if r.replay.Some? {
      replayOk := ValidatePlan(r.replay.value);
      replayOk := replayOk && r.replay.value.original == r.original;
    }
    ok := replayOk && |r.classes| <= MAX_CHANGED_SPANS && (forall c :: c in r.classes ==> IsIdentifier(c))
      && r.spans <= MAX_CHANGED_SPANS && ReferenceOk(r.original)
      && match r.outcome
         case Passthrough => r.lossiness == Lossless && r.inputDigest == r.outputDigest
         case Rejected => r.lossiness == Lossless && r.inputDigest == r.outputDigest
         case Transformed => r.lossiness == Reversible && r.inputDigest != r.outputDigest
         case Degraded => r.lossiness == Lossy && r.inputDigest != r.outputDigest;
  }

  /** The branches of `transform_context` up to the sealing of the receipt. */
  method Decide(q: Request, proposed: seq<Message>) returns (output: seq<Message>, receipt: Receipt)
    ensures output == Served(q, proposed) && receipt == FinalReceipt(q, proposed)
  {
    var comparable, diff := CompareProposal(q, proposed);
    if diff.Some? && diff.value.changed {
      var rule := Rule(q, diff.value.classes);
      output := if rule.admit then proposed else q.input;
      receipt := ReceiptOf(q, output, proposed, diff, rule.outcome, rule.lossiness, Some(rule.reason));
    } else {
      output := q.input;
      var outcome := if comparable then Passthrough else Rejected;
      var reason := if diff.Some? then None
                    else if comparable then Some(UnsupportedMembership)
                      else Some(ShapeInvalid);
      receipt := ReceiptOf(q, q.input, proposed, None, outcome, Lossless, reason);
    }
  }

  /** Validate, inspect and compare; `comparable` says that the comparison was tried. */
  method CompareProposal(q: Request, proposed: seq<Message>) returns (comparable: bool, diff: Option<Diff>)
    ensures comparable <==> ValidList(proposed) && ShapeValid(q.format, proposed)
    ensures diff == DiffOf(q, proposed)
  {
    comparable := ValidateList(proposed);
    if comparable {
      comparable := InspectShape(q.format, proposed);
    }
    diff := None;
    if comparable {
      diff := CompareMessages(q.input, proposed);
    }
  }

  /** The contract: what is served is the input unchanged or an admitted proposal
      whole, and the program errs exactly when the request or the input's shape is
      invalid or a contested proposal touches too many content classes. */
  method TransformContext(q: Request, proposed: seq<Message>) returns (r: Option<Decision>)
    ensures r.Some? <==>
      && RequestOk(q) && ShapeValid(q.format, q.input)
      && (Contested(q, proposed) ==> |ChangedClasses(q.input, proposed)| <= MAX_CHANGED_SPANS)
    ensures r.Some? ==> r.value == Decision(Served(q, proposed), FinalReceipt(q, proposed))
    ensures r.Some? && !Admitted(q, proposed) ==>
      && r.value.output == q.input && r.value.receipt.outcome in {Passthrough, Rejected}
      && r.value.receipt.inputDigest == r.value.receipt.outputDigest
  {
    var headerOk := ValidateHeader(q);
    var inputOk := ValidateList(q.input);
    if !headerOk || !inputOk {
      return None;
    }
    var inputShape := InspectShape(q.format, q.input);
    if !inputShape {
      return None;
    }
    var output, receipt := Decide(q, proposed);
    SealsExactlyWhen(q, proposed);
    if !Admitted(q, proposed) { OtherwiseIdentity(q, proposed); }
    var sealed := Seal(receipt);
    r := if sealed then Some(Decision(output, receipt)) else None;
  }
}
