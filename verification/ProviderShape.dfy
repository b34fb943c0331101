/** The OpenAI-shaped message check (src/context_transform.rs,
    `validate_openai_messages`): roles, content parts, and the pairing of tool
    calls with tool results. */
module ProviderShape {
  import opened Options
  import opened ContextMessages

  function Field(j: Json, name: string): Option<Json> {
    if j.Obj? && name in j.fields then Some(j.fields[name]) else None
  }

  function StringField(j: Json, name: string): Option<string> {
    var f := Field(j, name);
    if f.Some? && f.value.Str? then Some(f.value.s) else None
  }

  function NonEmpty(s: Option<string>): Option<string> {
    if s.Some? && s.value != "" then s else None
  }

  predicate PartOk(part: Json) {
    var kind := NonEmpty(StringField(part, "type"));
    && part.Obj? && kind.Some?
    && (kind.value in {"text", "input_text"} ==> StringField(part, "text").Some?)
    && (kind.value in {"image_url", "input_image"} ==>
         Field(part, "image_url").Some? || Field(part, "image_url_ref").Some?)
  }

  predicate ContentOk(content: Json) {
    match content
    case Null => true
    case Str(_) => true
    case Arr(parts) => forall i :: 0 <= i < |parts| ==> PartOk(parts[i])
    case _ => false
  }

  predicate CallOk(call: Json) {
    var fn := Field(call, "function");
    && call.Obj? && NonEmpty(StringField(call, "id")).Some?
    && fn.Some? && fn.value.Obj? && StringField(fn.value, "name").Some? && StringField(fn.value, "arguments").Some?
  }

  function Role(m: Message): Option<string> {
    StringField(m.body.value, "role")
  }

  /** Everything the check demands of one message on its own. */
  predicate LocalOk(m: Message) {
    var j, role, calls := m.body.value, Role(m), Field(m.body.value, "tool_calls");
    && j.Obj? && role.Some? && role.value in {"system", "developer", "user", "assistant", "tool"}
    && (Field(j, "content").Some? ==> ContentOk(Field(j, "content").value))
    && (role.value == "tool" ==> NonEmpty(StringField(j, "tool_call_id")).Some?)
    && (calls.Some? ==> role.value == "assistant" && calls.value.Arr?
                        && forall i :: 0 <= i < |calls.value.items| ==> CallOk(calls.value.items[i]))
  }

  /** Ids of the tool calls a message issues. */
  function CallIds(m: Message): seq<string> {
    var calls := Field(m.body.value, "tool_calls");
    if calls.Some? && calls.value.Arr? then CallIdsOf(calls.value.items) else []
  }

  function CallIdsOf(calls: seq<Json>): (r: seq<string>)
    ensures |r| == |calls|
  {
    seq(|calls|, i requires 0 <= i < |calls| =>
      var id := StringField(calls[i], "id"); if id.Some? then id.value else "")
  }

  /** Id of the tool call a message answers. */
  function ResultId(m: Message): Option<string> {
    if Role(m) == Some("tool") then StringField(m.body.value, "tool_call_id") else None
  }

  function StringSet(s: seq<string>): set<string> {
    set c | c in s
  }

  function CallsBefore(ms: seq<Message>, k: nat): set<string>
    requires k <= |ms|
  {
    if k == 0 then {} else CallsBefore(ms, k - 1) + StringSet(CallIds(ms[k - 1]))
  }

  function ResultsBefore(ms: seq<Message>, k: nat): set<string>
    requires k <= |ms|
  {
    if k == 0 then {}
    else ResultsBefore(ms, k - 1) + if ResultId(ms[k - 1]).Some? then {ResultId(ms[k - 1]).value} else {}
  }

  ghost predicate DistinctStrings(s: seq<string>) {
    forall i, j :: 0 <= i < j < |s| ==> s[i] != s[j]
  }

  /** Message k is well formed, answers an open call at most once, and issues
      only new call ids. */
  ghost predicate StepOk(ms: seq<Message>, k: nat)
    requires k < |ms|
  {
    && LocalOk(ms[k])
    && (ResultId(ms[k]).Some? ==>
         ResultId(ms[k]).value in CallsBefore(ms, k) && ResultId(ms[k]).value !in ResultsBefore(ms, k))
    && DistinctStrings(CallIds(ms[k])) && forall c :: c in CallIds(ms[k]) ==> c !in CallsBefore(ms, k)
  }

  ghost predicate StepsOk(ms: seq<Message>, n: nat)
    requires n <= |ms|
  {
    forall k :: 0 <= k < n ==> StepOk(ms, k)
  }

  lemma StepsMore(ms: seq<Message>, n: nat)
    requires n < |ms| && StepsOk(ms, n)
    ensures StepOk(ms, n) ==> StepsOk(ms, n + 1)
    ensures !StepOk(ms, n) ==> !StepsOk(ms, |ms|)
  {}

  ghost predicate ShapeOk(ms: seq<Message>) {
    && StepsOk(ms, |ms|)
    && CallsBefore(ms, |ms|) == ResultsBefore(ms, |ms|)
  }

  /** Collect the call ids of one message, failing on a repeated id. */
  method CollectCalls(ids: seq<string>, known: set<string>) returns (ok: bool, all: set<string>)
    ensures ok <==> DistinctStrings(ids) && forall c :: c in ids ==> c !in known
    ensures ok ==> all == known + StringSet(ids)
  {
    all := known;
    for i := 0 to |ids|
      invariant all == known + StringSet(ids[..i])
      invariant DistinctStrings(ids[..i]) && forall c :: c in ids[..i] ==> c !in known
    {
      if ids[i] in all {
        assert ids[i] in known || ids[i] in ids[..i];
        return false, all;
      }
      assert ids[..i + 1] == ids[..i] + [ids[i]];
      all := all + {ids[i]};
    }
    assert ids[..|ids|] == ids;
    ok := true;
  }

  /** One message of the check, given the calls and results seen before it. */
  method CheckStep(ms: seq<Message>, k: nat, calls0: set<string>, results0: set<string>)
    returns (ok: bool, calls: set<string>, results: set<string>)
    requires k < |ms| && calls0 == CallsBefore(ms, k) && results0 == ResultsBefore(ms, k)
    ensures ok <==> StepOk(ms, k)
    ensures ok ==> calls == CallsBefore(ms, k + 1) && results == ResultsBefore(ms, k + 1)
  {
    calls, results := calls0, results0;
    if !LocalOk(ms[k]) {
      return false, calls, results;
    }
    var answered := ResultId(ms[k]);
    if answered.Some? {
      if answered.value in results || answered.value !in calls {
        return false, calls, results;
      }
      results := results + {answered.value};
    }
    ok, calls := CollectCalls(CallIds(ms[k]), calls);
  }

  /** The check accepts exactly the well-shaped lists. */
  method ValidateOpenAI(ms: seq<Message>) returns (ok: bool)
    ensures ok <==> ShapeOk(ms)
  {
    var calls: set<string>, results: set<string> := {}, {};
    for k := 0 to |ms|
      invariant StepsOk(ms, k)
      invariant calls == CallsBefore(ms, k) && results == ResultsBefore(ms, k)
    {
      var stepOk;
      stepOk, calls, results := CheckStep(ms, k, calls, results);
      StepsMore(ms, k);
      if !stepOk {
        return false;
      }
    }
    ok := calls == results;
  }

  // -------------------------------------------------------------------- pairing

  lemma {:induction false} CallWasIssued(ms: seq<Message>, k: nat, c: string) returns (i: nat)
    requires k <= |ms| && c in CallsBefore(ms, k)
    ensures i < k && c in CallIds(ms[i])
  {
    i := k - 1;
    if c in CallsBefore(ms, k - 1) { i := CallWasIssued(ms, k - 1, c); }
  }

  lemma {:induction false} IssuedCallIsKnown(ms: seq<Message>, i: nat, k: nat, c: string)
    requires i < k <= |ms| && c in CallIds(ms[i])
    ensures c in CallsBefore(ms, k)
  {
    if i < k - 1 { IssuedCallIsKnown(ms, i, k - 1, c); }
  }

  lemma {:induction false} ResultGivenBefore(ms: seq<Message>, k: nat, c: string)
    requires k <= |ms|
    ensures c in ResultsBefore(ms, k) <==> exists i :: 0 <= i < k && ResultId(ms[i]) == Some(c)
  {
    if k > 0 { ResultGivenBefore(ms, k - 1, c); }
  }

  /** In a well-shaped list every tool call is answered by exactly one message,
      which comes later, and every answer names a call issued earlier. */
  lemma ToolCallsArePaired(ms: seq<Message>, k: nat, c: string)
    requires ShapeOk(ms) && k < |ms| && c in CallIds(ms[k])
    ensures exists j :: k < j < |ms| && ResultId(ms[j]) == Some(c)
    ensures forall i, j :: 0 <= i < |ms| && 0 <= j < |ms| && ResultId(ms[i]) == Some(c) == ResultId(ms[j]) ==> i == j
    ensures forall i :: 0 <= i < |ms| && c in CallIds(ms[i]) ==> i == k
  {
    IssuedCallIsKnown(ms, k, |ms|, c);
    ResultGivenBefore(ms, |ms|, c);
    var j :| 0 <= j < |ms| && ResultId(ms[j]) == Some(c);
    assert StepOk(ms, j);
    var i := CallWasIssued(ms, j, c);
    IssuedOnce(ms, i, k, c);
    forall a, b | 0 <= a < b < |ms| && ResultId(ms[a]) == Some(c) ensures ResultId(ms[b]) != Some(c) {
      assert StepOk(ms, b);
      ResultGivenBefore(ms, b, c);
    }
    forall x | 0 <= x < |ms| && c in CallIds(ms[x]) ensures x == k { IssuedOnce(ms, x, k, c); }
  }

  lemma IssuedOnce(ms: seq<Message>, i: nat, k: nat, c: string)
    requires ShapeOk(ms) && i < |ms| && k < |ms| && c in CallIds(ms[i]) && c in CallIds(ms[k])
    ensures i == k
  {
    var a, b := if i < k then i else k, if i < k then k else i;
    assert StepOk(ms, b);
    if a < b { IssuedCallIsKnown(ms, a, b, c); }
  }

  // ------------------------------------------------------------- the shape, exactly

  /** The object has this string under this name. */
  predicate Says(j: Json, name: string, value: string) {
    j.Obj? && name in j.fields && j.fields[name] == Str(value)
  }

  ghost predicate SaysSome(j: Json, name: string) {
    exists value :: Says(j, name, value)
  }

  /** A content part: an object with a non-empty type; text parts hold a text and image
      parts an image or a reference to one. */
  ghost predicate PartShape(part: Json) {
    && part.Obj? && (exists kind :: kind != "" && Says(part, "type", kind))
    && (Says(part, "type", "text") || Says(part, "type", "input_text") ==> SaysSome(part, "text"))
    && (Says(part, "type", "image_url") || Says(part, "type", "input_image") ==>
         "image_url" in part.fields || "image_url_ref" in part.fields)
  }

  /** A tool call: an object with a non-empty id and a function with name and arguments. */
  ghost predicate CallShape(call: Json) {
    && call.Obj? && (exists id :: id != "" && Says(call, "id", id))
    && "function" in call.fields && SaysSome(call.fields["function"], "name")
    && SaysSome(call.fields["function"], "arguments")
  }

  ghost predicate HasRole(j: Json) {
    Says(j, "role", "system") || Says(j, "role", "developer") || Says(j, "role", "user") || Says(j, "role", "assistant")
    || Says(j, "role", "tool")
  }

  /** One message: an object with one of the five roles; content is null, a text or a list
      of parts; a tool message names its call; only an assistant issues calls. */
  ghost predicate MessageShape(j: Json) {
    && j.Obj? && HasRole(j)
    && ("content" in j.fields ==>
         || j.fields["content"].Null? || j.fields["content"].Str?
         || (j.fields["content"].Arr? &&
              forall i :: 0 <= i < |j.fields["content"].items| ==> PartShape(j.fields["content"].items[i])))
    && (Says(j, "role", "tool") ==> exists id :: id != "" && Says(j, "tool_call_id", id))
    && ("tool_calls" in j.fields ==>
         && Says(j, "role", "assistant") && j.fields["tool_calls"].Arr?
         && forall i :: 0 <= i < |j.fields["tool_calls"].items| ==> CallShape(j.fields["tool_calls"].items[i]))
  }

  lemma StringFieldMeans(j: Json, name: string)
    ensures StringField(j, name).Some? <==> SaysSome(j, name)
    ensures StringField(j, name).Some? ==> Says(j, name, StringField(j, name).value)
    ensures forall value :: Says(j, name, value) ==> StringField(j, name) == Some(value)
    ensures NonEmpty(StringField(j, name)).Some? <==> exists value :: value != "" && Says(j, name, value)
  {
    if StringField(j, name).Some? { assert Says(j, name, StringField(j, name).value); }
  }

  lemma PartMeans(part: Json)
    ensures PartOk(part) <==> PartShape(part)
  {
    StringFieldMeans(part, "type");
    StringFieldMeans(part, "text");
  }

  lemma CallMeans(call: Json)
    ensures CallOk(call) <==> CallShape(call)
  {
    StringFieldMeans(call, "id");
    if Field(call, "function").Some? {
      StringFieldMeans(Field(call, "function").value, "name");
      StringFieldMeans(Field(call, "function").value, "arguments");
    }
  }

  lemma MessageMeans(m: Message)
    ensures LocalOk(m) <==> MessageShape(m.body.value)
  {
    var j := m.body.value;
    StringFieldMeans(j, "role");
    StringFieldMeans(j, "tool_call_id");
    forall part: Json ensures PartOk(part) <==> PartShape(part) { PartMeans(part); }
    forall call: Json ensures CallOk(call) <==> CallShape(call) { CallMeans(call); }
  }

  /** The message issues a tool call with this id, as its x-th call. */
  predicate Issues(m: Message, x: nat, c: string) {
    var j := m.body.value;
    && j.Obj? && "tool_calls" in j.fields && j.fields["tool_calls"].Arr?
    && x < |j.fields["tool_calls"].items| && Says(j.fields["tool_calls"].items[x], "id", c)
  }

  predicate Answers(m: Message, c: string) {
    Says(m.body.value, "role", "tool") && Says(m.body.value, "tool_call_id", c)
  }

  lemma CallIdsMean(m: Message, x: nat, c: string)
    requires LocalOk(m)
    ensures Issues(m, x, c) <==> x < |CallIds(m)| && CallIds(m)[x] == c
  {
    var calls := Field(m.body.value, "tool_calls");
    if calls.Some? && x < |calls.value.items| {
      assert CallOk(calls.value.items[x]);
      StringFieldMeans(calls.value.items[x], "id");
    }
  }

  lemma ResultIdMeans(m: Message, c: string)
    ensures ResultId(m) == Some(c) <==> Answers(m, c)
  {
    StringFieldMeans(m.body.value, "role");
    StringFieldMeans(m.body.value, "tool_call_id");
  }

  /** No id is issued twice, an answer names a call issued before it, no call is answered
      twice, and every call is answered. */
  ghost predicate Paired(ms: seq<Message>) {
    && (forall i, j, x, y, c :: 0 <= i < |ms| && 0 <= j < |ms| && Issues(ms[i], x, c) && Issues(ms[j], y, c) ==>
         i == j && x == y)
    && (forall j, c :: 0 <= j < |ms| && Answers(ms[j], c) ==> IssuedBefore(ms, j, c))
    && (forall i, j, c :: 0 <= i < |ms| && 0 <= j < |ms| && Answers(ms[i], c) && Answers(ms[j], c) ==> i == j)
    && (forall i, x, c :: 0 <= i < |ms| && Issues(ms[i], x, c) ==> exists j :: 0 <= j < |ms| && Answers(ms[j], c))
  }

  ghost predicate IssuedBefore(ms: seq<Message>, j: nat, c: string) {
    exists i, x :: 0 <= i < j && i < |ms| && Issues(ms[i], x, c)
  }

  ghost predicate AllLocalOk(ms: seq<Message>) {
    forall k :: 0 <= k < |ms| ==> LocalOk(ms[k])
  }

  lemma CallIssued(m: Message, c: string)
    requires LocalOk(m) && c in CallIds(m)
    ensures exists x: nat :: Issues(m, x, c)
  {
    var x :| 0 <= x < |CallIds(m)| && CallIds(m)[x] == c;
    CallIdsMean(m, x, c);
  }

  lemma IssuedCall(m: Message, x: nat, c: string)
    requires LocalOk(m) && Issues(m, x, c)
    ensures x < |CallIds(m)| && CallIds(m)[x] == c && c in CallIds(m)
  {
    CallIdsMean(m, x, c);
  }

  lemma ShapedArePaired(ms: seq<Message>)
    requires ShapeOk(ms)
    ensures AllLocalOk(ms) && Paired(ms)
  {
    forall k | 0 <= k < |ms| ensures LocalOk(ms[k]) { assert StepOk(ms, k); }
    forall i, j, x, y, c | 0 <= i < |ms| && 0 <= j < |ms| && Issues(ms[i], x, c) && Issues(ms[j], y, c)
      ensures i == j && x == y
    {
      IssuedCall(ms[i], x, c);
      IssuedCall(ms[j], y, c);
      IssuedOnce(ms, i, j, c);
      assert StepOk(ms, i);
    }
    forall j, c | 0 <= j < |ms| && Answers(ms[j], c) ensures IssuedBefore(ms, j, c) { AnswerNamesCall(ms, j, c); }
    forall i, j, c | 0 <= i < |ms| && 0 <= j < |ms| && Answers(ms[i], c) && Answers(ms[j], c) ensures i == j {
      AnsweredOnce(ms, i, j, c);
    }
    forall i, x, c | 0 <= i < |ms| && Issues(ms[i], x, c) ensures exists j :: 0 <= j < |ms| && Answers(ms[j], c) {
      IssuedCall(ms[i], x, c);
      ToolCallsArePaired(ms, i, c);
      var j :| i < j < |ms| && ResultId(ms[j]) == Some(c);
      ResultIdMeans(ms[j], c);
    }
  }

  lemma AnswerNamesCall(ms: seq<Message>, j: nat, c: string)
    requires ShapeOk(ms) && j < |ms| && Answers(ms[j], c)
    ensures IssuedBefore(ms, j, c)
  {
    ResultIdMeans(ms[j], c);
    assert StepOk(ms, j);
    var i := CallWasIssued(ms, j, c);
    assert StepOk(ms, i);
    CallIssued(ms[i], c);
  }

  lemma AnsweredOnce(ms: seq<Message>, i: nat, j: nat, c: string)
    requires ShapeOk(ms) && i < |ms| && j < |ms| && Answers(ms[i], c) && Answers(ms[j], c)
    ensures i == j
  {
    ResultIdMeans(ms[i], c);
    ResultIdMeans(ms[j], c);
    var a, b := if i < j then i else j, if i < j then j else i;
    assert StepOk(ms, b);
    ResultGivenBefore(ms, b, c);
  }

  lemma PairedStep(ms: seq<Message>, k: nat)
    requires AllLocalOk(ms) && Paired(ms) && k < |ms|
    ensures StepOk(ms, k)
  {
    if ResultId(ms[k]).Some? { PairedAnswer(ms, k, ResultId(ms[k]).value); }
    PairedCalls(ms, k);
  }

  lemma PairedAnswer(ms: seq<Message>, k: nat, c: string)
    requires AllLocalOk(ms) && Paired(ms) && k < |ms| && ResultId(ms[k]) == Some(c)
    ensures c in CallsBefore(ms, k) && c !in ResultsBefore(ms, k)
  {
    ResultIdMeans(ms[k], c);
    var i, x :| 0 <= i < k && i < |ms| && Issues(ms[i], x, c);
    IssuedCall(ms[i], x, c);
    IssuedCallIsKnown(ms, i, k, c);
    ResultGivenBefore(ms, k, c);
    forall j | 0 <= j < k ensures ResultId(ms[j]) != Some(c) { ResultIdMeans(ms[j], c); }
  }

  lemma PairedCalls(ms: seq<Message>, k: nat)
    requires AllLocalOk(ms) && Paired(ms) && k < |ms|
    ensures DistinctStrings(CallIds(ms[k])) && forall c :: c in CallIds(ms[k]) ==> c !in CallsBefore(ms, k)
  {
    forall x: nat, y: nat | x < y < |CallIds(ms[k])| ensures CallIds(ms[k])[x] != CallIds(ms[k])[y] {
      CallIdsMean(ms[k], x, CallIds(ms[k])[x]);
      CallIdsMean(ms[k], y, CallIds(ms[k])[y]);
    }
    forall c | c in CallIds(ms[k]) ensures c !in CallsBefore(ms, k) { NewCall(ms, k, c); }
  }

  lemma NewCall(ms: seq<Message>, k: nat, c: string)
    requires AllLocalOk(ms) && Paired(ms) && k < |ms| && c in CallIds(ms[k])
    ensures c !in CallsBefore(ms, k)
  {
    if c in CallsBefore(ms, k) {
      var i := CallWasIssued(ms, k, c);
      CallIssued(ms[i], c);
      CallIssued(ms[k], c);
    }
  }

  lemma PairedSets(ms: seq<Message>, c: string)
    requires AllLocalOk(ms) && Paired(ms)
    ensures c in CallsBefore(ms, |ms|) <==> c in ResultsBefore(ms, |ms|)
  {
    ResultGivenBefore(ms, |ms|, c);
    if c in CallsBefore(ms, |ms|) {
      var i := CallWasIssued(ms, |ms|, c);
      CallIssued(ms[i], c);
      var j :| 0 <= j < |ms| && Answers(ms[j], c);
      ResultIdMeans(ms[j], c);
    }
    if j :| 0 <= j < |ms| && ResultId(ms[j]) == Some(c) {
      PairedAnswer(ms, j, c);
      var i := CallWasIssued(ms, j, c);
      IssuedCallIsKnown(ms, i, |ms|, c);
    }
  }

  /** The check accepts exactly the lists of well-formed messages whose calls and answers
      are paired. */
  lemma ShapeExactlyWhen(ms: seq<Message>)
    ensures ShapeOk(ms) <==> (forall k :: 0 <= k < |ms| ==> MessageShape(ms[k].body.value)) && Paired(ms)
  {
    forall k | 0 <= k < |ms| ensures LocalOk(ms[k]) <==> MessageShape(ms[k].body.value) { MessageMeans(ms[k]); }
    if ShapeOk(ms) {
      ShapedArePaired(ms);
    } else if AllLocalOk(ms) && Paired(ms) {
      forall k | 0 <= k < |ms| ensures StepOk(ms, k) { PairedStep(ms, k); }
      forall c ensures c in CallsBefore(ms, |ms|) <==> c in ResultsBefore(ms, |ms|) { PairedSets(ms, c); }
      assert CallsBefore(ms, |ms|) == ResultsBefore(ms, |ms|);
    }
  }
}
