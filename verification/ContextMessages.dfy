/** Provider-shaped context messages (src/context_transform.rs): representation,
    list validation and the digests that commit to them.

    A SHA-256 digest of a canonical serialisation is modelled by the value it was
    computed from, that is, digests are taken to be injective. */
module ContextMessages {
  import opened Sets
  import opened Options
  import opened Text

  const MAX_MESSAGES := 512
  const MAX_IDENTIFIER_LEN := 256
  const MAX_MESSAGE_BYTES := 2 * 1024 * 1024

  datatype Json =
    | Null
    | Bool(b: bool)
    | Number(n: real)
    | Str(s: string)
    | Arr(items: seq<Json>)
    | Obj(fields: map<string, Json>)

  /** A provider message with the size of its serialisation. */
  datatype Payload = Payload(value: Json, bytes: nat, chars: nat)

  /** Source-chain identity: whether it names a lineage, and whether it is well
      formed. */
  datatype Chain = Chain(material: string, known: bool, wellFormed: bool)

  const UNKNOWN_CHAIN := Chain("", false, true)

  datatype Message = Message(id: string, order: nat, contentClass: string, body: Payload, chain: Option<Chain>)

  function ChainOf(m: Message): Chain {
    if m.chain.Some? then m.chain.value else UNKNOWN_CHAIN
  }

  predicate IsIdentifier(s: string) {
    && s != "" && Utf8Length(s) <= MAX_IDENTIFIER_LEN
    && forall i :: 0 <= i < |s| ==> !IsControl(s[i]) && !IsWhitespace(s[i])
  }

  predicate ValidMessage(m: Message) {
    && IsIdentifier(m.id) && IsIdentifier(m.contentClass) && ChainOf(m).wellFormed
    && m.body.value.Obj? && m.body.bytes <= MAX_MESSAGE_BYTES
  }

  // --------------------------------------------------------------------- lists

  ghost predicate Contiguous(ms: seq<Message>) {
    forall i :: 0 <= i < |ms| ==> ms[i].order == i
  }

  ghost predicate DistinctIds(ms: seq<Message>) {
    forall i, j :: 0 <= i < j < |ms| ==> ms[i].id != ms[j].id
  }

  ghost predicate AllValid(ms: seq<Message>) {
    forall i :: 0 <= i < |ms| ==> ValidMessage(ms[i])
  }

  /** A list the contract accepts: bounded, in contiguous order, valid messages
      with unique ids. */
  ghost predicate ValidList(ms: seq<Message>) {
    |ms| <= MAX_MESSAGES && Contiguous(ms) && AllValid(ms) && DistinctIds(ms)
  }

  method ValidateList(ms: seq<Message>) returns (ok: bool)
    ensures ok <==> ValidList(ms)
  {
    if |ms| > MAX_MESSAGES {
      return false;
    }
    var ids: set<string> := {};
    for k := 0 to |ms|
      invariant Contiguous(ms[..k]) && AllValid(ms[..k]) && DistinctIds(ms[..k])
      invariant forall s :: s in ids <==> exists i :: 0 <= i < k && ms[i].id == s
    {
      if ms[k].order != k || !ValidMessage(ms[k]) || ms[k].id in ids {
        return false;
      }
      ids := ids + {ms[k].id};
    }
    assert ms[..|ms|] == ms;
    ok := true;
  }

  function Ids(ms: seq<Message>): (r: seq<string>)
    ensures |r| == |ms| && forall i :: 0 <= i < |ms| ==> r[i] == ms[i].id
  {
    seq(|ms|, i requires 0 <= i < |ms| => ms[i].id)
  }

  predicate HasId(ms: seq<Message>, id: string) {
    exists i :: 0 <= i < |ms| && ms[i].id == id
  }

  /** Position of the message with this id. */
  function Find(ms: seq<Message>, id: string): (r: Option<nat>)
    ensures r.Some? ==> r.value < |ms| && ms[r.value].id == id
    ensures r.None? <==> !HasId(ms, id)
  {
    if ms == [] then None
    else if ms[|ms| - 1].id == id then Some(|ms| - 1)
    else
      var r := Find(ms[..|ms| - 1], id);
      assert forall i :: 0 <= i < |ms| - 1 ==> ms[i] == ms[..|ms| - 1][i];
      r
  }

  lemma FindUnique(ms: seq<Message>, k: nat)
    requires DistinctIds(ms) && k < |ms|
    ensures Find(ms, ms[k].id) == Some(k)
  {
    assert HasId(ms, ms[k].id);
  }

  /** A list with distinct ids drawn from another list is no longer than it. */
  lemma SubsetIsShorter(input: seq<Message>, output: seq<Message>)
    requires DistinctIds(output) && forall k :: 0 <= k < |output| ==> HasId(input, output[k].id)
    ensures |output| <= |input|
  {
    IdCount(output);
    IdCount(input);
    forall id | id in IdSet(output) ensures id in IdSet(input) {
      IdSetHas(output, id);
      IdSetHas(input, id);
    }
    SubsetCardinality(IdSet(output), IdSet(input));
  }

  function IdSet(ms: seq<Message>): set<string> {
    if ms == [] then {} else IdSet(ms[..|ms| - 1]) + {ms[|ms| - 1].id}
  }

  lemma {:induction false} IdSetHas(ms: seq<Message>, id: string)
    ensures id in IdSet(ms) <==> HasId(ms, id)
  {
    if ms != [] {
      var front := ms[..|ms| - 1];
      IdSetHas(front, id);
      assert forall i :: 0 <= i < |front| ==> ms[i] == front[i];
    }
  }

  lemma {:induction false} IdCount(ms: seq<Message>)
    ensures |IdSet(ms)| <= |ms| && (DistinctIds(ms) ==> |IdSet(ms)| == |ms|)
  {
    if ms != [] {
      IdCount(ms[..|ms| - 1]);
      IdSetHas(ms[..|ms| - 1], ms[|ms| - 1].id);
    }
  }
}
