/** The one case in which a valid request is not decided (src/context_transform.rs):
    a proposal within the limit on changed messages whose messages also change class,
    so that more than 128 content classes are touched. */
module ContextOverflow {
  import opened Text
  import opened Options
  import opened ContextMessages
  import opened ContextDiff
  import opened ContextTransform

  /** The i-th of a family of distinct identifiers: i + 1 times the same letter. */
  function Name(c: char, i: nat): string { seq(i + 1, _ => c) }

  lemma NameIsIdentifier(c: char, i: nat)
    requires 'a' <= c <= 'z' && i < 200
    ensures IsIdentifier(Name(c, i))
  {
    AsciiLength(Name(c, i));
    forall k | 0 <= k <= i ensures !IsControl(Name(c, i)[k]) && !IsWhitespace(Name(c, i)[k]) {}
  }

  lemma NamesDiffer(c: char, i: nat, d: char, j: nat)
    requires c != d || i != j
    ensures Name(c, i) != Name(d, j)
  {
    if i == j {
      assert Name(c, i)[0] == c && Name(d, j)[0] == d;
    } else {
      assert |Name(c, i)| == i + 1 && |Name(d, j)| == j + 1;
    }
  }

  /** Message i of a list whose classes are named with letter c. */
  function Nth(c: char, i: nat): Message {
    Message(Name('i', i), i, Name(c, i), Payload(Obj(map[]), 2, 2), None)
  }

  function Listed(c: char, n: nat): (ms: seq<Message>)
    ensures |ms| == n && forall i :: 0 <= i < n ==> ms[i] == Nth(c, i)
  {
    seq(n, i requires 0 <= i < n => Nth(c, i))
  }

  lemma ListedIsValid(c: char, n: nat)
    requires 'a' <= c <= 'z' && n <= 128
    ensures ValidList(Listed(c, n))
  {
    forall i | 0 <= i < n ensures ValidMessage(Nth(c, i)) {
      NameIsIdentifier('i', i);
      NameIsIdentifier(c, i);
    }
    forall i, j | 0 <= i < j < n ensures Nth(c, i).id != Nth(c, j).id {
      NamesDiffer('i', i, 'i', j);
    }
  }

  /** Every message keeps its id and order and changes its class. */
  lemma ClassChanges(n: nat, i: nat)
    requires i < n <= 128
    ensures !Retained(Nth('b', i), Listed('c', n)) &&
      TouchedClasses(Nth('b', i), Listed('c', n)) == {Name('b', i), Name('c', i)}
  {
    var output := Listed('c', n);
    ListedIsValid('c', n);
    FindUnique(output, i);
    NamesDiffer('b', i, 'c', i);
  }

  /** Made of names with numbers below k. */
  ghost predicate NamesBelow(cs: set<string>, k: nat) {
    forall s :: s in cs ==> exists i: nat :: i < k && (s == Name('b', i) || s == Name('c', i))
  }

  lemma TwoMoreNames(cs: set<string>, k: nat)
    requires NamesBelow(cs, k)
    ensures var more := cs + {Name('b', k), Name('c', k)};
      NamesBelow(more, k + 1) && |more| == |cs| + 2
  {
    NamesDiffer('b', k, 'c', k);
    forall s | s in cs ensures s != Name('b', k) && s != Name('c', k) {
      var i: nat :| i < k && (s == Name('b', i) || s == Name('c', i));
      assert |s| == i + 1;
    }
    assert |{Name('b', k), Name('c', k)}| == 2;
    assert cs !! {Name('b', k), Name('c', k)};
  }

  lemma {:induction false} EveryClassChanges(k: nat, n: nat)
    requires k <= n <= 128
    ensures ChangedCount(Listed('b', n)[..k], Listed('c', n)) == k
    ensures var cs := ChangedClasses(Listed('b', n)[..k], Listed('c', n)); |cs| == 2 * k && NamesBelow(cs, k)
  {
    if k > 0 {
      var input, output := Listed('b', n), Listed('c', n);
      EveryClassChanges(k - 1, n);
      OneMoreSource(input, output, k - 1);
      ClassChanges(n, k - 1);
      TwoMoreNames(ChangedClasses(input[..k - 1], output), k - 1);
    }
  }

  /** A request in a format whose shape is not inspected. */
  function Sample(n: nat): Request {
    Request("p", "plain", "t", "v", [], "lossy_opt_in", Listed('b', n), false, None, None)
  }

  lemma SampleIsValid(n: nat)
    requires n <= 128
    ensures RequestOk(Sample(n)) && ShapeValid("plain", Listed('b', n)) && ShapeValid("plain", Listed('c', n))
  {
    ListedIsValid('b', n);
    ListedIsValid('c', n);
    AsciiLength("p");
    AsciiLength("plain");
    AsciiLength("t");
    AsciiLength("v");
    assert |"plain"| == 5 && "plain" != OPENAI_FORMAT;
  }

  lemma SampleIsContested(n: nat)
    requires 0 < n <= 128
    ensures Contested(Sample(n), Listed('c', n)) && |ChangedClasses(Listed('b', n), Listed('c', n))| == 2 * n
  {
    var input, output := Listed('b', n), Listed('c', n);
    SampleIsValid(n);
    ListedIsValid('b', n);
    ListedIsValid('c', n);
    EveryClassChanges(n, n);
    assert input[..n] == input;
    forall k | 0 <= k < n ensures HasId(input, output[k].id) {
      assert input[k].id == output[k].id;
    }
  }

  /** The failing case is not empty: for 65 to 128 messages the request is valid, the
      input well shaped and the proposal contested, and its receipt cannot be sealed. */
  lemma ValidRequestsCanFail(n: nat)
    requires 65 <= n <= 128
    ensures RequestOk(Sample(n)) && ShapeValid(Sample(n).format, Sample(n).input) &&
      Contested(Sample(n), Listed('c', n))
    ensures !SealOk(FinalReceipt(Sample(n), Listed('c', n)))
  {
    SampleIsValid(n);
    SampleIsContested(n);
    SealsExactlyWhen(Sample(n), Listed('c', n));
  }
}
