/** Chain-coherent selection (src/evidence_lanes.rs): keep one known source chain
    out of a candidate list, in a plain form and in a scored form. Chain keys and
    the reasons for a malformed identity are inputs; the order in which the
    program walks its key-ordered map is left open, since no result depends on it. */
module ChainSelection {
  import opened Options

  datatype ChainKey = Known(key: string) | Unknown | Malformed(reason: string)
  datatype Entity = Entity(id: string, chain: ChainKey)
  datatype Exclusion = Exclusion(reason: string, count: nat)

  // -------------------------------------------------------------- vocabulary

  /** The entities of one chain, in input order. */
  function Members(es: seq<Entity>, key: string): seq<Entity> {
    if es == [] then []
    else
      Members(es[..|es| - 1], key) + if es[|es| - 1].chain == Known(key) then [es[|es| - 1]] else []
  }

  /** Position of the first entity of a chain; the length of the list if there is none. */
  function First(es: seq<Entity>, key: string): nat {
    if es == [] then 0
    else
      var f := First(es[..|es| - 1], key);
      if f < |es| - 1 || es[|es| - 1].chain == Known(key) then f else |es|
  }

  lemma {:induction false} FirstIsFirst(es: seq<Entity>, key: string)
    ensures First(es, key) <= |es| && (First(es, key) < |es| <==> Members(es, key) != [])
    ensures First(es, key) < |es| ==> es[First(es, key)].chain == Known(key)
    ensures forall i :: 0 <= i < First(es, key) ==> es[i].chain != Known(key)
  {
    if es != [] {
      var front := es[..|es| - 1];
      FirstIsFirst(front, key);
      assert forall i :: 0 <= i < |front| ==> es[i] == front[i];
    }
  }

  /** Entities whose chain is not known. */
  function Keyless(es: seq<Entity>): nat {
    if es == [] then 0
    else Keyless(es[..|es| - 1]) + if es[|es| - 1].chain.Known? then 0 else 1
  }

  /** Entities whose chain is one of `keys`. */
  function Within(es: seq<Entity>, keys: set<string>): nat {
    if es == [] then 0
    else
      var last := es[|es| - 1].chain;
      Within(es[..|es| - 1], keys) + if last.Known? && last.key in keys then 1 else 0
  }

  lemma {:induction false} WithinOneMore(es: seq<Entity>, keys: set<string>, key: string)
    requires key !in keys
    ensures Within(es, keys + {key}) == Within(es, keys) + |Members(es, key)|
  {
    if es != [] { WithinOneMore(es[..|es| - 1], keys, key); }
  }

  lemma {:induction false} WithinNone(es: seq<Entity>)
    ensures Within(es, {}) == 0
  {
    if es != [] { WithinNone(es[..|es| - 1]); }
  }

  lemma {:induction false} WithinAll(es: seq<Entity>, keys: set<string>)
    requires forall k :: Members(es, k) != [] ==> k in keys
    ensures Within(es, keys) + Keyless(es) == |es|
  {
    if es != [] {
      var front, last := es[..|es| - 1], es[|es| - 1].chain;
      forall k | Members(front, k) != [] ensures k in keys {
        assert Members(es, k) != [];
      }
      WithinAll(front, keys);
      if last.Known? { assert Members(es, last.key) != []; }
    }
  }

  function Excluded(xs: seq<Exclusion>): nat {
    if xs == [] then 0 else Excluded(xs[..|xs| - 1]) + xs[|xs| - 1].count
  }

  function Refusal(chain: ChainKey): Exclusion
    requires !chain.Known?
  {
    Exclusion(if chain.Unknown? then "unknown_chain_identity" else chain.reason, 1)
  }

  /** One record for each entity whose chain is not known, in input order. */
  function Refusals(es: seq<Entity>): seq<Exclusion> {
    if es == [] then []
    else
      var before, chain := Refusals(es[..|es| - 1]), es[|es| - 1].chain;
      if chain.Known? then before else before + [Refusal(chain)]
  }

  lemma {:induction false} RefusalsCount(es: seq<Entity>)
    ensures Excluded(Refusals(es)) == Keyless(es)
  {
    if es != [] {
      RefusalsCount(es[..|es| - 1]);
      if !es[|es| - 1].chain.Known? { ExcludedMore(Refusals(es[..|es| - 1]), Refusal(es[|es| - 1].chain)); }
    }
  }

  lemma RefusalsMore(es: seq<Entity>, e: Entity)
    ensures Refusals(es + [e]) == if e.chain.Known? then Refusals(es) else Refusals(es) + [Refusal(e.chain)]
  {
    assert (es + [e])[..|es|] == es;
  }

  /** Records with this reason. */
  function RecordsFor(xs: seq<Exclusion>, reason: string): nat {
    if xs == [] then 0 else RecordsFor(xs[..|xs| - 1], reason) + if xs[|xs| - 1].reason == reason then 1 else 0
  }

  /** Entities that have no known chain for this reason. */
  function KeylessFor(es: seq<Entity>, reason: string): nat {
    if es == [] then 0
    else
      var chain := es[|es| - 1].chain;
      var here := chain == Malformed(reason) || (chain == Unknown && reason == "unknown_chain_identity");
      KeylessFor(es[..|es| - 1], reason) + if here then 1 else 0
  }

  /** Each reason is recorded once for each entity that it applies to. */
  lemma {:induction false} RefusalsMean(es: seq<Entity>, reason: string)
    ensures RecordsFor(Refusals(es), reason) == KeylessFor(es, reason)
  {
    if es != [] {
      var front, chain := es[..|es| - 1], es[|es| - 1].chain;
      RefusalsMean(front, reason);
      if !chain.Known? { assert (Refusals(front) + [Refusal(chain)])[..|Refusals(front)|] == Refusals(front); }
    }
  }

  /** What is added to `before` is all about other chains. */
  ghost predicate OthersAdded(before: seq<Exclusion>, after: seq<Exclusion>) {
    before <= after && forall i :: |before| <= i < |after| ==> after[i].reason == "incompatible_chain"
  }

  lemma ExcludedMore(xs: seq<Exclusion>, x: Exclusion)
    ensures Excluded(xs + [x]) == Excluded(xs) + x.count
  {
    assert (xs + [x])[..|xs|] == xs;
  }

  /** Chain `w` occurs and no chain is larger; of the largest it occurs first. */
  ghost predicate Leads(es: seq<Entity>, size: string -> nat, w: string) {
    && Members(es, w) != []
    && forall k :: Members(es, k) != [] ==> size(k) < size(w) || (size(k) == size(w) && First(es, w) <= First(es, k))
  }

  lemma LeaderIsUnique(es: seq<Entity>, size: string -> nat, v: string, w: string)
    requires Leads(es, size, v) && Leads(es, size, w)
    ensures v == w
  {
    FirstIsFirst(es, v);
    FirstIsFirst(es, w);
  }

  // ---------------------------------------------------------------- selection

  /** The `max_by` over the chains met. */
  method PickLeader(sizes: map<string, nat>, first: map<string, nat>) returns (w: Option<string>)
    requires sizes.Keys == first.Keys
    ensures w.None? <==> sizes.Keys == {}
    ensures w.Some? ==> w.value in sizes
    ensures w.Some? ==> forall k :: k in sizes ==>
      sizes[k] < sizes[w.value] || (sizes[k] == sizes[w.value] && first[w.value] <= first[k])
  {
    w := None;
    var rest := sizes.Keys;
    while rest != {}
      invariant rest <= sizes.Keys && (w.None? <==> rest == sizes.Keys)
      invariant w.Some? ==> w.value in sizes
      invariant w.Some? ==> forall k :: k in sizes && k !in rest ==>
        sizes[k] < sizes[w.value] || (sizes[k] == sizes[w.value] && first[w.value] <= first[k])
      decreases |rest|
    {
      var k :| k in rest;
      rest := rest - {k};
      if w.None? || sizes[w.value] < sizes[k] || (sizes[w.value] == sizes[k] && first[k] <= first[w.value]) {
        w := Some(k);
      }
    }
  }

  /** What the maps hold after `i` candidates. */
  ghost predicate Indexed<T>(es: seq<Entity>, groups: map<string, T>, first: map<string, nat>) {
    && groups.Keys == first.Keys
    && (forall k :: k in groups <==> Members(es, k) != [])
    && (forall k :: k in first ==> first[k] == First(es, k))
  }

  lemma IndexedStep<T>(es: seq<Entity>, e: Entity, groups: map<string, T>, first: map<string, nat>, v: T)
    requires Indexed(es, groups, first)
    ensures e.chain.Known? ==>
      Indexed(es + [e], groups[e.chain.key := v], if e.chain.key in first then first else first[e.chain.key := |es|])
    ensures !e.chain.Known? ==> Indexed(es + [e], groups, first)
  {
    assert (es + [e])[..|es|] == es;
    forall k ensures First(es, k) <= |es| && (First(es, k) < |es| <==> Members(es, k) != []) {
      FirstIsFirst(es, k);
    }
  }

  ghost function MemberCount(es: seq<Entity>): string -> nat {
    (k: string) => |Members(es, k)|
  }

  /** Distinct ids within one chain, the size used by the scored form. */
  function IdsOf(es: seq<Entity>, key: string): set<string> {
    if es == [] then {}
    else IdsOf(es[..|es| - 1], key) + if es[|es| - 1].chain == Known(key) then {es[|es| - 1].id} else {}
  }

  ghost function IdCount(es: seq<Entity>): string -> nat {
    (k: string) => |IdsOf(es, k)|
  }

  /** One candidate more, in every count at once. */
  lemma OneMore(es: seq<Entity>, e: Entity, key: string)
    ensures Members(es + [e], key) == Members(es, key) + if e.chain == Known(key) then [e] else []
    ensures IdsOf(es + [e], key) == IdsOf(es, key) + if e.chain == Known(key) then {e.id} else {}
    ensures Keyless(es + [e]) == Keyless(es) + if e.chain.Known? then 0 else 1
    ensures First(es + [e], key) ==
      if First(es, key) < |es| || e.chain == Known(key) then First(es, key) else |es| + 1
  {
    assert (es + [e])[..|es|] == es;
  }

  ghost predicate HoldsIds(es: seq<Entity>, groups: map<string, set<string>>) {
    forall k :: k in groups ==> groups[k] == IdsOf(es, k)
  }

  lemma {:induction false} NoIds(es: seq<Entity>, key: string)
    requires Members(es, key) == []
    ensures IdsOf(es, key) == {}
  {
    if es != [] { NoIds(es[..|es| - 1], key); }
  }

  lemma HoldsIdsStep(es: seq<Entity>, e: Entity, groups: map<string, set<string>>)
    requires HoldsIds(es, groups) && forall k :: k in groups <==> Members(es, k) != []
    ensures !e.chain.Known? ==> HoldsIds(es + [e], groups)
    ensures e.chain.Known? ==> HoldsIds(es + [e], groups[e.chain.key := Grown(groups, e)])
  {
    forall k ensures IdsOf(es + [e], k) == IdsOf(es, k) + if e.chain == Known(k) then {e.id} else {} {
      OneMore(es, e, k);
    }
    if e.chain.Known? && e.chain.key !in groups { NoIds(es, e.chain.key); }
  }

  function Grown(groups: map<string, set<string>>, e: Entity): set<string>
    requires e.chain.Known?
  {
    (if e.chain.key in groups then groups[e.chain.key] else {}) + {e.id}
  }

  /** The plain form keeps the leading chain whole and in input order, and what
      it keeps and what it reports as excluded add up to the input. */
  method SelectEntities(es: seq<Entity>)
    returns (selected: seq<Entity>, excluded: seq<Exclusion>, ghost winner: Option<string>)
    ensures winner.None? ==> selected == [] && forall k :: Members(es, k) == []
    ensures winner.Some? ==> Leads(es, MemberCount(es), winner.value) && selected == Members(es, winner.value)
    ensures |selected| + Excluded(excluded) == |es| && OthersAdded(Refusals(es), excluded)
  {
    var groups: map<string, seq<Entity>>, first: map<string, nat>;
    groups, first, excluded := GroupEntities(es);
    RefusalsCount(es);
    var sizes := map k | k in groups :: |groups[k]|;
    var w := PickLeader(sizes, first);
    winner := w;
    if w.None? {
      WithinNone(es);
      WithinAll(es, {});
      return [], excluded, None;
    }
    selected := groups[w.value];
    WithinAll(es, groups.Keys);
    excluded := ReportOthers(es, groups, w.value, excluded);
  }

  ghost predicate HoldsMembers(es: seq<Entity>, groups: map<string, seq<Entity>>) {
    forall k :: k in groups ==> groups[k] == Members(es, k)
  }

  method GroupEntities(es: seq<Entity>)
    returns (groups: map<string, seq<Entity>>, first: map<string, nat>, excluded: seq<Exclusion>)
    ensures Indexed(es, groups, first) && HoldsMembers(es, groups) && excluded == Refusals(es)
  {
    groups, first, excluded := map[], map[], [];
    assert es[..0] == [];
    for i := 0 to |es|
      invariant Indexed(es[..i], groups, first) && HoldsMembers(es[..i], groups) && excluded == Refusals(es[..i])
    {
      assert es[..i + 1] == es[..i] + [es[i]];
      groups, first, excluded := NoteMember(es[..i], i, es[i], groups, first, excluded);
    }
    assert es[..|es|] == es;
  }

  lemma HoldsMembersStep(es: seq<Entity>, e: Entity, groups: map<string, seq<Entity>>)
    requires HoldsMembers(es, groups) && forall k :: k in groups <==> Members(es, k) != []
    ensures !e.chain.Known? ==> HoldsMembers(es + [e], groups)
    ensures e.chain.Known? ==> HoldsMembers(es + [e], groups[e.chain.key := Joined(groups, e)])
  {
    forall k ensures Members(es + [e], k) == Members(es, k) + if e.chain == Known(k) then [e] else [] {
      OneMore(es, e, k);
    }
  }

  function Joined(groups: map<string, seq<Entity>>, e: Entity): seq<Entity>
    requires e.chain.Known?
  {
    (if e.chain.key in groups then groups[e.chain.key] else []) + [e]
  }

  /** One round of the grouping loop. */
  method NoteMember(ghost es: seq<Entity>, i: nat, e: Entity, groups0: map<string, seq<Entity>>,
                    first0: map<string, nat>, excluded0: seq<Exclusion>)
    returns (groups: map<string, seq<Entity>>, first: map<string, nat>, excluded: seq<Exclusion>)
    requires i == |es| && Indexed(es, groups0, first0) && HoldsMembers(es, groups0) && excluded0 == Refusals(es)
    ensures Indexed(es + [e], groups, first) && HoldsMembers(es + [e], groups) && excluded == Refusals(es + [e])
  {
    groups, first, excluded := groups0, first0, excluded0;
    OneMore(es, e, "");
    RefusalsMore(es, e);
    HoldsMembersStep(es, e, groups);
    if e.chain.Known? {
      var key, joined := e.chain.key, Joined(groups, e);
      IndexedStep(es, e, groups, first, joined);
      first := if key in first then first else first[key := i];
      groups := groups[key := joined];
    } else {
      IndexedStep(es, e, groups, first, []);
      excluded := excluded + [Refusal(e.chain)];
    }
  }

  method ReportOthers(es: seq<Entity>, groups: map<string, seq<Entity>>, winner: string, before: seq<Exclusion>)
    returns (excluded: seq<Exclusion>)
    requires winner in groups && forall k :: k in groups ==> groups[k] == Members(es, k)
    requires Excluded(before) == Keyless(es) && Within(es, groups.Keys) + Keyless(es) == |es|
    ensures |groups[winner]| + Excluded(excluded) == |es| && OthersAdded(before, excluded)
  {
    excluded := before;
    var rest := groups.Keys - {winner};
    ghost var told := {winner};
    WithinNone(es);
    WithinOneMore(es, {}, winner);
    assert {} + {winner} == told;
    while rest != {}
      invariant told <= groups.Keys && rest == groups.Keys - told
      invariant |groups[winner]| + Excluded(excluded) == Keyless(es) + Within(es, told) && OthersAdded(before, excluded)
      decreases |rest|
    {
      var k :| k in rest;
      excluded := ReportOne(es, told, k, |groups[k]|, excluded);
      rest, told := rest - {k}, told + {k};
    }
    assert told == groups.Keys;
  }

  method ReportOne(ghost es: seq<Entity>, ghost told: set<string>, ghost k: string, size: nat, before: seq<Exclusion>)
    returns (excluded: seq<Exclusion>)
    requires k !in told && size == |Members(es, k)|
    ensures Excluded(excluded) == Excluded(before) + Within(es, told + {k}) - Within(es, told)
    ensures excluded == before + [Exclusion("incompatible_chain", size)]
  {
    WithinOneMore(es, told, k);
    ExcludedMore(before, Exclusion("incompatible_chain", size));
    excluded := before + [Exclusion("incompatible_chain", size)];
  }

  // ------------------------------------------------------------ the scored form

  type Scored = (Entity, real)

  function Entities(xs: seq<Scored>): (es: seq<Entity>)
    ensures |es| == |xs| && forall i :: 0 <= i < |xs| ==> es[i] == xs[i].0
  {
    seq(|xs|, i requires 0 <= i < |xs| => xs[i].0)
  }

  /** The scored entities of one chain, in input order. */
  function ScoredMembers(xs: seq<Scored>, key: string): seq<Scored> {
    if xs == [] then []
    else
      ScoredMembers(xs[..|xs| - 1], key) + if xs[|xs| - 1].0.chain == Known(key) then [xs[|xs| - 1]] else []
  }

  lemma {:induction false} ScoredMembersAreMembers(xs: seq<Scored>, key: string)
    ensures Entities(ScoredMembers(xs, key)) == Members(Entities(xs), key)
  {
    if xs != [] {
      ScoredMembersAreMembers(xs[..|xs| - 1], key);
      assert Entities(xs)[..|xs| - 1] == Entities(xs[..|xs| - 1]);
    }
  }

  ghost predicate Descending(xs: seq<Scored>) {
    forall i, j :: 0 <= i < j < |xs| ==> xs[j].1 <= xs[i].1
  }

  /** The entries with one score, in order. */
  function AtScore(xs: seq<Scored>, v: real): seq<Scored> {
    if xs == [] then [] else (if xs[0].1 == v then [xs[0]] else []) + AtScore(xs[1..], v)
  }

  /** A stable sort by descending score. */
  ghost predicate StableSort(xs: seq<Scored>, sorted: seq<Scored>) {
    Descending(sorted) && forall v :: AtScore(sorted, v) == AtScore(xs, v)
  }

  lemma {:induction false} AtScoreNone(xs: seq<Scored>, v: real)
    requires forall i :: 0 <= i < |xs| ==> xs[i].1 != v
    ensures AtScore(xs, v) == []
  {
    if xs != [] { AtScoreNone(xs[1..], v); }
  }

  /** Descending order and the order within each score leave no choice. */
  lemma StableSortIsUnique(xs: seq<Scored>, a: seq<Scored>, b: seq<Scored>)
    requires StableSort(xs, a) && StableSort(xs, b)
    ensures a == b
  {
    forall v ensures AtScore(a, v) == AtScore(b, v) {
      assert AtScore(a, v) == AtScore(xs, v);
    }
    SameScoresSameOrder(a, b);
  }

  lemma {:induction false} SameScoresSameOrder(a: seq<Scored>, b: seq<Scored>)
    requires Descending(a) && Descending(b) && forall v :: AtScore(a, v) == AtScore(b, v)
    ensures a == b
  {
    if a != [] && b != [] {
      SameHead(a, b);
      forall v ensures AtScore(a[1..], v) == AtScore(b[1..], v) {
        SameTail(a, b, v);
      }
      SameScoresSameOrder(a[1..], b[1..]);
      assert a == [a[0]] + a[1..] && b == [b[0]] + b[1..];
    } else if a != [] {
      assert AtScore(a, a[0].1) != AtScore(b, a[0].1);
    } else if b != [] {
      assert AtScore(a, b[0].1) != AtScore(b, b[0].1);
    }
  }

  lemma SameTail(a: seq<Scored>, b: seq<Scored>, v: real)
    requires a != [] && b != [] && a[0] == b[0] && AtScore(a, v) == AtScore(b, v)
    ensures AtScore(a[1..], v) == AtScore(b[1..], v)
  {
    var head := if a[0].1 == v then [a[0]] else [];
    CancelHead(head, AtScore(a[1..], v), AtScore(b[1..], v));
  }

  lemma CancelHead<T>(head: seq<T>, a: seq<T>, b: seq<T>)
    requires head + a == head + b
    ensures a == b
  {
    assert a == (head + a)[|head|..] && b == (head + b)[|head|..];
  }

  lemma SameHead(a: seq<Scored>, b: seq<Scored>)
    requires a != [] && b != [] && Descending(a) && Descending(b)
    requires AtScore(a, a[0].1) == AtScore(b, a[0].1) && AtScore(a, b[0].1) == AtScore(b, b[0].1)
    ensures a[0] == b[0]
  {
    if a[0].1 < b[0].1 {
      AtScoreNone(a, b[0].1);
    } else if b[0].1 < a[0].1 {
      AtScoreNone(b, a[0].1);
    } else {
      assert AtScore(a, a[0].1)[0] == a[0] && AtScore(b, b[0].1)[0] == b[0];
    }
  }

  /** The library's stable sort, as insertion from the back. */
  function SortDescending(xs: seq<Scored>): seq<Scored> {
    if xs == [] then [] else InsertFirst(xs[0], SortDescending(xs[1..]))
  }

  /** Puts `x` before every entry that does not score higher. */
  function InsertFirst(x: Scored, xs: seq<Scored>): seq<Scored> {
    if xs == [] || xs[0].1 <= x.1 then [x] + xs else [xs[0]] + InsertFirst(x, xs[1..])
  }

  lemma {:induction false} InsertFirstKeepsScores(x: Scored, xs: seq<Scored>, v: real)
    requires Descending(xs)
    ensures AtScore(InsertFirst(x, xs), v) == (if x.1 == v then [x] else []) + AtScore(xs, v)
  {
    if xs == [] || xs[0].1 <= x.1 {
      AtScoreHead(x, xs, v);
    } else {
      AtScoreHead(xs[0], InsertFirst(x, xs[1..]), v);
      InsertFirstKeepsScores(x, xs[1..], v);
      SwapHeads(if xs[0].1 == v then [xs[0]] else [], if x.1 == v then [x] else [], AtScore(xs[1..], v));
    }
  }

  lemma SwapHeads<T>(a: seq<T>, b: seq<T>, rest: seq<T>)
    requires a == [] || b == []
    ensures a + (b + rest) == b + (a + rest)
  {}

  lemma AtScoreHead(x: Scored, xs: seq<Scored>, v: real)
    ensures AtScore([x] + xs, v) == (if x.1 == v then [x] else []) + AtScore(xs, v)
  {
    assert ([x] + xs)[1..] == xs;
  }

  lemma {:induction false} InsertFirstPermutes(x: Scored, xs: seq<Scored>)
    ensures multiset(InsertFirst(x, xs)) == multiset(xs + [x])
  {
    if !(xs == [] || xs[0].1 <= x.1) {
      InsertFirstPermutes(x, xs[1..]);
      assert xs + [x] == [xs[0]] + (xs[1..] + [x]);
    }
  }

  lemma {:induction false} InsertFirstSorts(x: Scored, xs: seq<Scored>)
    requires Descending(xs)
    ensures Descending(InsertFirst(x, xs))
  {
    if !(xs == [] || xs[0].1 <= x.1) {
      var tail := InsertFirst(x, xs[1..]);
      InsertFirstSorts(x, xs[1..]);
      InsertFirstPermutes(x, xs[1..]);
      forall j | 0 <= j < |tail| ensures tail[j].1 <= xs[0].1 {
        assert tail[j] in multiset(tail);
        assert tail[j] in xs[1..] + [x];
      }
    }
  }

  lemma {:induction false} SortIsStable(xs: seq<Scored>)
    ensures StableSort(xs, SortDescending(xs)) && multiset(SortDescending(xs)) == multiset(xs)
  {
    if xs != [] {
      SortIsStable(xs[1..]);
      InsertFirstSorts(xs[0], SortDescending(xs[1..]));
      InsertFirstPermutes(xs[0], SortDescending(xs[1..]));
      forall v ensures AtScore(SortDescending(xs), v) == AtScore(xs, v) {
        InsertFirstKeepsScores(xs[0], SortDescending(xs[1..]), v);
      }
      assert xs == [xs[0]] + xs[1..];
    }
  }

  /** The groups, first positions and exclusions of some entities. */
  ghost predicate GroupedByIds(es: seq<Entity>, groups: map<string, set<string>>, first: map<string, nat>,
                               excluded: seq<Exclusion>) {
    Indexed(es, groups, first) && HoldsIds(es, groups) && excluded == Refusals(es)
  }

  lemma OneMoreEntity(es: seq<Entity>, i: nat)
    requires i < |es|
    ensures es[..i + 1] == es[..i] + [es[i]]
  {}

  method GroupIds(xs: seq<Scored>)
    returns (groups: map<string, set<string>>, first: map<string, nat>, keys: seq<Option<string>>,
             excluded: seq<Exclusion>)
    ensures Indexed(Entities(xs), groups, first)
    ensures forall k :: k in groups ==> groups[k] == IdsOf(Entities(xs), k)
    ensures |keys| == |xs| && forall i :: 0 <= i < |xs| ==> keys[i] == KeyOf(xs[i].0)
    ensures excluded == Refusals(Entities(xs))
  {
    groups, first, keys, excluded := map[], map[], [], [];
    ghost var es := Entities(xs);
    assert es[..0] == [];
    for i: nat := 0 to |xs|
      invariant GroupedByIds(es[..i], groups, first, excluded)
      invariant |keys| == i && forall j :: 0 <= j < i ==> keys[j] == KeyOf(xs[j].0)
    {
      OneMoreEntity(es, i);
      keys := keys + [KeyOf(xs[i].0)];
      groups, first, excluded := NoteIds(es[..i], i, xs[i].0, groups, first, excluded);
    }
    assert es[..|xs|] == es;
  }

  /** One round of the grouping loop. */
  method NoteIds(ghost es: seq<Entity>, i: nat, e: Entity, groups0: map<string, set<string>>, first0: map<string, nat>,
                 excluded0: seq<Exclusion>)
    returns (groups: map<string, set<string>>, first: map<string, nat>, excluded: seq<Exclusion>)
    requires i == |es| && GroupedByIds(es, groups0, first0, excluded0)
    ensures GroupedByIds(es + [e], groups, first, excluded)
  {
    groups, first, excluded := groups0, first0, excluded0;
    OneMore(es, e, "");
    RefusalsMore(es, e);
    HoldsIdsStep(es, e, groups);
    if e.chain.Known? {
      var key, grown := e.chain.key, Grown(groups, e);
      IndexedStep(es, e, groups, first, grown);
      first := if key in first then first else first[key := i];
      groups := groups[key := grown];
    } else {
      IndexedStep(es, e, groups, first, {});
      excluded := excluded + [Refusal(e.chain)];
    }
  }

  function KeyOf(e: Entity): Option<string> {
    if e.chain.Known? then Some(e.chain.key) else None
  }

  /** The scored form keeps the chain with the most distinct ids, best score first
      and equal scores in input order. */
  method SelectScored(xs: seq<Scored>)
    returns (selected: seq<Scored>, excluded: seq<Exclusion>, ghost winner: Option<string>)
    ensures winner.None? ==> selected == [] && forall k :: Members(Entities(xs), k) == []
    ensures winner.Some? ==> Leads(Entities(xs), IdCount(Entities(xs)), winner.value)
    ensures winner.Some? ==> StableSort(ScoredMembers(xs, winner.value), selected)
    ensures winner.Some? ==> multiset(selected) == multiset(ScoredMembers(xs, winner.value))
    ensures |selected| + Excluded(excluded) == |xs| && OthersAdded(Refusals(Entities(xs)), excluded)
  {
    var groups, first, keys, before := GroupIds(xs);
    RefusalsCount(Entities(xs));
    var sizes := map k | k in groups :: |groups[k]|;
    var w := PickLeader(sizes, first);
    winner := w;
    if w.None? {
      WithinNone(Entities(xs));
      WithinAll(Entities(xs), {});
      return [], before, None;
    }
    var kept: seq<Scored>;
    kept, excluded := KeepChain(xs, keys, w.value, before);
    selected := SortDescending(kept);
    SortIsStable(kept);
    assert |multiset(selected)| == |multiset(kept)|;
  }

  /** The kept entries, the excluded ones and those without a chain add up so far. */
  ghost predicate KeptTo(xs: seq<Scored>, winner: string, before: seq<Exclusion>, i: nat, kept: seq<Scored>,
                         excluded: seq<Exclusion>) {
    && i <= |xs| && kept == ScoredMembers(xs[..i], winner) && OthersAdded(before, excluded)
    && |kept| + Excluded(excluded) + Keyless(Entities(xs)[..i]) == i + Excluded(before)
  }

  lemma KeptMore(xs: seq<Scored>, winner: string, before: seq<Exclusion>, i: nat, kept: seq<Scored>,
                 excluded: seq<Exclusion>)
    requires i < |xs| && KeptTo(xs, winner, before, i, kept, excluded)
    ensures var key := KeyOf(xs[i].0);
      KeptTo(xs, winner, before, i + 1, if key == Some(winner) then kept + [xs[i]] else kept,
             if key.Some? && key != Some(winner) then excluded + [Exclusion("incompatible_chain", 1)] else excluded)
  {
    var es := Entities(xs);
    assert xs[..i + 1][..i] == xs[..i] && es[..i + 1][..i] == es[..i];
    ExcludedMore(excluded, Exclusion("incompatible_chain", 1));
  }

  method KeepChain(xs: seq<Scored>, keys: seq<Option<string>>, winner: string, before: seq<Exclusion>)
    returns (kept: seq<Scored>, excluded: seq<Exclusion>)
    requires |keys| == |xs| && forall i :: 0 <= i < |xs| ==> keys[i] == KeyOf(xs[i].0)
    requires Excluded(before) == Keyless(Entities(xs))
    ensures kept == ScoredMembers(xs, winner) && |kept| + Excluded(excluded) == |xs| && OthersAdded(before, excluded)
  {
    kept, excluded := [], before;
    for i: nat := 0 to |xs|
      invariant KeptTo(xs, winner, before, i, kept, excluded)
    {
      KeptMore(xs, winner, before, i, kept, excluded);
      if keys[i] == Some(winner) {
        kept := kept + [xs[i]];
      } else if keys[i].Some? {
        excluded := excluded + [Exclusion("incompatible_chain", 1)];
      }
    }
    assert xs[..|xs|] == xs && Entities(xs)[..|xs|] == Entities(xs);
  }

  // ------------------------------------------------------- the two forms agree

  /** No id occurs twice in one chain. */
  ghost predicate DistinctWithinChains(es: seq<Entity>) {
    forall i, j :: 0 <= i < j < |es| && es[i].chain.Known? && es[i].chain == es[j].chain ==> es[i].id != es[j].id
  }

  lemma {:induction false} IdsOccur(es: seq<Entity>, key: string, id: string)
    requires id in IdsOf(es, key)
    ensures exists i :: 0 <= i < |es| && es[i].id == id && es[i].chain == Known(key)
  {
    var front := es[..|es| - 1];
    if id in IdsOf(front, key) {
      IdsOccur(front, key, id);
      var i :| 0 <= i < |front| && front[i].id == id && front[i].chain == Known(key);
      assert es[i].id == id;
    }
  }

  lemma {:induction false} DistinctIdsCount(es: seq<Entity>, key: string)
    requires DistinctWithinChains(es)
    ensures |IdsOf(es, key)| == |Members(es, key)|
  {
    if es != [] {
      var front, last := es[..|es| - 1], es[|es| - 1];
      DistinctIdsCount(front, key);
      if last.chain == Known(key) && last.id in IdsOf(front, key) { IdsOccur(front, key, last.id); }
    }
  }

  /** Chain `v` has the most distinct ids, ties to the earliest first occurrence. */
  ghost predicate Unbeaten(es: seq<Entity>, v: string) {
    forall k :: Members(es, k) != [] ==>
      |IdsOf(es, k)| < |IdsOf(es, v)| || (|IdsOf(es, k)| == |IdsOf(es, v)| && First(es, v) <= First(es, k))
  }

  /** The two forms settle on the same chain, and return the same entities up to
      order, exactly when the largest chain also has the most distinct ids. */
  lemma FormsAgreeExactlyWhen(xs: seq<Scored>, v: string, w: string, sorted: seq<Scored>)
    requires Leads(Entities(xs), MemberCount(Entities(xs)), v) && Leads(Entities(xs), IdCount(Entities(xs)), w)
    requires multiset(sorted) == multiset(ScoredMembers(xs, w))
    ensures v == w <==> Unbeaten(Entities(xs), v)
    ensures multiset(Entities(sorted)) == multiset(Members(Entities(xs), v)) <==> Unbeaten(Entities(xs), v)
  {
    var es := Entities(xs);
    LeaderExactlyWhen(es, v, w);
    ScoredMembersAreMembers(xs, w);
    EntitiesOfPermutation(sorted, ScoredMembers(xs, w));
    if multiset(Members(es, w)) == multiset(Members(es, v)) { SameMembersSameChain(es, v, w); }
  }

  lemma LeaderExactlyWhen(es: seq<Entity>, v: string, w: string)
    requires Members(es, v) != [] && Leads(es, IdCount(es), w)
    ensures v == w <==> Unbeaten(es, v)
  {
    if Unbeaten(es, v) {
      assert Leads(es, IdCount(es), v);
      LeaderIsUnique(es, IdCount(es), v, w);
    }
  }

  lemma {:induction false} MembersHaveChain(es: seq<Entity>, key: string)
    ensures forall e :: e in Members(es, key) ==> e.chain == Known(key)
  {
    if es != [] { MembersHaveChain(es[..|es| - 1], key); }
  }

  lemma SameMembersSameChain(es: seq<Entity>, v: string, w: string)
    requires Members(es, v) != [] && multiset(Members(es, w)) == multiset(Members(es, v))
    ensures v == w
  {
    MembersHaveChain(es, v);
    MembersHaveChain(es, w);
    var e := Members(es, v)[0];
    assert e in multiset(Members(es, v));
    assert e in Members(es, w);
  }

  /** With ids distinct within each chain the largest chain has the most ids, so the
      forms agree. */
  lemma FormsAgree(xs: seq<Scored>, v: string, w: string, sorted: seq<Scored>)
    requires DistinctWithinChains(Entities(xs))
    requires Leads(Entities(xs), MemberCount(Entities(xs)), v) && Leads(Entities(xs), IdCount(Entities(xs)), w)
    requires multiset(sorted) == multiset(ScoredMembers(xs, w))
    ensures v == w && multiset(Entities(sorted)) == multiset(Members(Entities(xs), v))
  {
    var es := Entities(xs);
    forall k ensures |IdsOf(es, k)| == |Members(es, k)| {
      DistinctIdsCount(es, k);
    }
    assert Unbeaten(es, v) by {
      forall k | Members(es, k) != []
        ensures |Members(es, k)| < |Members(es, v)| ||
          (|Members(es, k)| == |Members(es, v)| && First(es, v) <= First(es, k))
      {
        assert MemberCount(es)(k) == |Members(es, k)| && MemberCount(es)(v) == |Members(es, v)|;
      }
    }
    FormsAgreeExactlyWhen(xs, v, w, sorted);
  }

  lemma {:induction false} EntitiesOfPermutation(a: seq<Scored>, b: seq<Scored>)
    requires multiset(a) == multiset(b)
    ensures multiset(Entities(a)) == multiset(Entities(b))
    decreases |a|
  {
    if a == [] {
      assert |multiset(b)| == 0;
    } else {
      assert a[0] in multiset(a);
      var a' := TakeOut(a, a[0]);
      var b' := TakeOut(b, a[0]);
      EntitiesOfPermutation(a', b');
    }
  }

  lemma TakeOut(b: seq<Scored>, x: Scored) returns (rest: seq<Scored>)
    requires x in multiset(b)
    ensures multiset(rest) == multiset(b) - multiset{x} && |rest| < |b|
    ensures multiset(Entities(b)) == multiset(Entities(rest)) + multiset{x.0}
  {
    var i :| 0 <= i < |b| && b[i] == x;
    rest := b[..i] + b[i + 1..];
    RemoveAt(b, i);
    RemoveAt(Entities(b), i);
    assert Entities(b)[..i] + Entities(b)[i + 1..] == Entities(rest);
  }

  lemma RemoveAt<T>(b: seq<T>, i: nat)
    requires i < |b|
    ensures multiset(b) == multiset(b[..i] + b[i + 1..]) + multiset{b[i]}
  {
    assert b == b[..i] + [b[i]] + b[i + 1..];
  }

  /** An input on which the forms settle on different chains: an id repeated inside
      the larger chain. */
  lemma RepeatedIdsMayDiverge()
    ensures var es := [Entity("b", Known("y")), Entity("a", Known("x")), Entity("a", Known("x"))];
      Leads(es, MemberCount(es), "x") && Leads(es, IdCount(es), "y")
  {
    var e, f := Entity("b", Known("y")), Entity("a", Known("x"));
    assert "x" != "y";
    Three(e, f, "x", "y");
  }

  lemma ThreeAt(e: Entity, f: Entity, x: string, y: string, k: string)
    requires x != y && e.chain == Known(y) && f.chain == Known(x)
    ensures Members([e, f, f], k) == if k == x then [f, f] else if k == y then [e] else []
    ensures IdsOf([e, f, f], k) == if k == x then {f.id} else if k == y then {e.id} else {}
    ensures First([e, f, f], k) == if k == x then 1 else if k == y then 0 else 3
  {
    TwoAt(e, f, x, y, k);
    OneMore([e, f], f, k);
    assert [e, f] + [f] == [e, f, f];
  }

  lemma TwoAt(e: Entity, f: Entity, x: string, y: string, k: string)
    requires x != y && e.chain == Known(y) && f.chain == Known(x)
    ensures Members([e, f], k) == if k == x then [f] else if k == y then [e] else []
    ensures IdsOf([e, f], k) == if k == x then {f.id} else if k == y then {e.id} else {}
    ensures First([e, f], k) == if k == x then 1 else if k == y then 0 else 2
  {
    OneMore([], e, k);
    OneMore([e], f, k);
    assert [] + [e] == [e] && [e] + [f] == [e, f];
  }

  lemma Three(e: Entity, f: Entity, x: string, y: string)
    requires x != y && e.chain == Known(y) && f.chain == Known(x)
    ensures Leads([e, f, f], MemberCount([e, f, f]), x) && Leads([e, f, f], IdCount([e, f, f]), y)
  {
    var es := [e, f, f];
    assert MemberCount(es)(x) == 2 && IdCount(es)(y) == 1 by {
      ThreeAt(e, f, x, y, x);
      ThreeAt(e, f, x, y, y);
    }
    forall k | Members(es, k) != []
      ensures MemberCount(es)(k) < 2 || k == x
      ensures IdCount(es)(k) == 1 && First(es, y) <= First(es, k)
    {
      ThreeAt(e, f, x, y, k);
      ThreeAt(e, f, x, y, y);
    }
    ThreeAt(e, f, x, y, x);
    ThreeAt(e, f, x, y, y);
  }
}
