/** Greedy, budgeted evidence projection (src/evidence_lanes.rs): the derived lane
    is offered first, then the verbatim lane; an item is taken if none of its
    source groups is taken yet and its tokens still fit. Which items each candidate
    offers, or why it offers none, is an input. */
module EvidenceProjection {
  const MAX_EVIDENCE_TOKENS := 65_536
  const USIZE_MAX := 0xFFFF_FFFF_FFFF_FFFF
  type Usize = n: nat | n <= 0xFFFF_FFFF_FFFF_FFFF

  datatype Lane = Derived | Verbatim
  datatype Item = Item(lane: Lane, entityId: string, groups: seq<string>, tokens: Usize)
  datatype LaneBudget = LaneBudget(lane: Lane, selectedItems: nat, omittedItems: nat, selectedTokens: Usize,
                                   omittedTokens: Usize)

  /** What one candidate brings to a lane. */
  datatype Offer = Refused(reason: string) | Offered(items: seq<Item>)

  function Saturate(n: nat): Usize { if n <= USIZE_MAX then n else USIZE_MAX }

  function SaturatingAdd(a: Usize, b: Usize): Usize { Saturate(a + b) }

  function Order(lane: Lane): nat { if lane == Derived then 0 else 1 }

  // ------------------------------------------------------------ the greedy rule

  function Tokens(items: seq<Item>): nat {
    if items == [] then 0 else Tokens(items[..|items| - 1]) + items[|items| - 1].tokens
  }

  lemma TokensMore(items: seq<Item>, x: Item)
    ensures Tokens(items + [x]) == Tokens(items) + x.tokens
  {
    assert (items + [x])[..|items|] == items;
  }

  /** Two items carry a common source group. */
  ghost predicate Share(a: Item, b: Item) {
    exists g :: g in a.groups && g in b.groups
  }

  ghost predicate Clashes(x: Item, taken: seq<Item>) {
    exists i :: 0 <= i < |taken| && Share(x, taken[i])
  }

  /** A selection that keeps to the budget and takes no source group twice. */
  ghost predicate Feasible(selection: seq<Item>, max: nat) {
    && Tokens(selection) <= max
    && forall i, j :: 0 <= i < j < |selection| ==> !Share(selection[j], selection[i])
  }

  ghost predicate Takes(x: Item, taken: seq<Item>, max: nat) {
    !Clashes(x, taken) && Tokens(taken) + x.tokens <= max
  }

  datatype Split = Split(selected: seq<Item>, omitted: seq<Item>, repeated: seq<Item>)

  /** Where each offered item goes. */
  ghost function Greedy(items: seq<Item>, max: nat): Split {
    if items == [] then Split([], [], [])
    else Place(Greedy(items[..|items| - 1], max), items[|items| - 1], max)
  }

  ghost function Place(s: Split, x: Item, max: nat): Split {
    if Clashes(x, s.selected) then s.(repeated := s.repeated + [x])
    else if Tokens(s.selected) + x.tokens <= max then s.(selected := s.selected + [x])
    else s.(omitted := s.omitted + [x])
  }

  lemma GreedyMore(items: seq<Item>, x: Item, max: nat)
    ensures Greedy(items + [x], max) == Place(Greedy(items, max), x, max)
  {
    assert (items + [x])[..|items|] == items;
  }

  /** The selection is feasible, and it is final: an item left out for budget would
      still overflow it, and one left out as a repetition still shares a group. */
  ghost predicate Sound(s: Split, max: nat) {
    && Feasible(s.selected, max)
    && (forall i :: 0 <= i < |s.omitted| ==> Tokens(s.selected) + s.omitted[i].tokens > max)
    && (forall i :: 0 <= i < |s.repeated| ==> Clashes(s.repeated[i], s.selected))
  }

  lemma {:induction false} GreedyIsSound(items: seq<Item>, max: nat)
    ensures Sound(Greedy(items, max), max)
  {
    if items != [] {
      GreedyIsSound(items[..|items| - 1], max);
      PlaceKeepsSound(Greedy(items[..|items| - 1], max), items[|items| - 1], max);
    }
  }

  lemma PlaceKeepsSound(s: Split, x: Item, max: nat)
    requires Sound(s, max)
    ensures Sound(Place(s, x, max), max)
  {
    if Takes(x, s.selected, max) {
      TakingKeepsSound(s, x, max);
    } else {
      LeavingKeepsSound(s, x, max);
    }
  }

  lemma TakingKeepsSound(s: Split, x: Item, max: nat)
    requires Sound(s, max) && Takes(x, s.selected, max)
    ensures Sound(s.(selected := s.selected + [x]), max)
  {
    TakingKeepsFeasible(s.selected, x, max);
    TokensMore(s.selected, x);
    forall i | 0 <= i < |s.repeated| ensures Clashes(s.repeated[i], s.selected + [x]) {
      ClashPersists(s.repeated[i], s.selected, x);
    }
  }

  lemma LeavingKeepsSound(s: Split, x: Item, max: nat)
    requires Sound(s, max)
    ensures Clashes(x, s.selected) ==> Sound(s.(repeated := s.repeated + [x]), max)
    ensures Tokens(s.selected) + x.tokens > max ==> Sound(s.(omitted := s.omitted + [x]), max)
  {}

  lemma TakingKeepsFeasible(s: seq<Item>, x: Item, max: nat)
    requires Feasible(s, max) && Takes(x, s, max)
    ensures Feasible(s + [x], max)
  {
    TokensMore(s, x);
    forall i, j | 0 <= i < j < |s + [x]| ensures !Share((s + [x])[j], (s + [x])[i]) {
      assert (s + [x])[i] == s[i];
      if j == |s| { assert !Clashes(x, s); }
    }
  }

  lemma ClashPersists(y: Item, taken: seq<Item>, x: Item)
    requires Clashes(y, taken)
    ensures Clashes(y, taken + [x])
  {
    var j :| 0 <= j < |taken| && Share(y, taken[j]);
    assert (taken + [x])[j] == taken[j];
  }

  /** Every offered item ends in exactly one of the three places. */
  lemma {:induction false} GreedyPartitions(items: seq<Item>, max: nat)
    ensures multiset(items) == Whole(Greedy(items, max))
  {
    if items != [] {
      var front, x := items[..|items| - 1], items[|items| - 1];
      GreedyPartitions(front, max);
      PlacePartitions(Greedy(front, max), x, max);
      assert items == front + [x];
    }
  }

  ghost function Whole(s: Split): multiset<Item> {
    multiset(s.selected) + multiset(s.omitted) + multiset(s.repeated)
  }

  lemma PlacePartitions(s: Split, x: Item, max: nat)
    ensures Whole(Place(s, x, max)) == Whole(s) + multiset{x}
  {}

  // -------------------------------------------------- the rule as an optimum

  /** The items a mask marks. */
  function Pick(items: seq<Item>, mask: seq<bool>): seq<Item>
    requires |mask| == |items|
  {
    if items == [] then []
    else
      var n := |items| - 1;
      Pick(items[..n], mask[..n]) + if mask[n] then [items[n]] else []
  }

  ghost function GreedyMask(items: seq<Item>, max: nat): (mask: seq<bool>)
    ensures |mask| == |items|
  {
    if items == [] then []
    else
      var n := |items| - 1;
      GreedyMask(items[..n], max) + [Takes(items[n], Greedy(items[..n], max).selected, max)]
  }

  lemma {:induction false} MaskPicksSelected(items: seq<Item>, max: nat)
    ensures Pick(items, GreedyMask(items, max)) == Greedy(items, max).selected
  {
    if items != [] {
      var n := |items| - 1;
      MaskPicksSelected(items[..n], max);
      assert GreedyMask(items, max)[..n] == GreedyMask(items[..n], max);
    }
  }

  /** Any other feasible selection gives up, at the first item on which the two
      differ, an item the projection keeps: rank order is never traded away. */
  lemma {:induction false} GreedyPrefersHigherRank(items: seq<Item>, max: nat, mask: seq<bool>) returns (k: nat)
    requires |mask| == |items| && Feasible(Pick(items, mask), max) && mask != GreedyMask(items, max)
    ensures k < |items| && mask[..k] == GreedyMask(items, max)[..k] && GreedyMask(items, max)[k] && !mask[k]
  {
    var n, best := |items| - 1, GreedyMask(items, max);
    var front, rest := items[..n], mask[..n];
    FeasiblePrefix(Pick(front, rest), if mask[n] then [items[n]] else [], max);
    if rest != GreedyMask(front, max) {
      k := GreedyPrefersHigherRank(front, max, rest);
      PrefixesAgree(mask, best, rest, GreedyMask(front, max), n, k);
    } else {
      k := n;
      PrefixesAgree(mask, best, rest, rest, n, n);
      MaskPicksSelected(front, max);
      if mask[n] { TakenWhenFeasible(Pick(front, rest), items[n], max); }
    }
  }

  lemma PrefixesAgree(a: seq<bool>, b: seq<bool>, a': seq<bool>, b': seq<bool>, n: nat, k: nat)
    requires |a| == |b| == n + 1 && a' == a[..n] && b == b' + [b[n]] && k <= n && |b'| == n && a'[..k] == b'[..k]
    ensures a[..k] == b[..k] && (k < n ==> a[k] == a'[k] && b[k] == b'[k])
    ensures k == n && a[n] == b[n] ==> a == b
  {
    assert a[..k] == a'[..k] && b[..k] == b'[..k];
    if k == n { assert a == a' + [a[n]] && a'[..n] == a' && b'[..n] == b'; }
  }

  lemma FeasiblePrefix(s: seq<Item>, t: seq<Item>, max: nat)
    requires Feasible(s + t, max) && |t| <= 1
    ensures Feasible(s, max)
  {
    if t == [] {
      assert s + t == s;
    } else {
      assert t == [t[0]];
      TokensMore(s, t[0]);
      assert forall i :: 0 <= i < |s| ==> (s + t)[i] == s[i];
    }
  }

  lemma TakenWhenFeasible(s: seq<Item>, x: Item, max: nat)
    requires Feasible(s + [x], max)
    ensures Takes(x, s, max)
  {
    TokensMore(s, x);
    assert (s + [x])[|s|] == x && forall i :: 0 <= i < |s| ==> (s + [x])[i] == s[i];
  }

  // ------------------------------------------------------------------ the books

  function OfLane(items: seq<Item>, lane: Lane): seq<Item> {
    if items == [] then []
    else
      var front, x := items[..|items| - 1], items[|items| - 1];
      if x.lane == lane then OfLane(front, lane) + [x] else OfLane(front, lane)
  }

  lemma OfLaneMore(items: seq<Item>, x: Item, lane: Lane)
    ensures OfLane(items + [x], lane) == if x.lane == lane then OfLane(items, lane) + [x] else OfLane(items, lane)
  {
    assert (items + [x])[..|items|] == items;
  }

  /** Items and tokens of the two lanes add up to the whole. */
  lemma {:induction false} LanesAddUp(items: seq<Item>)
    ensures |items| == |OfLane(items, Derived)| + |OfLane(items, Verbatim)|
    ensures Tokens(items) == Tokens(OfLane(items, Derived)) + Tokens(OfLane(items, Verbatim))
  {
    if items != [] {
      var front, x := items[..|items| - 1], items[|items| - 1];
      LanesAddUp(front);
      TokensMore(OfLane(front, x.lane), x);
    }
  }

  /** The ledger line of one lane. */
  function Line(lane: Lane, selected: seq<Item>, omitted: seq<Item>): LaneBudget {
    var s, o := OfLane(selected, lane), OfLane(omitted, lane);
    LaneBudget(lane, |s|, |o|, Saturate(Tokens(s)), Saturate(Tokens(o)))
  }

  predicate Used(lane: Lane, selected: seq<Item>, omitted: seq<Item>) {
    OfLane(selected, lane) != [] || OfLane(omitted, lane) != []
  }

  /** The whole ledger: a line for each lane an item was accounted to, in lane order. */
  function Books(selected: seq<Item>, omitted: seq<Item>): seq<LaneBudget> {
    (if Used(Derived, selected, omitted) then [Line(Derived, selected, omitted)] else []) +
    (if Used(Verbatim, selected, omitted) then [Line(Verbatim, selected, omitted)] else [])
  }

  function NewLine(lane: Lane): LaneBudget { LaneBudget(lane, 0, 0, 0, 0) }

  /** A push followed by a stable sort on lane order. */
  function Inserted(lines: seq<LaneBudget>, x: LaneBudget): seq<LaneBudget> {
    if lines == [] then [x]
    else if Order(lines[0].lane) <= Order(x.lane) then [lines[0]] + Inserted(lines[1..], x)
    else [x] + lines
  }

  function Position(lines: seq<LaneBudget>, lane: Lane): (i: nat)
    ensures i <= |lines| && (i < |lines| ==> lines[i].lane == lane)
    ensures forall j :: 0 <= j < i ==> lines[j].lane != lane
  {
    if lines == [] || lines[0].lane == lane then 0 else 1 + Position(lines[1..], lane)
  }

  /** `lane_mut`: the ledger with a line for the lane, and where that line is. */
  function Opened(lines: seq<LaneBudget>, lane: Lane): seq<LaneBudget> {
    if Position(lines, lane) < |lines| then lines else Inserted(lines, NewLine(lane))
  }

  /** The ledger is sorted, has one line a lane, and every line is right. */
  lemma LedgerUpdate(lines: seq<LaneBudget>, lane: Lane, x: LaneBudget, s: seq<Item>, o: seq<Item>, s': seq<Item>,
                     o': seq<Item>)
    requires lines == Books(s, o) && x == Line(lane, s', o') && Used(lane, s', o')
    requires forall other: Lane :: other != lane ==> Line(other, s', o') == Line(other, s, o)
    requires forall other: Lane :: other != lane ==> (Used(other, s', o') <==> Used(other, s, o))
    ensures var ledger := Opened(lines, lane);
      var i := Position(ledger, lane);
      && i < |ledger| && ledger[i] == (if Used(lane, s, o) then Line(lane, s, o) else NewLine(lane))
      && ledger[i := x] == Books(s', o')
  {
    LedgerShapes(Used(Derived, s, o), Used(Verbatim, s, o), Line(Derived, s, o), Line(Verbatim, s, o), lane, x);
  }

  function TwoLines(d: bool, v: bool, dl: LaneBudget, vl: LaneBudget): seq<LaneBudget> {
    (if d then [dl] else []) + (if v then [vl] else [])
  }

  lemma LedgerShapes(d: bool, v: bool, dl: LaneBudget, vl: LaneBudget, lane: Lane, x: LaneBudget)
    requires dl.lane == Derived && vl.lane == Verbatim && x.lane == lane
    ensures var lines := TwoLines(d, v, dl, vl);
      var ledger := Opened(lines, lane);
      var i := Position(ledger, lane);
      && i < |ledger|
      && ledger[i] == (if lane == Derived && d then dl else if lane == Verbatim && v then vl else NewLine(lane))
      && ledger[i := x] == (if lane == Derived then TwoLines(true, v, x, vl) else TwoLines(d, true, dl, x))
  {
    var n := NewLine(lane);
    OneLine(dl);
    OneLine(vl);
    OneLine(n);
    if d && v {
      TwoLinesFound(dl, vl);
    } else if d {
      TwoLinesFound(dl, n);
    } else if v {
      TwoLinesFound(n, vl);
    }
  }

  lemma OneLine(a: LaneBudget)
    ensures Position([a], a.lane) == 0 && forall lane :: lane != a.lane ==> Position([a], lane) == 1
    ensures forall x :: Inserted([a], x) == if Order(a.lane) <= Order(x.lane) then [a, x] else [x, a]
  {
    assert [a][1..] == [];
    forall x ensures Inserted([a][1..], x) == [x] {}
  }

  lemma TwoLinesFound(a: LaneBudget, b: LaneBudget)
    ensures Position([a, b], a.lane) == 0 && (b.lane != a.lane ==> Position([a, b], b.lane) == 1)
  {
    assert [a, b][1..] == [b];
  }

  class EvidenceBudget {
    var maxTokens: Usize
    var selectedTokens: Usize
    var omittedTokens: Usize
    var perLane: seq<LaneBudget>

    constructor (max: Usize)
      ensures maxTokens == max && Balanced([], [])
    {
      maxTokens, selectedTokens, omittedTokens, perLane := max, 0, 0, [];
    }

    /** The counters say exactly what was selected and what was omitted. */
    ghost predicate Balanced(selected: seq<Item>, omitted: seq<Item>)
      reads this
    {
      && selectedTokens == Saturate(Tokens(selected)) && omittedTokens == Saturate(Tokens(omitted))
      && perLane == Books(selected, omitted)
    }

    method AccountSelected(x: Item, ghost s: seq<Item>, ghost o: seq<Item>)
      requires Balanced(s, o)
      modifies this
      ensures Balanced(s + [x], o) && maxTokens == old(maxTokens)
    {
      SelectedLine(s, o, x);
      TokensMore(s, x);
      LedgerUpdate(perLane, x.lane, Line(x.lane, s + [x], o), s, o, s + [x], o);
      selectedTokens := SaturatingAdd(selectedTokens, x.tokens);
      perLane := Opened(perLane, x.lane);
      var i := Position(perLane, x.lane);
      perLane := perLane[i := AddSelected(perLane[i], x.tokens)];
    }

    method AccountOmitted(x: Item, ghost s: seq<Item>, ghost o: seq<Item>)
      requires Balanced(s, o)
      modifies this
      ensures Balanced(s, o + [x]) && maxTokens == old(maxTokens)
    {
      OmittedLine(s, o, x);
      TokensMore(o, x);
      LedgerUpdate(perLane, x.lane, Line(x.lane, s, o + [x]), s, o, s, o + [x]);
      omittedTokens := SaturatingAdd(omittedTokens, x.tokens);
      perLane := Opened(perLane, x.lane);
      var i := Position(perLane, x.lane);
      perLane := perLane[i := AddOmitted(perLane[i], x.tokens)];
    }
  }

  function AddSelected(line: LaneBudget, tokens: Usize): LaneBudget {
    line.(selectedItems := line.selectedItems + 1, selectedTokens := SaturatingAdd(line.selectedTokens, tokens))
  }

  function AddOmitted(line: LaneBudget, tokens: Usize): LaneBudget {
    line.(omittedItems := line.omittedItems + 1, omittedTokens := SaturatingAdd(line.omittedTokens, tokens))
  }

  lemma SelectedLine(s: seq<Item>, o: seq<Item>, x: Item)
    ensures Used(x.lane, s + [x], o)
    ensures Line(x.lane, s + [x], o) ==
      AddSelected(if Used(x.lane, s, o) then Line(x.lane, s, o) else NewLine(x.lane), x.tokens)
    ensures forall other: Lane :: other != x.lane ==>
      Line(other, s + [x], o) == Line(other, s, o) && (Used(other, s + [x], o) <==> Used(other, s, o))
  {
    OfLaneMore(s, x, Derived);
    OfLaneMore(s, x, Verbatim);
    TokensMore(OfLane(s, x.lane), x);
  }

  lemma OmittedLine(s: seq<Item>, o: seq<Item>, x: Item)
    ensures Used(x.lane, s, o + [x])
    ensures Line(x.lane, s, o + [x]) ==
      AddOmitted(if Used(x.lane, s, o) then Line(x.lane, s, o) else NewLine(x.lane), x.tokens)
    ensures forall other: Lane :: other != x.lane ==>
      Line(other, s, o + [x]) == Line(other, s, o) && (Used(other, s, o + [x]) <==> Used(other, s, o))
  {
    OfLaneMore(o, x, Derived);
    OfLaneMore(o, x, Verbatim);
    TokensMore(OfLane(o, x.lane), x);
  }

  // ------------------------------------------------------------- the projection

  /** Everything a lane's candidates offer, in order. */
  function Stream(offers: seq<Offer>): seq<Item> {
    if offers == [] then []
    else
      var front, last := Stream(offers[..|offers| - 1]), offers[|offers| - 1];
      if last.Offered? then front + last.items else front
  }

  /** The reasons given by the candidates that offer nothing. */
  function Refusals(offers: seq<Offer>): multiset<string> {
    if offers == [] then multiset{}
    else
      var front, last := Refusals(offers[..|offers| - 1]), offers[|offers| - 1];
      if last.Refused? then front + multiset{last.reason} else front
  }

  lemma OneOfferMore(offered: seq<Item>, offers: seq<Offer>, x: Offer)
    ensures x.Offered? ==> offered + Stream(offers + [x]) == offered + Stream(offers) + x.items
    ensures x.Refused? ==> Stream(offers + [x]) == Stream(offers)
    ensures Refusals(offers + [x]) == if x.Refused? then Refusals(offers) + multiset{x.reason} else Refusals(offers)
  {
    assert (offers + [x])[..|offers|] == offers;
    if x.Offered? {
      assert offered + (Stream(offers) + x.items) == offered + Stream(offers) + x.items;
    }
  }

  function Groups(items: seq<Item>): (groups: set<string>)
    ensures forall i, g :: 0 <= i < |items| && g in items[i].groups ==> g in groups
    ensures forall g :: g in groups ==> exists i :: 0 <= i < |items| && g in items[i].groups
  {
    set i, g | 0 <= i < |items| && g in items[i].groups :: g
  }

  /** Membership in the set of groups seen is a clash with an item taken. */
  lemma SeenMeansClash(x: Item, taken: seq<Item>)
    ensures (exists i :: 0 <= i < |x.groups| && x.groups[i] in Groups(taken)) <==> Clashes(x, taken)
  {
    if i :| 0 <= i < |x.groups| && x.groups[i] in Groups(taken) {
      var j :| 0 <= j < |taken| && x.groups[i] in taken[j].groups;
      assert Share(x, taken[j]);
    }
    if Clashes(x, taken) {
      var j :| 0 <= j < |taken| && Share(x, taken[j]);
      var g :| g in x.groups && g in taken[j].groups;
      var i :| 0 <= i < |x.groups| && x.groups[i] == g;
      assert x.groups[i] in Groups(taken);
    }
  }

  lemma GroupsMore(taken: seq<Item>, x: Item)
    ensures Groups(taken + [x]) == Groups(taken) + set g | g in x.groups
  {
    var more := taken + [x];
    forall g | g in Groups(taken) ensures g in Groups(more) {
      var i :| 0 <= i < |taken| && g in taken[i].groups;
      assert more[i] == taken[i];
    }
    assert more[|taken|] == x;
    forall g | g in Groups(more) ensures g in Groups(taken) || g in x.groups {
      var i :| 0 <= i < |more| && g in more[i].groups;
    }
  }

  /** `account_item`: into the selection if it still fits, into the omissions if not. */
  method AccountItem(x: Item, items: seq<Item>, budget: EvidenceBudget, ghost omitted: seq<Item>)
    returns (taken: bool, selected: seq<Item>)
    requires budget.Balanced(items, omitted) && Tokens(items) <= budget.maxTokens && budget.maxTokens < USIZE_MAX
    modifies budget
    ensures budget.maxTokens == old(budget.maxTokens)
    ensures taken <==> Tokens(items) + x.tokens <= budget.maxTokens
    ensures selected == if taken then items + [x] else items
    ensures budget.Balanced(selected, if taken then omitted else omitted + [x])
  {
    taken := SaturatingAdd(budget.selectedTokens, x.tokens) <= budget.maxTokens;
    if taken {
      budget.AccountSelected(x, items, omitted);
      selected := items + [x];
    } else {
      budget.AccountOmitted(x, items, omitted);
      selected := items;
    }
  }

  /** The variables of the projection loops hold the greedy split of what was offered. */
  ghost predicate Holds(offered: seq<Item>, items: seq<Item>, seen: set<string>, budget: EvidenceBudget,
                        excluded: seq<string>, refused: multiset<string>)
    reads budget
  {
    var split := Greedy(offered, budget.maxTokens);
    && items == split.selected && seen == Groups(items) && budget.Balanced(items, split.omitted)
    && budget.maxTokens <= MAX_EVIDENCE_TOKENS
    && multiset(excluded) == refused + Shortfalls(|split.omitted|)
  }

  /** One `insufficient_budget` record for each omitted item. */
  function Shortfalls(n: nat): multiset<string> {
    if n == 0 then multiset{} else Shortfalls(n - 1) + multiset{"insufficient_budget"}
  }

  /** One offered item, from the repetition check to the books. */
  method Consider(x: Item, ghost offered: seq<Item>, items0: seq<Item>, seen0: set<string>, budget: EvidenceBudget,
                  excluded0: seq<string>, ghost refused: multiset<string>)
    returns (items: seq<Item>, seen: set<string>, excluded: seq<string>)
    requires Holds(offered, items0, seen0, budget, excluded0, refused)
    modifies budget
    ensures budget.maxTokens == old(budget.maxTokens)
    ensures Holds(offered + [x], items, seen, budget, excluded, refused)
  {
    items, seen, excluded := items0, seen0, excluded0;
    SeenMeansClash(x, items);
    GreedyMore(offered, x, budget.maxTokens);
    if exists i :: 0 <= i < |x.groups| && x.groups[i] in seen {
      return;
    }
    GreedyIsSound(offered, budget.maxTokens);
    GroupsMore(items, x);
    var taken;
    taken, items := AccountItem(x, items, budget, Greedy(offered, budget.maxTokens).omitted);
    if taken {
      seen := seen + set g | g in x.groups;
    } else {
      excluded := excluded + ["insufficient_budget"];
    }
  }

  lemma OneMoreOffer(offered: seq<Item>, xs: seq<Item>, i: nat)
    requires i < |xs|
    ensures offered + xs[..i + 1] == offered + xs[..i] + [xs[i]]
  {}

  method ConsiderAll(xs: seq<Item>, ghost offered: seq<Item>, items0: seq<Item>, seen0: set<string>,
                     budget: EvidenceBudget, excluded0: seq<string>, ghost refused: multiset<string>)
    returns (items: seq<Item>, seen: set<string>, excluded: seq<string>)
    requires Holds(offered, items0, seen0, budget, excluded0, refused)
    modifies budget
    ensures budget.maxTokens == old(budget.maxTokens)
    ensures Holds(offered + xs, items, seen, budget, excluded, refused)
  {
    items, seen, excluded := items0, seen0, excluded0;
    assert offered + xs[..0] == offered;
    for i := 0 to |xs|
      invariant budget.maxTokens == old(budget.maxTokens)
      invariant Holds(offered + xs[..i], items, seen, budget, excluded, refused)
    {
      OneMoreOffer(offered, xs, i);
      items, seen, excluded := Consider(xs[i], offered + xs[..i], items, seen, budget, excluded, refused);
    }
    assert xs[..|xs|] == xs;
  }

  /** One lane's loop over the candidates. */
  method ProjectLane(offers: seq<Offer>, ghost offered: seq<Item>, items0: seq<Item>, seen0: set<string>,
                     budget: EvidenceBudget, excluded0: seq<string>, ghost refused: multiset<string>)
    returns (items: seq<Item>, seen: set<string>, excluded: seq<string>)
    requires Holds(offered, items0, seen0, budget, excluded0, refused)
    modifies budget
    ensures budget.maxTokens == old(budget.maxTokens)
    ensures Holds(offered + Stream(offers), items, seen, budget, excluded, refused + Refusals(offers))
  {
    items, seen, excluded := items0, seen0, excluded0;
    Bounds(offered, refused, offers);
    for i := 0 to |offers|
      invariant budget.maxTokens == old(budget.maxTokens)
      invariant Holds(UpTo(offered, offers, i), items, seen, budget, excluded, RefusedUpTo(refused, offers, i))
    {
      NextOffer(offered, refused, offers, i);
      items, seen, excluded :=
        ProjectOffer(offers[i], UpTo(offered, offers, i), items, seen, budget, excluded,
                     RefusedUpTo(refused, offers, i));
    }
  }

  ghost function UpTo(offered: seq<Item>, offers: seq<Offer>, i: nat): seq<Item>
    requires i <= |offers|
  {
    offered + Stream(offers[..i])
  }

  ghost function RefusedUpTo(refused: multiset<string>, offers: seq<Offer>, i: nat): multiset<string>
    requires i <= |offers|
  {
    refused + Refusals(offers[..i])
  }

  lemma Bounds(offered: seq<Item>, refused: multiset<string>, offers: seq<Offer>)
    ensures UpTo(offered, offers, 0) == offered && RefusedUpTo(refused, offers, 0) == refused
    ensures UpTo(offered, offers, |offers|) == offered + Stream(offers)
    ensures RefusedUpTo(refused, offers, |offers|) == refused + Refusals(offers)
  {
    assert offers[..|offers|] == offers;
  }

  lemma NextOffer(offered: seq<Item>, refused: multiset<string>, offers: seq<Offer>, i: nat)
    requires i < |offers|
    ensures UpTo(offered, offers, i + 1) == WithItems(UpTo(offered, offers, i), offers[i])
    ensures RefusedUpTo(refused, offers, i + 1) == WithRefusal(RefusedUpTo(refused, offers, i), offers[i])
  {
    OneOfferMore(offered, offers[..i], offers[i]);
    assert offers[..i + 1] == offers[..i] + [offers[i]];
  }

  ghost function WithItems(offered: seq<Item>, x: Offer): seq<Item> {
    if x.Offered? then offered + x.items else offered
  }

  ghost function WithRefusal(refused: multiset<string>, x: Offer): multiset<string> {
    if x.Refused? then refused + multiset{x.reason} else refused
  }

  method ProjectOffer(x: Offer, ghost offered: seq<Item>, items0: seq<Item>, seen0: set<string>, budget: EvidenceBudget,
                      excluded0: seq<string>, ghost refused: multiset<string>)
    returns (items: seq<Item>, seen: set<string>, excluded: seq<string>)
    requires Holds(offered, items0, seen0, budget, excluded0, refused)
    modifies budget
    ensures budget.maxTokens == old(budget.maxTokens)
    ensures Holds(WithItems(offered, x), items, seen, budget, excluded, WithRefusal(refused, x))
  {
    match x {
      case Offered(xs) =>
        items, seen, excluded := ConsiderAll(xs, offered, items0, seen0, budget, excluded0, refused);
      case Refused(reason) =>
        items, seen, excluded := items0, seen0, excluded0 + [reason];
    }
  }

  function EffectiveMax(maxTokens: int): int { if maxTokens == 0 then 256 else maxTokens }

  function Wanted<T>(wanted: bool, xs: seq<T>): seq<T> { if wanted then xs else [] }

  /** What the two lanes put on offer: the derived lane comes first. */
  function OnOffer(lanes: set<Lane>, derived: seq<Offer>, verbatim: seq<Offer>): seq<Item> {
    Stream(Wanted(Derived in lanes, derived)) + Stream(Wanted(Verbatim in lanes, verbatim))
  }

  /** The reasons for which a candidate offered nothing to a requested lane. */
  function RefusedBy(lanes: set<Lane>, derived: seq<Offer>, verbatim: seq<Offer>): multiset<string> {
    Refusals(Wanted(Derived in lanes, derived)) + Refusals(Wanted(Verbatim in lanes, verbatim))
  }

  /** What comes later on offer takes nothing away from what came before. */
  lemma {:induction false} EarlierComesFirst(a: seq<Item>, b: seq<Item>, max: nat)
    ensures Extends(Greedy(a, max).selected, Greedy(a + b, max).selected, b)
  {
    if b == [] {
      assert a + b == a;
    } else {
      var front, last := b[..|b| - 1], b[|b| - 1];
      EarlierComesFirst(a, front, max);
      assert a + b == a + front + [last] && b == front + [last];
      GreedyMore(a + front, last, max);
      PlaceGrows(Greedy(a + front, max), last, max);
      ExtendsMore(Greedy(a, max).selected, Greedy(a + front, max).selected, front, last);
    }
  }

  /** `more` is `some` followed by items of `b`. */
  ghost predicate Extends(some: seq<Item>, more: seq<Item>, b: seq<Item>) {
    some <= more && forall i :: |some| <= i < |more| ==> more[i] in b
  }

  lemma ExtendsMore(some: seq<Item>, more: seq<Item>, b: seq<Item>, x: Item)
    requires Extends(some, more, b)
    ensures Extends(some, more, b + [x]) && Extends(some, more + [x], b + [x])
  {}

  lemma PlaceGrows(s: Split, x: Item, max: nat)
    ensures Place(s, x, max).selected == s.selected || Place(s, x, max).selected == s.selected + [x]
  {}

  /** The derived lane has precedence: what it would win alone it wins, and the verbatim
      lane gets what is left. A lane that is not requested gets nothing. */
  lemma DerivedHasPrecedence(lanes: set<Lane>, derived: seq<Offer>, verbatim: seq<Offer>, max: nat)
    ensures var selected := Greedy(OnOffer(lanes, derived, verbatim), max).selected;
      var first := if Derived in lanes then Greedy(Stream(derived), max).selected else [];
      Extends(first, selected, if Verbatim in lanes then Stream(verbatim) else [])
  {
    var a, b := Stream(Wanted(Derived in lanes, derived)), Stream(Wanted(Verbatim in lanes, verbatim));
    EarlierComesFirst(a, b, max);
  }

  /** The projection is the greedy selection of what the requested lanes offer, the
      derived lane first, its budget the exact books of that selection, and its exclusions one record for
      each refusal and each omission; it fails exactly for a token limit out of range. */
  method Project(lanes: set<Lane>, derived: seq<Offer>, verbatim: seq<Offer>, maxTokens: int, dropped: seq<string>)
    returns (budget: EvidenceBudget?, items: seq<Item>, excluded: seq<string>)
    ensures budget != null <==> 0 <= maxTokens <= MAX_EVIDENCE_TOKENS
    ensures budget != null ==> fresh(budget) && budget.maxTokens == if maxTokens == 0 then 256 else maxTokens
    ensures budget != null ==>
      var split := Greedy(OnOffer(lanes, derived, verbatim), budget.maxTokens);
      && items == split.selected && Sound(split, budget.maxTokens) && budget.Balanced(items, split.omitted)
      && multiset(excluded) == multiset(dropped) + RefusedBy(lanes, derived, verbatim) + Shortfalls(|split.omitted|)
    ensures budget != null && Derived in lanes ==> Greedy(Stream(derived), budget.maxTokens).selected <= items
  {
    var limit := EffectiveMax(maxTokens);
    if !(1 <= limit <= MAX_EVIDENCE_TOKENS) {
      return null, [], [];
    }
    var books := new EvidenceBudget(limit);
    items, excluded := ProjectBoth(lanes, derived, verbatim, books, dropped);
    GreedyIsSound(OnOffer(lanes, derived, verbatim), limit);
    DerivedHasPrecedence(lanes, derived, verbatim, limit);
    budget := books;
  }

  method ProjectBoth(lanes: set<Lane>, derived: seq<Offer>, verbatim: seq<Offer>, budget: EvidenceBudget,
                     dropped: seq<string>)
    returns (items: seq<Item>, excluded: seq<string>)
    requires budget.Balanced([], []) && budget.maxTokens <= MAX_EVIDENCE_TOKENS
    modifies budget
    ensures budget.maxTokens == old(budget.maxTokens)
    ensures var split := Greedy(OnOffer(lanes, derived, verbatim), budget.maxTokens);
      && items == split.selected && budget.Balanced(items, split.omitted)
      && multiset(excluded) == multiset(dropped) + RefusedBy(lanes, derived, verbatim) + Shortfalls(|split.omitted|)
  {
    ghost var d, v := Wanted(Derived in lanes, derived), Wanted(Verbatim in lanes, verbatim);
    assert Groups([]) == {} && [] + Stream(d) == Stream(d);
    var seen;
    items, seen, excluded := ProjectIfWanted(Derived in lanes, derived, [], [], {}, budget, dropped, multiset(dropped));
    items, seen, excluded :=
      ProjectIfWanted(Verbatim in lanes, verbatim, Stream(d), items, seen, budget, excluded,
                      multiset(dropped) + Refusals(d));
  }

  method ProjectIfWanted(wanted: bool, offers: seq<Offer>, ghost offered: seq<Item>, items0: seq<Item>,
                         seen0: set<string>, budget: EvidenceBudget, excluded0: seq<string>,
                         ghost refused: multiset<string>)
    returns (items: seq<Item>, seen: set<string>, excluded: seq<string>)
    requires Holds(offered, items0, seen0, budget, excluded0, refused)
    modifies budget
    ensures budget.maxTokens == old(budget.maxTokens)
    ensures Holds(offered + Stream(Wanted(wanted, offers)), items, seen, budget, excluded,
                  refused + Refusals(Wanted(wanted, offers)))
  {
    if wanted {
      items, seen, excluded := ProjectLane(offers, offered, items0, seen0, budget, excluded0, refused);
    } else {
      items, seen, excluded := items0, seen0, excluded0;
      assert offered + [] == offered;
    }
  }
}
