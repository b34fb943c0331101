/** Pruning captured notes from their source (src/capture.rs,
    `prune_captured_regions`): each note's window of lines is removed once, and the
    gaps this leaves are closed. */
module CapturePrune {
  import opened Options
  import opened Text
  import opened CaptureSpans

  // ----------------------------------------------------------- finding windows

  /** The note's lines stand at position `at`. */
  ghost predicate Matches<T>(src: seq<T>, note: seq<T>, at: nat) {
    at + |note| <= |src| && forall k :: 0 <= k < |note| ==> src[at + k] == note[k]
  }

  ghost predicate Free(flags: seq<bool>, at: nat, n: nat) {
    at + n <= |flags| && forall k :: at <= k < at + n ==> !flags[k]
  }

  /** The first unflagged window that matches. */
  method FindWindow<T(==)>(src: seq<T>, note: seq<T>, flags: seq<bool>) returns (found: Option<nat>)
    requires |flags| == |src|
    ensures found.Some? ==> Matches(src, note, found.value) && Free(flags, found.value, |note|)
    ensures forall at :: 0 <= at < (if found.Some? then found.value else |src| + 1) ==>
      !(Matches(src, note, at) && Free(flags, at, |note|))
  {
    if |note| > |src| {
      return None;
    }
    for i := 0 to |src| - |note| + 1
      invariant forall at :: 0 <= at < i ==> !(Matches(src, note, at) && Free(flags, at, |note|))
    {
      if exists k :: i <= k < i + |note| && flags[k] {
        continue;
      }
      if forall k :: 0 <= k < |note| ==> src[i + k] == note[k] {
        return Some(i);
      }
    }
    found := None;
  }

  /** A note's number and where its window starts. */
  datatype Window = Window(note: nat, at: nat)

  ghost predicate Covers<T>(notes: seq<seq<T>>, w: Window, k: int) {
    w.note < |notes| && w.at <= k < w.at + |notes[w.note]|
  }

  ghost predicate NoteOrder(windows: seq<Window>) {
    forall i, j :: 0 <= i < j < |windows| ==> windows[i].note < windows[j].note
  }

  /** One window for each counted note, in note order, each matching its note and
      no two sharing a line. */
  ghost predicate Apart<T>(src: seq<T>, notes: seq<seq<T>>, windows: seq<Window>, m: nat) {
    && (forall i :: 0 <= i < |windows| ==> windows[i].note < m <= |notes| && notes[windows[i].note] != []
                                           && Matches(src, notes[windows[i].note], windows[i].at))
    && NoteOrder(windows)
    && (forall i, j, k :: 0 <= i < j < |windows| && Covers(notes, windows[i], k) ==> !Covers(notes, windows[j], k))
  }

  /** The flagged lines are those of the windows. */
  ghost predicate Marked<T>(notes: seq<seq<T>>, windows: seq<Window>, flags: seq<bool>) {
    forall k :: 0 <= k < |flags| ==> (flags[k] <==> Hit(notes, windows, k))
  }

  ghost predicate Hit<T>(notes: seq<seq<T>>, windows: seq<Window>, k: int) {
    exists i :: 0 <= i < |windows| && Covers(notes, windows[i], k)
  }

  /** Note `n` has a window that starts at `at` or before. */
  ghost predicate Served(windows: seq<Window>, n: nat, at: nat) {
    exists i :: 0 <= i < |windows| && windows[i].note == n && windows[i].at <= at
  }

  /** At `at`, note `n` would share a line with the window of an earlier note. */
  ghost predicate Blocked<T>(notes: seq<seq<T>>, windows: seq<Window>, n: nat, at: nat) {
    exists i, k :: 0 <= i < |windows| && windows[i].note < n && Covers(notes, windows[i], k) &&
      Covers(notes, Window(n, at), k)
  }

  /** Each note has taken its first match that the earlier notes left free, and a
      note without a window has no such match. */
  ghost predicate FirstFree<T>(src: seq<T>, notes: seq<seq<T>>, windows: seq<Window>, m: nat) {
    forall n, at :: 0 <= n < m <= |notes| && notes[n] != [] && Matches(src, notes[n], at) ==>
      Served(windows, n, at) || Blocked(notes, windows, n, at)
  }

  ghost predicate MarkedUpTo<T>(src: seq<T>, notes: seq<seq<T>>, windows: seq<Window>, flags: seq<bool>, m: nat) {
    && |flags| == |src| && Apart(src, notes, windows, m) && Marked(notes, windows, flags)
    && FirstFree(src, notes, windows, m)
  }

  method MarkNotes<T(==)>(src: seq<T>, notes: seq<seq<T>>)
    returns (flags: seq<bool>, removed: nat, windows: seq<Window>)
    ensures MarkedUpTo(src, notes, windows, flags, |notes|) && removed == |windows|
  {
    flags, removed, windows := seq(|src|, _ => false), 0, [];
    for m := 0 to |notes|
      invariant MarkedUpTo(src, notes, windows, flags, m) && removed == |windows|
    {
      if notes[m] == [] {
        SkipNote(src, notes, windows, flags, m);
        continue;
      }
      var found := FindWindow(src, notes[m], flags);
      if found.Some? {
        ghost var before := flags;
        flags := Flag(flags, found.value, |notes[m]|);
        CountNote(src, notes, windows, before, m, found.value, flags);
        windows := windows + [Window(m, found.value)];
        removed := removed + 1;
      } else {
        assert forall at: nat :: Matches(src, notes[m], at) ==> at < |src| + 1;
        SkipNote(src, notes, windows, flags, m);
      }
    }
  }

  method Flag(flags: seq<bool>, at: nat, n: nat) returns (r: seq<bool>)
    requires at + n <= |flags|
    ensures |r| == |flags| && forall k :: 0 <= k < |flags| ==> r[k] == (flags[k] || at <= k < at + n)
  {
    r := flags;
    for k := at to at + n
      invariant |r| == |flags| && forall j :: 0 <= j < |flags| ==> r[j] == (flags[j] || at <= j < k)
    {
      r := r[k := true];
    }
  }

  lemma SkipNote<T>(src: seq<T>, notes: seq<seq<T>>, windows: seq<Window>, flags: seq<bool>, m: nat)
    requires m < |notes| && MarkedUpTo(src, notes, windows, flags, m)
    requires notes[m] == [] || forall at :: Matches(src, notes[m], at) ==> !Free(flags, at, |notes[m]|)
    ensures MarkedUpTo(src, notes, windows, flags, m + 1)
  {
    forall at | notes[m] != [] && Matches(src, notes[m], at) ensures Blocked(notes, windows, m, at) {
      FlaggedIsBlocked(src, notes, windows, flags, m, at);
    }
  }

  lemma FlaggedIsBlocked<T>(src: seq<T>, notes: seq<seq<T>>, windows: seq<Window>, flags: seq<bool>, m: nat, at: nat)
    requires m < |notes| && |flags| == |src| && Apart(src, notes, windows, m) && Marked(notes, windows, flags)
    requires Matches(src, notes[m], at) && !Free(flags, at, |notes[m]|)
    ensures Blocked(notes, windows, m, at)
  {
    var k :| at <= k < at + |notes[m]| && flags[k];
    assert Hit(notes, windows, k);
    var i :| 0 <= i < |windows| && Covers(notes, windows[i], k);
    assert Covers(notes, Window(m, at), k);
  }

  lemma HitMore<T>(notes: seq<seq<T>>, windows: seq<Window>, w: Window, k: int)
    ensures Hit(notes, windows + [w], k) <==> Hit(notes, windows, k) || Covers(notes, w, k)
  {
    var more := windows + [w];
    assert more[|windows|] == w && forall i :: 0 <= i < |windows| ==> more[i] == windows[i];
  }

  lemma CountNote<T>(src: seq<T>, notes: seq<seq<T>>, windows: seq<Window>, before: seq<bool>, m: nat, at: nat,
                     flags: seq<bool>)
    requires m < |notes| && notes[m] != [] && MarkedUpTo(src, notes, windows, before, m)
    requires Matches(src, notes[m], at) && Free(before, at, |notes[m]|)
    requires forall a :: 0 <= a < at && Matches(src, notes[m], a) ==> !Free(before, a, |notes[m]|)
    requires |flags| == |before| && forall k :: 0 <= k < |flags| ==>
      flags[k] == (before[k] || at <= k < at + |notes[m]|)
    ensures MarkedUpTo(src, notes, windows + [Window(m, at)], flags, m + 1)
  {
    var w := Window(m, at);
    NewWindowIsApart(src, notes, windows, before, m, at);
    forall k | 0 <= k < |flags| ensures flags[k] <==> Hit(notes, windows + [w], k) {
      HitMore(notes, windows, w, k);
    }
    StillFirstFree(src, notes, windows, before, m, w);
  }

  lemma NewWindowIsApart<T>(src: seq<T>, notes: seq<seq<T>>, windows: seq<Window>, flags: seq<bool>, m: nat, at: nat)
    requires m < |notes| && notes[m] != [] && |flags| == |src| && Apart(src, notes, windows, m) &&
      Marked(notes, windows, flags)
    requires Matches(src, notes[m], at) && Free(flags, at, |notes[m]|)
    ensures Apart(src, notes, windows + [Window(m, at)], m + 1)
  {
    forall i, k | 0 <= i < |windows| && Covers(notes, windows[i], k) ensures !Covers(notes, Window(m, at), k) {
      assert Hit(notes, windows, k);
    }
  }

  lemma StillFirstFree<T>(src: seq<T>, notes: seq<seq<T>>, windows: seq<Window>, flags: seq<bool>, m: nat, w: Window)
    requires w.note == m < |notes| && |flags| == |src| && Apart(src, notes, windows, m) && Marked(notes, windows, flags)
    requires FirstFree(src, notes, windows, m)
    requires forall a :: 0 <= a < w.at && Matches(src, notes[m], a) ==> !Free(flags, a, |notes[m]|)
    ensures FirstFree(src, notes, windows + [w], m + 1)
  {
    var more := windows + [w];
    forall n: nat, at: nat | n <= m && notes[n] != [] && Matches(src, notes[n], at)
      ensures Served(more, n, at) || Blocked(notes, more, n, at)
    {
      if n == m && at < w.at { FlaggedIsBlocked(src, notes, windows, flags, m, at); }
      ServedOrBlockedMore(notes, windows, w, n, at);
    }
  }

  lemma ServedOrBlockedMore<T>(notes: seq<seq<T>>, windows: seq<Window>, w: Window, n: nat, at: nat)
    requires Served(windows, n, at) || Blocked(notes, windows, n, at) || (w.note == n && w.at <= at)
    ensures Served(windows + [w], n, at) || Blocked(notes, windows + [w], n, at)
  {
    var more := windows + [w];
    assert more[|windows|] == w && forall i :: 0 <= i < |windows| ==> more[i] == windows[i];
    if Served(windows, n, at) {
      var i :| 0 <= i < |windows| && windows[i].note == n && windows[i].at <= at;
      assert more[i].note == n;
    } else if Blocked(notes, windows, n, at) {
      var i, k :| 0 <= i < |windows| && windows[i].note < n && Covers(notes, windows[i], k) &&
        Covers(notes, Window(n, at), k);
      assert more[i].note < n && Covers(notes, more[i], k);
    }
  }

  lemma ChosenIsFree<T>(src: seq<T>, notes: seq<seq<T>>, v: seq<Window>, i: nat)
    requires Apart(src, notes, v, |notes|) && i < |v|
    ensures !Blocked(notes, v, v[i].note, v[i].at)
  {
    forall j, k | 0 <= j < |v| && v[j].note < v[i].note && Covers(notes, v[j], k) ensures !Covers(notes, v[i], k) {
      assert j < i;
    }
    assert v[i] == Window(v[i].note, v[i].at);
  }

  /** If `u` and `v` agree before `i`, then `u`'s next window is not after `v`'s. */
  ghost predicate NotAfter(u: seq<Window>, v: seq<Window>, i: nat) {
    i <= |u| && i < |v| && (forall j :: 0 <= j < i ==> u[j] == v[j]) ==>
      i < |u| && (u[i].note < v[i].note || (u[i].note == v[i].note && u[i].at <= v[i].at))
  }

  lemma EarlierNotes<T>(notes: seq<seq<T>>, u: seq<Window>, v: seq<Window>, i: nat, n: nat, at: nat)
    requires NoteOrder(u) && i <= |u| && i < |v| && (forall j :: 0 <= j < i ==> u[j] == v[j])
    requires i == |u| || u[i].note >= n
    requires !Blocked(notes, v, n, at)
    ensures !Blocked(notes, u, n, at)
  {
    forall j | 0 <= j < |u| && u[j].note < n ensures j < i {}
  }

  lemma ServedByNext(u: seq<Window>, i: nat, n: nat, at: nat)
    requires NoteOrder(u) && i <= |u| && (forall j :: 0 <= j < i ==> u[j].note < n) && (i == |u| || u[i].note >= n)
    requires Served(u, n, at)
    ensures i < |u| && u[i].note == n && u[i].at <= at
  {}

  /** The place of `v`'s next window is free, so `u` would have taken it. */
  lemma NoEarlierChoice<T>(src: seq<T>, notes: seq<seq<T>>, u: seq<Window>, v: seq<Window>, i: nat)
    requires Apart(src, notes, u, |notes|) && Apart(src, notes, v, |notes|) && FirstFree(src, notes, u, |notes|)
    ensures NotAfter(u, v, i)
  {
    if i <= |u| && i < |v| && (forall j :: 0 <= j < i ==> u[j] == v[j]) && (i == |u| || u[i].note >= v[i].note) {
      var n, at := v[i].note, v[i].at;
      ChosenIsFree(src, notes, v, i);
      EarlierNotes(notes, u, v, i, n, at);
      assert Served(u, n, at);
      ServedByNext(u, i, n, at);
    }
  }

  lemma {:induction false} ChoicesAgree(u: seq<Window>, v: seq<Window>, i: nat)
    requires (forall k: nat :: NotAfter(u, v, k)) && (forall k: nat :: NotAfter(v, u, k)) && i <= |v|
    ensures i <= |u| && forall j :: 0 <= j < i ==> u[j] == v[j]
  {
    if i > 0 {
      ChoicesAgree(u, v, i - 1);
      assert NotAfter(u, v, i - 1) && NotAfter(v, u, i - 1);
    }
  }

  /** The windows are determined by the lines and the notes. */
  lemma WindowsAreUnique<T>(src: seq<T>, notes: seq<seq<T>>, u: seq<Window>, v: seq<Window>)
    requires Apart(src, notes, u, |notes|) && FirstFree(src, notes, u, |notes|)
    requires Apart(src, notes, v, |notes|) && FirstFree(src, notes, v, |notes|)
    ensures u == v
  {
    forall k: nat ensures NotAfter(u, v, k) { NoEarlierChoice(src, notes, u, v, k); }
    forall k: nat ensures NotAfter(v, u, k) { NoEarlierChoice(src, notes, v, u, k); }
    ChoicesAgree(u, v, |v|);
    ChoicesAgree(v, u, |u|);
  }

  // -------------------------------------------------------------- closing the gaps

  function Survivors<T>(lines: seq<T>, flags: seq<bool>): seq<T>
    requires |flags| == |lines|
  {
    if lines == [] then []
    else
      var n := |lines| - 1;
      var front := Survivors(lines[..n], flags[..n]);
      if flags[n] then front else front + [lines[n]]
  }

  /** Paragraphs met so far, and the one being read. */
  datatype Reading<T> = Reading(closed: seq<seq<T>>, run: seq<T>)

  function Read<T>(r: Reading<T>, line: T, blank: T -> bool): Reading<T> {
    if !blank(line) then r.(run := r.run + [line])
    else if r.run == [] then r
    else Reading(r.closed + [r.run], [])
  }

  function Scan<T>(r: Reading<T>, lines: seq<T>, blank: T -> bool): Reading<T> {
    if lines == [] then r else Read(Scan(r, lines[..|lines| - 1], blank), lines[|lines| - 1], blank)
  }

  function Close<T>(r: Reading<T>): seq<seq<T>> {
    if r.run == [] then r.closed else r.closed + [r.run]
  }

  /** The runs of non-blank lines, in order. */
  function Paragraphs<T>(lines: seq<T>, blank: T -> bool): seq<seq<T>> {
    Close(Scan(Reading([], []), lines, blank))
  }

  lemma ScanMore<T>(r: Reading<T>, lines: seq<T>, line: T, blank: T -> bool)
    ensures Scan(r, lines + [line], blank) == Read(Scan(r, lines, blank), line, blank)
  {
    assert (lines + [line])[..|lines|] == lines;
  }

  lemma {:induction false} ScanTail<T>(r: Reading<T>, lines: seq<T>, blank: T -> bool)
    requires lines != []
    ensures Scan(r, lines, blank) == Scan(Read(r, lines[0], blank), lines[1..], blank)
  {
    var n := |lines| - 1;
    if n > 0 {
      ScanTail(r, lines[..n], blank);
      assert lines[..n][1..] == lines[1..][..n - 1] && lines[1..][n - 1] == lines[n];
    } else {
      assert lines[..0] == [] && lines[1..] == [];
    }
  }

  /** No two blank lines together. */
  ghost predicate NoDoubleGap<T>(lines: seq<T>, blank: T -> bool) {
    forall i :: 0 < i < |lines| && blank(lines[i]) ==> !blank(lines[i - 1])
  }

  /** No two blank lines together, and none at either end. */
  ghost predicate Tidy<T>(lines: seq<T>, blank: T -> bool) {
    && NoDoubleGap(lines, blank)
    && (lines != [] ==> !blank(lines[0]) && !blank(lines[|lines| - 1]))
  }

  /** The non-blank lines, in order. */
  function Visible<T>(lines: seq<T>, blank: T -> bool): seq<T> {
    if lines == [] then []
    else
      var front := Visible(lines[..|lines| - 1], blank);
      if blank(lines[|lines| - 1]) then front else front + [lines[|lines| - 1]]
  }

  function Flatten<T>(groups: seq<seq<T>>): seq<T> {
    if groups == [] then [] else Flatten(groups[..|groups| - 1]) + groups[|groups| - 1]
  }

  /** Paragraphs are a grouping of the visible lines, so equal paragraphs mean the
      same visible lines in the same order. */
  lemma {:induction false} ParagraphsHoldVisible<T>(lines: seq<T>, blank: T -> bool)
    ensures Flatten(Paragraphs(lines, blank)) == Visible(lines, blank)
  {
    var r := Scan(Reading([], []), lines, blank);
    FlattenClose(r);
    if lines != [] {
      var front, last := lines[..|lines| - 1], lines[|lines| - 1];
      ParagraphsHoldVisible(front, blank);
      var before := Scan(Reading([], []), front, blank);
      FlattenClose(before);
      if blank(last) {
        assert Close(r) == Close(before);
      } else {
        assert Flatten(r.closed) + (before.run + [last]) == Flatten(r.closed) + before.run + [last];
      }
    }
  }

  lemma FlattenClose<T>(r: Reading<T>)
    ensures Flatten(Close(r)) == Flatten(r.closed) + r.run
  {
    assert (r.closed + [r.run])[..|r.closed|] == r.closed;
  }

  /** A list that ends in a blank line has no open paragraph. */
  lemma BlankEndCloses<T>(lines: seq<T>, blank: T -> bool)
    requires lines != [] && blank(lines[|lines| - 1])
    ensures Scan(Reading([], []), lines, blank).run == []
  {}

  lemma NextSurvivor<T>(lines: seq<T>, flags: seq<bool>, k: nat, blank: T -> bool)
    requires k < |lines| == |flags|
    ensures var before := Scan(Reading([], []), Survivors(lines[..k], flags[..k]), blank);
      Scan(Reading([], []), Survivors(lines[..k + 1], flags[..k + 1]), blank) ==
        if flags[k] then before else Read(before, lines[k], blank)
  {
    assert lines[..k + 1][..k] == lines[..k] && flags[..k + 1][..k] == flags[..k];
    ScanMore(Reading([], []), Survivors(lines[..k], flags[..k]), lines[k], blank);
  }

  /** `out` holds the lines at the positions `at`, in order. */
  ghost predicate Picks<T>(lines: seq<T>, at: seq<nat>, out: seq<T>) {
    && |at| == |out| && (forall i, j :: 0 <= i < j < |at| ==> at[i] < at[j])
    && forall i :: 0 <= i < |at| ==> at[i] < |lines| && out[i] == lines[at[i]]
  }

  /** The last unflagged line before line k is blank. */
  ghost predicate AfterBlank<T>(lines: seq<T>, flags: seq<bool>, blank: T -> bool, k: nat)
    requires k <= |lines| == |flags|
  {
    exists p :: 0 <= p < k && !flags[p] && blank(lines[p]) && forall q :: p < q < k ==> flags[q]
  }

  /** An unflagged line that does not repeat a blank. */
  ghost predicate Unrepeated<T>(lines: seq<T>, flags: seq<bool>, blank: T -> bool, k: nat)
    requires k < |lines| == |flags|
  {
    !flags[k] && !(blank(lines[k]) && AfterBlank(lines, flags, blank, k))
  }

  lemma AfterBlankNext<T>(lines: seq<T>, flags: seq<bool>, blank: T -> bool, k: nat)
    requires k < |lines| == |flags|
    ensures AfterBlank(lines, flags, blank, k + 1) <==>
      if flags[k] then AfterBlank(lines, flags, blank, k) else blank(lines[k])
  {
    if flags[k] && AfterBlank(lines, flags, blank, k) {
      var p :| 0 <= p < k && !flags[p] && blank(lines[p]) && forall q :: p < q < k ==> flags[q];
      assert forall q :: p < q < k + 1 ==> flags[q];
    }
    if AfterBlank(lines, flags, blank, k + 1) {
      var p :| 0 <= p < k + 1 && !flags[p] && blank(lines[p]) && forall q :: p < q < k + 1 ==> flags[q];
      if p == k { assert !flags[k]; } else { assert flags[k]; }
    }
  }

  lemma PicksMore<T>(lines: seq<T>, at: seq<nat>, out: seq<T>, k: nat)
    requires Picks(lines, at, out) && k < |lines| && forall j :: j in at ==> j < k
    ensures Picks(lines, at + [k], out + [lines[k]])
  {
    forall i | 0 <= i < |at| ensures at[i] < k { assert at[i] in at; }
  }

  /** The first k lines are collapsed: `at` holds what is kept of them. */
  ghost predicate PickedTo<T>(lines: seq<T>, flags: seq<bool>, blank: T -> bool, k: nat, at: seq<nat>, out: seq<T>,
                              prevBlank: bool) {
    && k <= |lines| == |flags| && (prevBlank <==> AfterBlank(lines, flags, blank, k))
    && Picks(lines, at, out) && (forall j :: j in at ==> j < k)
    && forall j :: 0 <= j < k ==> (j in at <==> Unrepeated(lines, flags, blank, j))
  }

  lemma LineSkipped<T>(lines: seq<T>, flags: seq<bool>, blank: T -> bool, k: nat, at: seq<nat>, out: seq<T>,
                       prevBlank: bool)
    requires k < |lines| && PickedTo(lines, flags, blank, k, at, out, prevBlank)
    requires flags[k] || (blank(lines[k]) && prevBlank)
    ensures PickedTo(lines, flags, blank, k + 1, at, out, prevBlank)
  {
    AfterBlankNext(lines, flags, blank, k);
  }

  lemma LinePicked<T>(lines: seq<T>, flags: seq<bool>, blank: T -> bool, k: nat, at: seq<nat>, out: seq<T>,
                      prevBlank: bool)
    requires k < |lines| && PickedTo(lines, flags, blank, k, at, out, prevBlank)
    requires !flags[k] && !(blank(lines[k]) && prevBlank)
    ensures PickedTo(lines, flags, blank, k + 1, at + [k], out + [lines[k]], blank(lines[k]))
  {
    AfterBlankNext(lines, flags, blank, k);
    PicksMore(lines, at, out, k);
  }

  /** No double gap so far, and whether the last line is a gap. */
  ghost predicate Gaps<T>(out: seq<T>, blank: T -> bool, prevBlank: bool) {
    NoDoubleGap(out, blank) && (prevBlank <==> out != [] && blank(out[|out| - 1]))
  }

  lemma GapsMore<T>(out: seq<T>, line: T, blank: T -> bool, prevBlank: bool)
    requires Gaps(out, blank, prevBlank) && !(blank(line) && prevBlank)
    ensures Gaps(out + [line], blank, blank(line))
  {
    var more := out + [line];
    assert forall i :: 0 <= i < |out| ==> more[i] == out[i];
  }

  /** The loop has collapsed the first k lines. */
  ghost predicate CollapsedTo<T>(lines: seq<T>, flags: seq<bool>, blank: T -> bool, k: nat, at: seq<nat>, out: seq<T>,
                                 prevBlank: bool) {
    && PickedTo(lines, flags, blank, k, at, out, prevBlank) && Gaps(out, blank, prevBlank)
    && Scan(Reading([], []), out, blank) == Scan(Reading([], []), Survivors(lines[..k], flags[..k]), blank)
  }

  lemma CollapseSkips<T>(lines: seq<T>, flags: seq<bool>, blank: T -> bool, k: nat, at: seq<nat>, out: seq<T>,
                         prevBlank: bool)
    requires k < |lines| && CollapsedTo(lines, flags, blank, k, at, out, prevBlank)
    requires flags[k] || (blank(lines[k]) && prevBlank)
    ensures CollapsedTo(lines, flags, blank, k + 1, at, out, prevBlank)
  {
    NextSurvivor(lines, flags, k, blank);
    LineSkipped(lines, flags, blank, k, at, out, prevBlank);
    if !flags[k] { BlankEndCloses(out, blank); }
  }

  lemma CollapseKeeps<T>(lines: seq<T>, flags: seq<bool>, blank: T -> bool, k: nat, at: seq<nat>, out: seq<T>,
                         prevBlank: bool)
    requires k < |lines| && CollapsedTo(lines, flags, blank, k, at, out, prevBlank)
    requires !flags[k] && !(blank(lines[k]) && prevBlank)
    ensures CollapsedTo(lines, flags, blank, k + 1, at + [k], out + [lines[k]], blank(lines[k]))
  {
    NextSurvivor(lines, flags, k, blank);
    ScanMore(Reading([], []), out, lines[k], blank);
    GapsMore(out, lines[k], blank, prevBlank);
    LinePicked(lines, flags, blank, k, at, out, prevBlank);
  }

  lemma CollapseEnds<T>(lines: seq<T>, flags: seq<bool>, blank: T -> bool, at: seq<nat>, out: seq<T>, prevBlank: bool)
    requires CollapsedTo(lines, flags, blank, |lines|, at, out, prevBlank)
    ensures NoDoubleGap(out, blank) && Paragraphs(out, blank) == Paragraphs(Survivors(lines, flags), blank)
    ensures CollapsesTo(lines, flags, blank, at, out)
  {
    assert lines[..|lines|] == lines && flags[..|lines|] == flags;
  }

  /** `out` holds, in order, the unflagged lines that do not repeat a blank. */
  ghost predicate CollapsesTo<T>(lines: seq<T>, flags: seq<bool>, blank: T -> bool, at: seq<nat>, out: seq<T>) {
    && |flags| == |lines| && Picks(lines, at, out)
    && forall k :: 0 <= k < |lines| ==> (k in at <==> Unrepeated(lines, flags, blank, k))
  }

  /** The rebuilding loop: drops flagged lines and repeated blanks. */
  method Collapse<T>(lines: seq<T>, flags: seq<bool>, blank: T -> bool) returns (out: seq<T>, ghost at: seq<nat>)
    requires |flags| == |lines|
    ensures NoDoubleGap(out, blank) && Paragraphs(out, blank) == Paragraphs(Survivors(lines, flags), blank)
    ensures CollapsesTo(lines, flags, blank, at, out)
  {
    out, at := [], [];
    var prevBlank := false;
    for k: nat := 0 to |lines|
      invariant CollapsedTo(lines, flags, blank, k, at, out, prevBlank)
    {
      var isBlank := blank(lines[k]);
      if flags[k] || (isBlank && prevBlank) {
        CollapseSkips(lines, flags, blank, k, at, out, prevBlank);
        continue;
      }
      CollapseKeeps(lines, flags, blank, k, at, out, prevBlank);
      out, at := out + [lines[k]], at + [k];
      prevBlank := isBlank;
    }
    CollapseEnds(lines, flags, blank, at, out, prevBlank);
  }

  /** Only blank lines lie outside lines[a..b]. */
  ghost predicate BlankOutside<T>(lines: seq<T>, blank: T -> bool, a: nat, b: nat) {
    forall i :: 0 <= i < |lines| && (i < a || b <= i) ==> blank(lines[i])
  }

  /** `out` is `lines` without some blank lines at its ends. */
  ghost predicate Cut<T>(lines: seq<T>, blank: T -> bool, a: nat, b: nat, out: seq<T>) {
    && a <= b <= |lines| && out == lines[a..b] && BlankOutside(lines, blank, a, b)
    && NoDoubleGap(out, blank) && Paragraphs(out, blank) == Paragraphs(lines, blank)
  }

  lemma CutFirst<T>(lines: seq<T>, blank: T -> bool, a: nat, b: nat, out: seq<T>)
    requires Cut(lines, blank, a, b, out) && out != [] && blank(out[0])
    ensures Cut(lines, blank, a + 1, b, out[1..])
  {
    ScanTail(Reading([], []), out, blank);
    assert out[1..] == lines[a + 1..b];
  }

  lemma CutLast<T>(lines: seq<T>, blank: T -> bool, a: nat, b: nat, out: seq<T>)
    requires Cut(lines, blank, a, b, out) && out != [] && blank(out[|out| - 1])
    ensures Cut(lines, blank, a, b - 1, out[..|out| - 1])
  {
    assert out[..|out| - 1] == lines[a..b - 1];
  }

  method DropEnds<T>(lines: seq<T>, blank: T -> bool) returns (out: seq<T>, ghost a: nat, ghost b: nat)
    requires NoDoubleGap(lines, blank)
    ensures Tidy(out, blank) && Cut(lines, blank, a, b, out)
  {
    out, a, b := lines, 0, |lines|;
    while out != [] && blank(out[0])
      invariant Cut(lines, blank, a, b, out)
      decreases |out|
    {
      CutFirst(lines, blank, a, b, out);
      out, a := out[1..], a + 1;
    }
    while out != [] && blank(out[|out| - 1])
      invariant Cut(lines, blank, a, b, out) && (out != [] ==> !blank(out[0]))
      decreases |out|
    {
      CutLast(lines, blank, a, b, out);
      out, b := out[..|out| - 1], b - 1;
    }
  }

  /** Unflagged visible lines on both sides. */
  ghost predicate Between<T>(lines: seq<T>, flags: seq<bool>, blank: T -> bool, k: nat)
    requires k < |lines| == |flags|
  {
    && (exists p :: 0 <= p < k && !flags[p] && !blank(lines[p]))
    && (exists q :: k < q < |lines| && !flags[q] && !blank(lines[q]))
  }

  /** What pruning keeps: the unflagged lines, except a blank that repeats another or
      has no visible line on one side. */
  ghost predicate Stays<T>(lines: seq<T>, flags: seq<bool>, blank: T -> bool, k: nat)
    requires k < |lines| == |flags|
  {
    Unrepeated(lines, flags, blank, k) && (blank(lines[k]) ==> Between(lines, flags, blank, k))
  }

  /** Cutting the blank ends off the collapsed list leaves the lines that stay. */
  lemma EndsCutOff<T>(lines: seq<T>, flags: seq<bool>, blank: T -> bool, at: seq<nat>, out: seq<T>, a: nat, b: nat)
    requires CollapsesTo(lines, flags, blank, at, out)
    requires a <= b <= |out| && BlankOutside(out, blank, a, b) && Tidy(out[a..b], blank)
    ensures Picks(lines, at[a..b], out[a..b])
    ensures forall k :: 0 <= k < |lines| ==> (k in at[a..b] <==> Stays(lines, flags, blank, k))
  {
    forall k | 0 <= k < |lines| ensures k in at[a..b] <==> Stays(lines, flags, blank, k) {
      if k in at[a..b] {
        var i :| a <= i < b && at[i] == k;
        InsideStays(lines, flags, blank, at, out, a, b, i);
      } else if k in at {
        var i :| 0 <= i < |at| && at[i] == k;
        OutsideGoes(lines, flags, blank, at, out, a, b, i);
      }
    }
  }

  lemma InsideStays<T>(lines: seq<T>, flags: seq<bool>, blank: T -> bool, at: seq<nat>, out: seq<T>, a: nat, b: nat,
                       i: nat)
    requires CollapsesTo(lines, flags, blank, at, out) && a <= i < b <= |out| && Tidy(out[a..b], blank)
    ensures Stays(lines, flags, blank, at[i])
  {
    var first, last := at[a], at[b - 1];
    assert out[a..b][0] == lines[first] && out[a..b][b - a - 1] == lines[last];
    assert first in at && last in at && at[i] in at;
    if blank(lines[at[i]]) {
      assert a < i < b - 1;
      assert first < at[i] < last;
    }
  }

  lemma OutsideGoes<T>(lines: seq<T>, flags: seq<bool>, blank: T -> bool, at: seq<nat>, out: seq<T>, a: nat, b: nat,
                       i: nat)
    requires CollapsesTo(lines, flags, blank, at, out) && a <= b <= |out| && BlankOutside(out, blank, a, b)
    requires i < |at| && (i < a || b <= i)
    ensures !Stays(lines, flags, blank, at[i])
  {
    forall p | 0 <= p < |lines| && !flags[p] && !blank(lines[p]) ensures if i < a then at[i] < p else p < at[i] {
      assert p in at;
      var j :| 0 <= j < |at| && at[j] == p;
      assert a <= j < b;
    }
  }

  // ---------------------------------------------------------------------- pruning

  function StripReturn(line: string): string {
    if line != [] && line[|line| - 1] == '\r' then line[..|line| - 1] else line
  }

  /** `str::lines`: a line break, with a carriage return before it, ends a line; the
      text after the last break is a line only if there is any. */
  function Lines(s: string): seq<string> {
    var pieces := Split(s);
    var n := |pieces| - 1;
    var ended := seq(n, k requires 0 <= k < n => StripReturn(pieces[k]));
    if pieces[n] == "" then ended else ended + [pieces[n]]
  }

  function TrimAll(lines: seq<string>): (r: seq<string>)
    ensures |r| == |lines| && forall k :: 0 <= k < |lines| ==> r[k] == Trim(lines[k])
  {
    seq(|lines|, k requires 0 <= k < |lines| => Trim(lines[k]))
  }

  function NoteLines(notes: seq<string>): (r: seq<seq<string>>)
    ensures |r| == |notes| && forall k :: 0 <= k < |notes| ==> r[k] == TrimAll(Lines(notes[k]))
  {
    seq(|notes|, k requires 0 <= k < |notes| => TrimAll(Lines(notes[k])))
  }

  function Rebuilt(source: string, lines: seq<string>): string {
    if lines == [] then ""
    else
      var text := Join(lines);
      if text != "" && source != "" && source[|source| - 1] == '\n' then text + "\n" else text
  }

  predicate EndsInReturn(s: string) { s != "" && s[|s| - 1] == '\r' }

  /** Lines that each end in the same break. */
  function Ended(lines: seq<string>, end: string): string {
    if lines == [] then "" else Ended(lines[..|lines| - 1], end) + lines[|lines| - 1] + end
  }

  predicate PlainLine(line: string) { '\n' !in line && !EndsInReturn(line) }

  /** Both kinds of line ends are read, with or without one at the very end. */
  lemma {:induction false} LinesReadBack(lines: seq<string>, end: string, last: string)
    requires end == "\n" || end == "\r\n"
    requires (forall k :: 0 <= k < |lines| ==> PlainLine(lines[k])) && '\n' !in last
    ensures Lines(Ended(lines, end) + last) == if last == "" then lines else lines + [last]
  {
    EndedPieces(lines, end, last);
    var pieces := Split(Ended(lines, end) + last);
    forall k | 0 <= k < |lines| ensures StripReturn(pieces[k]) == lines[k] {
      if end == "\r\n" { assert pieces[k][..|lines[k]|] == lines[k]; }
    }
  }

  lemma {:induction false} EndedPieces(lines: seq<string>, end: string, last: string)
    requires end == "\n" || end == "\r\n"
    requires (forall k :: 0 <= k < |lines| ==> PlainLine(lines[k])) && '\n' !in last
    ensures var pieces := Split(Ended(lines, end) + last);
      && |pieces| == |lines| + 1 && pieces[|lines|] == last
      && forall k :: 0 <= k < |lines| ==> pieces[k] == lines[k] + if end == "\n" then "" else "\r"
  {
    OnePiece(last, '\n');
    if lines == [] {
      assert Ended(lines, end) + last == last;
    } else {
      var n := |lines| - 1;
      var tail := lines[n] + if end == "\n" then "" else "\r";
      var before := Ended(lines[..n], end) + tail;
      EndedPieces(lines[..n], end, tail);
      EndRegrouped(Ended(lines[..n], end), lines[n], end, last);
      PiecesOfJoin(before, last, '\n');
      OneMorePiece(Split(before), Split(before + ['\n'] + last), last, lines, n, if end == "\n" then "" else "\r");
    }
  }

  lemma EndRegrouped(text: string, line: string, end: string, last: string)
    requires end == "\n" || end == "\r\n"
    ensures text + line + end + last == text + (line + if end == "\n" then "" else "\r") + ['\n'] + last
  {}

  lemma OneMorePiece(before: seq<string>, pieces: seq<string>, last: string, lines: seq<string>, n: nat, mark: string)
    requires n < |lines| && |before| == n + 1 && before[n] == lines[n] + mark && pieces == before + [last]
    requires forall k :: 0 <= k < n ==> before[k] == lines[..n][k] + mark
    ensures |pieces| == n + 2 && pieces[n + 1] == last && forall k :: 0 <= k <= n ==> pieces[k] == lines[k] + mark
  {}

  // ------------------------------------------------------------- the text returned

  predicate EndsInBreak(s: string) { s != "" && s[|s| - 1] == '\n' }

  lemma StripKeepsBlank(line: string)
    ensures Blank(StripReturn(line)) <==> Blank(line)
  {
    assert IsWhitespace('\r');
  }

  lemma TrimOfBlank(s: string)
    requires Blank(s)
    ensures Trim(s) == ""
  {}

  lemma {:induction false} TrailIs(s: string, n: nat)
    requires n < |s| && !IsWhitespace(s[|s| - 1 - n]) && forall i :: |s| - n <= i < |s| ==> IsWhitespace(s[i])
    ensures Trail(s) == n
  {
    if n > 0 { TrailIs(s[..|s| - 1], n - 1); }
  }

  /** The core between the first and the last visible character is what trimming leaves. */
  lemma TrimIsCore(s: string, n: nat, e: nat)
    requires n < e <= |s| && !IsWhitespace(s[n]) && !IsWhitespace(s[e - 1])
    requires forall i :: 0 <= i < |s| && (i < n || e <= i) ==> IsWhitespace(s[i])
    ensures Trim(s) == s[n..e]
  {
    LeadIs(s, n);
    TrailIs(s[n..], |s| - e);
  }

  /** White space at the end is trimmed anyway. */
  lemma TrimEnd(s: string)
    requires s != [] && IsWhitespace(s[|s| - 1])
    ensures Trim(s[..|s| - 1]) == Trim(s)
  {
    var front := s[..|s| - 1];
    if Blank(s) {
      TrimOfBlank(s);
      TrimOfBlank(front);
    } else {
      var n, e := VisibleEnds(s);
      TrimIsCore(s, n, e);
      TrimIsCore(front, n, e);
      assert front[n..e] == s[n..e];
    }
  }

  lemma VisibleEnds(s: string) returns (n: nat, e: nat)
    requires !Blank(s)
    ensures n < e <= |s| && !IsWhitespace(s[n]) && !IsWhitespace(s[e - 1])
    ensures forall i :: 0 <= i < |s| && (i < n || e <= i) ==> IsWhitespace(s[i])
  {
    n, e := Lead(s), |s| - Trail(s);
  }

  /** A carriage return at the end is trimmed anyway. */
  lemma StripKeepsTrim(line: string)
    ensures Trim(StripReturn(line)) == Trim(line)
  {
    if line != [] && line[|line| - 1] == '\r' { TrimEnd(line); }
  }

  lemma {:induction false} LinesHoldNoBreak(s: string)
    ensures forall k :: 0 <= k < |Lines(s)| ==> '\n' !in Lines(s)[k]
  {
    PiecesHoldNoSeparator(s, '\n');
  }

  /** Line i of the rebuilt text, for a kept line: a carriage return before the line
      break that follows goes. */
  function LineBack(source: string, kept: seq<string>, i: nat): string
    requires i < |kept|
  {
    if i < |kept| - 1 || EndsInBreak(source) then StripReturn(kept[i]) else kept[i]
  }

  /** The rebuilt text reads back as the kept lines. */
  lemma RebuiltReadsBack(source: string, kept: seq<string>)
    requires forall k :: 0 <= k < |kept| ==> '\n' !in kept[k]
    requires kept != [] ==> kept[|kept| - 1] != ""
    ensures |Lines(Rebuilt(source, kept))| == |kept|
    ensures forall i :: 0 <= i < |kept| ==> Lines(Rebuilt(source, kept))[i] == LineBack(source, kept, i)
  {
    if kept != [] {
      var text := Join(kept);
      JoinSplits(kept);
      assert text != "";
      if EndsInBreak(source) {
        PiecesOfOneMore(text, '\n', '\n');
        assert Split(text + "\n") == kept + [""];
      }
    }
  }

  /** A carriage return right before a line break. */
  ghost predicate HasReturnBreak(s: string) {
    exists i :: 0 <= i < |s| - 1 && s[i] == '\r' && s[i + 1] == '\n'
  }

  lemma ReturnBreakInJoin(a: string, b: string)
    requires '\n' !in b
    ensures HasReturnBreak(a + "\n" + b) <==> HasReturnBreak(a) || EndsInReturn(a)
  {
    var s := a + "\n" + b;
    assert forall i :: |a| < i < |s| ==> s[i] == b[i - |a| - 1];
    assert forall i :: 0 <= i < |a| ==> s[i] == a[i];
    if HasReturnBreak(a) {
      var i :| 0 <= i < |a| - 1 && a[i] == '\r' && a[i + 1] == '\n';
      assert s[i] == '\r' && s[i + 1] == '\n';
    }
    if EndsInReturn(a) { assert s[|a| - 1] == '\r' && s[|a|] == '\n'; }
  }

  lemma {:induction false} JoinedReturns(kept: seq<string>)
    requires kept != [] && forall k :: 0 <= k < |kept| ==> '\n' !in kept[k]
    ensures HasReturnBreak(Join(kept)) <==> exists k :: 0 <= k < |kept| - 1 && EndsInReturn(kept[k])
    ensures EndsInReturn(Join(kept)) <==> EndsInReturn(kept[|kept| - 1])
  {
    var n := |kept| - 1;
    if n > 0 {
      JoinedReturns(kept[..n]);
      ReturnBreakInJoin(Join(kept[..n]), kept[n]);
    }
  }

  /** Line ends are rewritten: the text has a carriage return before a break exactly where
      a line, its own return already taken off, ends in another one. */
  lemma ReturnsAreDropped(source: string, kept: seq<string>)
    requires (forall k :: 0 <= k < |kept| ==> '\n' !in kept[k]) && (kept != [] ==> kept[|kept| - 1] != "")
    ensures HasReturnBreak(Rebuilt(source, kept)) <==>
      exists k :: 0 <= k < |kept| && (k < |kept| - 1 || EndsInBreak(source)) && EndsInReturn(kept[k])
  {
    if kept != [] {
      JoinedReturns(kept);
      JoinSplits(kept);
      assert Join(kept) != "";
      ReturnBreakInJoin(Join(kept), "");
      assert Join(kept) + "\n" + "" == Join(kept) + "\n";
    }
  }

  lemma TidyAlike<T>(xs: seq<T>, ys: seq<T>, blank: T -> bool)
    requires |xs| == |ys| && Tidy(xs, blank) && forall i :: 0 <= i < |xs| ==> (blank(xs[i]) <==> blank(ys[i]))
    ensures Tidy(ys, blank)
  {}

  lemma LineBackAlike(source: string, kept: seq<string>, i: nat)
    requires i < |kept|
    ensures Blank(kept[i]) <==> Blank(LineBack(source, kept, i))
    ensures Trim(LineBack(source, kept, i)) == Trim(kept[i])
  {
    StripKeepsBlank(kept[i]);
    StripKeepsTrim(kept[i]);
  }

  lemma TidyBack(source: string, kept: seq<string>, back: seq<string>)
    requires Tidy(kept, BlankLine()) && |back| == |kept|
    requires forall i :: 0 <= i < |kept| ==> back[i] == LineBack(source, kept, i)
    ensures Tidy(back, BlankLine()) && TrimAll(back) == TrimAll(kept)
  {
    forall i | 0 <= i < |kept| ensures Blank(kept[i]) == Blank(back[i]) && Trim(back[i]) == Trim(kept[i]) {
      LineBackAlike(source, kept, i);
    }
    TidyAlike(kept, back, BlankLine());
  }

  lemma TrimKeepsBlank(line: string)
    ensures Blank(Trim(line)) <==> Blank(line)
  {
    if !Blank(line) { TrimStarts(line); }
  }

  function TrimGroups(groups: seq<seq<string>>): (r: seq<seq<string>>)
    ensures |r| == |groups| && forall k :: 0 <= k < |groups| ==> r[k] == TrimAll(groups[k])
  {
    seq(|groups|, k requires 0 <= k < |groups| => TrimAll(groups[k]))
  }

  function TrimReading(r: Reading<string>): Reading<string> {
    Reading(TrimGroups(r.closed), TrimAll(r.run))
  }

  lemma ReadOfTrimmed(r: Reading<string>, line: string)
    ensures Read(TrimReading(r), Trim(line), BlankLine()) == TrimReading(Read(r, line, BlankLine()))
  {
    TrimKeepsBlank(line);
    assert TrimAll(r.run + [line]) == TrimAll(r.run) + [Trim(line)];
    assert TrimGroups(r.closed + [r.run]) == TrimGroups(r.closed) + [TrimAll(r.run)];
    assert TrimAll([]) == [];
  }

  lemma {:induction false} ScanOfTrimmed(lines: seq<string>)
    ensures Scan(Reading([], []), TrimAll(lines), BlankLine()) == TrimReading(Scan(Reading([], []), lines, BlankLine()))
  {
    if lines == [] {
      assert TrimReading(Reading([], [])) == Reading([], []);
    } else {
      var n := |lines| - 1;
      ScanOfTrimmed(lines[..n]);
      assert TrimAll(lines)[..n] == TrimAll(lines[..n]);
      ReadOfTrimmed(Scan(Reading([], []), lines[..n], BlankLine()), lines[n]);
    }
  }

  /** Trimming every line trims the paragraphs. */
  lemma ParagraphsOfTrimmed(lines: seq<string>)
    ensures Paragraphs(TrimAll(lines), BlankLine()) == TrimGroups(Paragraphs(lines, BlankLine()))
  {
    ScanOfTrimmed(lines);
    var r := Scan(Reading([], []), lines, BlankLine());
    assert TrimGroups(r.closed + [r.run]) == TrimGroups(r.closed) + [TrimAll(r.run)];
  }

  /** Without a removal the source comes back verbatim. Otherwise the text reads back,
      line by line and up to a carriage return, as the lines of the source that stay:
      it is tidy and has the paragraphs of the lines outside the windows. */
  method Prune(source: string, notes: seq<string>)
    returns (text: string, removed: nat, ghost windows: seq<Window>, ghost flags: seq<bool>, ghost at: seq<nat>)
    ensures MarkedUpTo(TrimAll(Lines(source)), NoteLines(notes), windows, flags, |notes|) && removed == |windows|
    ensures removed == 0 ==> text == source
    ensures removed > 0 ==> IsPruned(source, flags, at, text)
  {
    var lines := Lines(source);
    var marks, found;
    marks, removed, found := MarkNotes(TrimAll(lines), NoteLines(notes));
    flags, windows := marks, found;
    if removed == 0 {
      return source, 0, windows, flags, [];
    }
    var collapsed, places := Collapse(lines, marks, BlankLine());
    var out, a, b := DropEnds(collapsed, BlankLine());
    EndsCutOff(lines, marks, BlankLine(), places, collapsed, a, b);
    at := places[a..b];
    text := Rebuilt(source, out);
    PrunedText(source, flags, at, out);
  }

  /** The lines at `at` are those that stay, joined again, and what can be read in the
      text itself. */
  ghost predicate IsPruned(source: string, flags: seq<bool>, at: seq<nat>, text: string) {
    var lines := Lines(source);
    && |flags| == |lines| && (forall i :: 0 <= i < |at| ==> at[i] < |lines|)
    && (forall i, j :: 0 <= i < j < |at| ==> at[i] < at[j])
    && (forall k :: 0 <= k < |lines| ==> (k in at <==> Stays(lines, flags, BlankLine(), k)))
    && text == Rebuilt(source, LinesAt(lines, at))
    && |Lines(text)| == |at|
    && (forall i :: 0 <= i < |at| ==> Lines(text)[i] == LineBack(source, LinesAt(lines, at), i))
    && Tidy(Lines(text), BlankLine())
    && Paragraphs(TrimAll(Lines(text)), BlankLine()) == Paragraphs(TrimAll(Survivors(lines, flags)), BlankLine())
  }

  function LinesAt(lines: seq<string>, at: seq<nat>): (r: seq<string>)
    requires forall i :: 0 <= i < |at| ==> at[i] < |lines|
    ensures |r| == |at| && forall i :: 0 <= i < |at| ==> r[i] == lines[at[i]]
  {
    seq(|at|, i requires 0 <= i < |at| => lines[at[i]])
  }

  lemma PrunedText(source: string, flags: seq<bool>, at: seq<nat>, out: seq<string>)
    requires var lines := Lines(source);
      && |flags| == |lines| && Picks(lines, at, out) && Tidy(out, BlankLine())
      && (forall k :: 0 <= k < |lines| ==> (k in at <==> Stays(lines, flags, BlankLine(), k)))
      && Paragraphs(out, BlankLine()) == Paragraphs(Survivors(lines, flags), BlankLine())
    ensures IsPruned(source, flags, at, Rebuilt(source, out))
  {
    var lines := Lines(source);
    LinesHoldNoBreak(source);
    assert out == LinesAt(lines, at);
    RebuiltReadsBack(source, out);
    TidyBack(source, out, Lines(Rebuilt(source, out)));
    ParagraphsOfTrimmed(out);
    ParagraphsOfTrimmed(Survivors(lines, flags));
  }
}
