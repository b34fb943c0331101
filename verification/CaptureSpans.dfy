/** Spanned candidate splitting (src/capture.rs): a payload of one of three shapes
    is cut into trimmed candidates, each with its character span. Whether a trimmed
    line parses as a JSON object is an input. */
module CaptureSpans {
  import opened Options
  import opened Text
  import opened Utf8
  import opened LineRuns

  const MIN_CANDIDATE_CHARS := 16

  datatype Span = Span(start: nat, end: nat)
  datatype Candidate = Candidate(text: string, span: Span)

  // ----------------------------------------------------------------- trimming

  /** Number of leading white-space characters. */
  function Lead(s: string): (n: nat)
    ensures n <= |s| && (n < |s| ==> !IsWhitespace(s[n]))
    ensures forall i :: 0 <= i < n ==> IsWhitespace(s[i])
  {
    if s == [] || !IsWhitespace(s[0]) then 0 else 1 + Lead(s[1..])
  }

  /** Number of trailing white-space characters. */
  function Trail(s: string): (n: nat)
    ensures n <= |s| && (n < |s| ==> !IsWhitespace(s[|s| - 1 - n]))
    ensures forall i :: |s| - n <= i < |s| ==> IsWhitespace(s[i])
  {
    if s == [] || !IsWhitespace(s[|s| - 1]) then 0 else 1 + Trail(s[..|s| - 1])
  }

  function Trim(s: string): string {
    var n := Lead(s);
    s[n..][..|s| - n - Trail(s[n..])]
  }

  lemma {:induction false} LeadIs(s: string, n: nat)
    requires n < |s| && !IsWhitespace(s[n]) && forall i :: 0 <= i < n ==> IsWhitespace(s[i])
    ensures Lead(s) == n
  {
    if n > 0 { LeadIs(s[1..], n - 1); }
  }

  /** Trimmed text starts with the first visible character. */
  lemma TrimStarts(line: string)
    requires !Blank(line)
    ensures Lead(line) < |line| && Trim(line) != [] && Trim(line)[0] == line[Lead(line)]
  {
    var n := Lead(line);
    assert line[n..][0] == line[n];
    assert Trail(line[n..]) < |line| - n;
  }

  /** The span and text of the non-blank core of a raw range. */
  function TrimmedSpan(payload: string, start: nat, end: nat): Option<Candidate> {
    if start > end || end > |payload| || start == |payload| then None
    else
      var raw := payload[start..end];
      CutCore(raw, start, Lead(raw), Trail(raw))
  }

  function CutCore(raw: string, start: nat, lead: nat, trail: nat): Option<Candidate> {
    if lead + trail >= |raw| then None
    else Some(Candidate(raw[lead..][..|raw| - lead - trail], Span(start + lead, start + |raw| - trail)))
  }

  /** `c` is the non-blank core of the range: it begins and ends on a visible
      character, quotes the payload, and leaves only white space outside. */
  ghost predicate CoreOf(payload: string, start: nat, end: nat, c: Candidate) {
    && start <= c.span.start < c.span.end <= end <= |payload|
    && c.text == payload[c.span.start..c.span.end]
    && !IsWhitespace(payload[c.span.start]) && !IsWhitespace(payload[c.span.end - 1])
    && (forall p :: start <= p < c.span.start ==> IsWhitespace(payload[p]))
    && (forall p :: c.span.end <= p < end ==> IsWhitespace(payload[p]))
  }

  /** A range yields its core exactly when something visible lies in it. */
  lemma TrimmedSpanIsCore(payload: string, start: nat, end: nat)
    requires start <= end <= |payload|
    ensures TrimmedSpan(payload, start, end).None? ==> forall p :: start <= p < end ==> IsWhitespace(payload[p])
    ensures TrimmedSpan(payload, start, end).Some? ==>
      CoreOf(payload, start, end, TrimmedSpan(payload, start, end).value)
  {
    var raw := payload[start..end];
    CoreOfSlice(payload, start, end, raw, Lead(raw), Trail(raw));
  }

  lemma CoreOfSlice(payload: string, start: nat, end: nat, raw: string, lead: nat, trail: nat)
    requires start <= end <= |payload| && raw == payload[start..end] && lead <= |raw| && trail <= |raw|
    requires forall i :: 0 <= i < lead ==> IsWhitespace(raw[i])
    requires forall i :: |raw| - trail <= i < |raw| ==> IsWhitespace(raw[i])
    requires lead < |raw| ==> !IsWhitespace(raw[lead])
    requires trail < |raw| ==> !IsWhitespace(raw[|raw| - 1 - trail])
    ensures CutCore(raw, start, lead, trail).None? ==> forall p :: start <= p < end ==> IsWhitespace(payload[p])
    ensures CutCore(raw, start, lead, trail).Some? ==>
      CoreOf(payload, start, end, CutCore(raw, start, lead, trail).value)
  {
    forall p | start <= p < end ensures payload[p] == raw[p - start] {}
    if lead + trail < |raw| {
      assert raw[lead..][..|raw| - lead - trail] == payload[start + lead..end - trail];
      assert payload[start + lead] == raw[lead] && payload[end - trail - 1] == raw[|raw| - 1 - trail];
    }
  }

  /** `span_text`: the bytes between the two character offsets. A span that starts
      at the very end of the payload is refused even when it is empty. */
  function SpanText(payload: string, span: Span): Option<seq<Byte>> {
    if span.start > span.end || span.end > |payload| || span.start == |payload| then None
    else
      SliceIsEncoding(payload, span.start, span.end);
      Some(Encode(payload)[Offset(payload, span.start)..Offset(payload, span.end)])
  }

  lemma SpanTextIsVerbatim(payload: string, span: Span)
    requires span.start <= span.end <= |payload|
    ensures span.start < |payload| ==> SpanText(payload, span) == Some(Encode(payload[span.start..span.end]))
    ensures span.start == |payload| ==> SpanText(payload, span) == None
  {
    SliceIsEncoding(payload, span.start, span.end);
  }

  // -------------------------------------------------------------------- lines

  function BlankLine(): string -> bool { (line: string) => Blank(line) }

  /** `split('\n')`. */
  function Split(s: string): (lines: seq<string>)
    ensures lines != []
  {
    Pieces(s, '\n')
  }

  function Join(lines: seq<string>): string
    requires lines != []
  {
    if |lines| == 1 then lines[0] else Join(lines[..|lines| - 1]) + "\n" + lines[|lines| - 1]
  }

  lemma {:induction false} SplitJoins(s: string)
    ensures Join(Split(s)) == s
  {
    if s != [] {
      var lines, c := Split(s[..|s| - 1]), s[|s| - 1];
      SplitJoins(s[..|s| - 1]);
      JoinNewLine(lines);
      JoinGrows(lines[..|lines| - 1], lines[|lines| - 1], c);
      assert lines == lines[..|lines| - 1] + [lines[|lines| - 1]] && s == s[..|s| - 1] + [c];
    }
  }

  /** Lines without line breaks are read back. */
  lemma {:induction false} JoinSplits(lines: seq<string>)
    requires lines != [] && forall k :: 0 <= k < |lines| ==> '\n' !in lines[k]
    ensures Split(Join(lines)) == lines
  {
    var n := |lines| - 1;
    OnePiece(lines[n], '\n');
    if n > 0 {
      JoinSplits(lines[..n]);
      PiecesOfJoin(Join(lines[..n]), lines[n], '\n');
      assert lines == lines[..n] + [lines[n]];
    }
  }

  lemma JoinNewLine(lines: seq<string>)
    requires lines != []
    ensures Join(lines + [""]) == Join(lines) + "\n"
  {
    JoinLast(lines, "");
    assert Join(lines) + "\n" + "" == Join(lines) + "\n";
  }

  lemma JoinGrows(front: seq<string>, last: string, c: char)
    ensures Join(front + [last + [c]]) == Join(front + [last]) + [c]
  {
    JoinLast(front, last);
    JoinLast(front, last + [c]);
    if front != [] { ConcatAssociates(Join(front) + "\n", last, [c]); }
  }

  lemma JoinLast(lines: seq<string>, last: string)
    ensures Join(lines + [last]) == if lines == [] then last else Join(lines) + "\n" + last
  {
    assert (lines + [last])[..|lines|] == lines;
  }

  lemma ConcatAssociates(x: string, y: string, z: string)
    ensures x + (y + z) == x + y + z
  {}

  /** Character offset at which line `k` starts. */
  function Start(lines: seq<string>, k: nat): nat
    requires k <= |lines|
  {
    if k == 0 then 0 else Start(lines, k - 1) + |lines[k - 1]| + 1
  }

  function End(lines: seq<string>, k: nat): nat
    requires k < |lines|
  {
    Start(lines, k) + |lines[k]|
  }

  lemma {:induction false} StartOfPrefix(lines: seq<string>, n: nat, k: nat)
    requires k <= n <= |lines|
    ensures Start(lines[..n], k) == Start(lines, k)
  {
    if k > 0 { StartOfPrefix(lines, n, k - 1); }
  }

  lemma {:induction false} StartGrows(lines: seq<string>, j: nat, k: nat)
    requires j < k <= |lines|
    ensures End(lines, j) < Start(lines, k)
  {
    if j < k - 1 { StartGrows(lines, j, k - 1); }
  }

  lemma {:induction false} JoinLength(lines: seq<string>)
    requires lines != []
    ensures |Join(lines)| == End(lines, |lines| - 1)
  {
    var n := |lines| - 1;
    if n > 0 {
      JoinLength(lines[..n]);
      StartOfPrefix(lines, n, n);
      StartOfPrefix(lines, n, n - 1);
      assert lines[..n][n - 1] == lines[n - 1];
    }
  }

  /** Lines are read off the text at their offsets, and a line break follows every
      line but the last. */
  lemma {:induction false} LineInText(lines: seq<string>, k: nat)
    requires k < |lines|
    ensures End(lines, k) <= |Join(lines)| && Join(lines)[Start(lines, k)..End(lines, k)] == lines[k]
    ensures k < |lines| - 1 ==> End(lines, k) < |Join(lines)| && Join(lines)[End(lines, k)] == '\n'
  {
    var n := |lines| - 1;
    JoinLength(lines);
    if n > 0 {
      var front := lines[..n];
      JoinLength(front);
      StartOfPrefix(lines, n, n - 1);
      StartOfPrefix(lines, n, n);
      if k < n {
        StartOfPrefix(lines, n, k);
        LineInText(front, k);
        PrefixSlice(Join(front), "\n" + lines[n], Start(lines, k), End(lines, k));
        assert Join(lines) == Join(front) + ("\n" + lines[n]);
        assert Join(lines)[|Join(front)|] == '\n';
      } else {
        assert Join(lines)[|Join(front)| + 1..] == lines[n];
      }
    }
  }

  lemma PrefixSlice(s: string, t: string, a: nat, b: nat)
    requires a <= b <= |s|
    ensures (s + t)[a..b] == s[a..b] && forall i :: 0 <= i < |s| ==> (s + t)[i] == s[i]
  {}

  /** Every visible character is on some line, and that line is not blank. */
  lemma VisibleLine(lines: seq<string>, p: nat) returns (k: nat)
    requires lines != [] && p < |Join(lines)| && !IsWhitespace(Join(lines)[p])
    ensures k < |lines| && Start(lines, k) <= p < End(lines, k) && !Blank(lines[k])
  {
    k := 0;
    JoinLength(lines);
    while k + 1 < |lines| && Start(lines, k + 1) <= p
      invariant k < |lines| && Start(lines, k) <= p
    {
      k := k + 1;
    }
    LineInText(lines, k);
    assert lines[k][p - Start(lines, k)] == Join(lines)[p];
  }

  // ------------------------------------------------------------------- ranges

  /** In bounds, in order, and at least one character apart. */
  ghost predicate Separated(s: string, ranges: seq<Span>) {
    && (forall k :: 0 <= k < |ranges| ==> ranges[k].start <= ranges[k].end <= |s|)
    && (forall k, l :: 0 <= k < l < |ranges| ==> ranges[k].end < ranges[l].start)
  }

  /** Every visible character lies in a range. */
  ghost predicate Covers(s: string, ranges: seq<Span>) {
    forall p :: 0 <= p < |s| && !IsWhitespace(s[p]) ==>
      exists k :: 0 <= k < |ranges| && ranges[k].start <= p < ranges[k].end
  }

  /** The character range of a run of lines. */
  function RangeOf(lines: seq<string>, b: Block): Span {
    if b.first <= b.last < |lines| then Span(Start(lines, b.first), End(lines, b.last)) else Span(0, 0)
  }

  function Ranges(lines: seq<string>, blocks: seq<Block>): (ranges: seq<Span>)
    ensures |ranges| == |blocks| && forall k :: 0 <= k < |blocks| ==> ranges[k] == RangeOf(lines, blocks[k])
  {
    seq(|blocks|, k requires 0 <= k < |blocks| => RangeOf(lines, blocks[k]))
  }

  lemma RangesMore(lines: seq<string>, blocks: seq<Block>, b: Block)
    ensures Ranges(lines, blocks + [b]) == Ranges(lines, blocks) + [RangeOf(lines, b)]
  {}

  lemma BlocksAreSeparated(lines: seq<string>, blocks: seq<Block>)
    requires lines != [] && Ordered(|lines|, blocks)
    ensures Separated(Join(lines), Ranges(lines, blocks))
  {
    var ranges := Ranges(lines, blocks);
    forall k | 0 <= k < |ranges| ensures ranges[k].start <= ranges[k].end <= |Join(lines)| {
      BlockInBounds(lines, blocks[k]);
    }
    forall k, l | 0 <= k < l < |ranges| ensures ranges[k].end < ranges[l].start {
      StartGrows(lines, blocks[k].last, blocks[l].first);
    }
  }

  lemma BlockInBounds(lines: seq<string>, b: Block)
    requires b.first <= b.last < |lines|
    ensures Start(lines, b.first) <= End(lines, b.last) <= |Join(lines)|
  {
    LineInText(lines, b.last);
    if b.first < b.last { StartGrows(lines, b.first, b.last); }
  }

  /** Runs that hold every non-blank line lose no visible character. */
  lemma BlocksCover(lines: seq<string>, blocks: seq<Block>)
    requires lines != [] && Ordered(|lines|, blocks)
    requires forall j :: 0 <= j < |lines| && !Blank(lines[j]) ==> InSome(blocks, j)
    ensures Covers(Join(lines), Ranges(lines, blocks))
  {
    var ranges := Ranges(lines, blocks);
    forall p | 0 <= p < |Join(lines)| && !IsWhitespace(Join(lines)[p])
      ensures exists k :: 0 <= k < |ranges| && ranges[k].start <= p < ranges[k].end
    {
      var j := VisibleLine(lines, p);
      assert InSome(blocks, j);
      var k :| 0 <= k < |blocks| && Holds(blocks[k], j);
      HeldLine(lines, blocks[k], j);
      assert ranges[k].start <= p < ranges[k].end;
    }
  }

  lemma HeldLine(lines: seq<string>, b: Block, j: nat)
    requires b.last < |lines| && Holds(b, j)
    ensures Start(lines, b.first) <= Start(lines, j) && End(lines, j) <= End(lines, b.last)
  {
    if b.first < j { StartGrows(lines, b.first, j); }
    if j < b.last { StartGrows(lines, j, b.last); }
  }

  // ------------------------------------------------------------ the three shapes

  /** JSON lines: every record line is a run of its own. */
  function RecordKinds(lines: seq<string>, record: string -> bool): (kinds: seq<Kind>)
    ensures |kinds| == |lines|
    ensures forall j :: 0 <= j < |lines| ==> kinds[j] == if record(lines[j]) then Opens else Outside
  {
    seq(|lines|, j requires 0 <= j < |lines| => if record(lines[j]) then Opens else Outside)
  }

  /** Headed text: the first line and every heading open a section; every other
      line belongs to the section before it. */
  function SectionKinds(lines: seq<string>, heading: string -> bool): (kinds: seq<Kind>)
    ensures |kinds| == |lines|
    ensures forall j :: 0 <= j < |lines| ==> kinds[j] == if j == 0 || heading(lines[j]) then Opens else Continues
  {
    seq(|lines|, j requires 0 <= j < |lines| => if j == 0 || heading(lines[j]) then Opens else Continues)
  }

  /** Plain text: a blank line is in no paragraph, and a line after a blank one
      opens the next. */
  function ParagraphKinds(lines: seq<string>, blank: string -> bool): (kinds: seq<Kind>)
    ensures |kinds| == |lines|
    ensures forall j :: 0 <= j < |lines| ==>
      kinds[j] == if blank(lines[j]) then Outside else if j == 0 || blank(lines[j - 1]) then Opens else Continues
  {
    seq(|lines|, j requires 0 <= j < |lines| =>
      if blank(lines[j]) then Outside else if j == 0 || blank(lines[j - 1]) then Opens else Continues)
  }

  lemma RunsMore(kinds: seq<Kind>, k: nat)
    requires k < |kinds|
    ensures kinds[k] == Outside ==> Runs(kinds[..k + 1]) == Runs(kinds[..k])
    ensures kinds[k] == Opens ==> Runs(kinds[..k + 1]) == Runs(kinds[..k]) + [Block(k, k)]
    ensures kinds[k] == Continues ==> Runs(kinds[..k + 1]) == Extended(Runs(kinds[..k]), k)
    ensures Runs(kinds[..0]) == [] && kinds[..|kinds|] == kinds
  {
    assert kinds[..k + 1][..k] == kinds[..k];
  }

  lemma ExtendLast(closed: seq<Block>, first: nat, n: nat, m: nat)
    ensures Extended(closed + [Block(first, n)], m) == closed + [Block(first, m)]
  {
    assert (closed + [Block(first, n)])[..|closed|] == closed;
  }

  method RecordRanges(lines: seq<string>, record: string -> bool) returns (ranges: seq<Span>)
    ensures ranges == Ranges(lines, Runs(RecordKinds(lines, record)))
  {
    ranges := [];
    ghost var kinds := RecordKinds(lines, record);
    var pos: nat := 0;
    for k := 0 to |lines|
      invariant pos == Start(lines, k) && ranges == Ranges(lines, Runs(kinds[..k]))
    {
      RunsMore(kinds, k);
      if record(lines[k]) {
        RangesMore(lines, Runs(kinds[..k]), Block(k, k));
        ranges := ranges + [Span(pos, pos + |lines[k]|)];
      }
      pos := pos + |lines[k]| + 1;
    }
    assert kinds[..|lines|] == kinds;
  }

  /** The open run, its range not yet pushed. */
  ghost predicate Pending(lines: seq<string>, kinds: seq<Kind>, k: nat, closed: seq<Block>, first: nat, start: nat,
                          end: nat) {
    && first < k <= |lines| && |kinds| == |lines|
    && Runs(kinds[..k]) == closed + [Block(first, k - 1)] && start == Start(lines, first) && end == End(lines, k - 1)
  }

  lemma PendingOpens(lines: seq<string>, kinds: seq<Kind>, k: nat)
    requires k < |lines| == |kinds| && kinds[k] == Opens
    ensures Pending(lines, kinds, k + 1, Runs(kinds[..k]), k, Start(lines, k), End(lines, k))
  {
    RunsMore(kinds, k);
  }

  lemma PendingContinues(lines: seq<string>, kinds: seq<Kind>, k: nat, closed: seq<Block>, first: nat, start: nat,
                         end: nat)
    requires k < |lines| && Pending(lines, kinds, k, closed, first, start, end) && kinds[k] == Continues
    ensures Pending(lines, kinds, k + 1, closed, first, start, End(lines, k))
  {
    RunsMore(kinds, k);
    ExtendLast(closed, first, k - 1, k);
  }

  lemma PendingCloses(lines: seq<string>, kinds: seq<Kind>, k: nat, closed: seq<Block>, first: nat, start: nat,
                      end: nat)
    requires Pending(lines, kinds, k, closed, first, start, end)
    ensures Ranges(lines, Runs(kinds[..k])) == Ranges(lines, closed) + [Span(start, end)]
  {
    RangesMore(lines, closed, Block(first, k - 1));
    if first < k - 1 { StartGrows(lines, first, k - 1); }
  }

  /** One of the first k lines is a heading. */
  ghost predicate HeadedBy(lines: seq<string>, heading: string -> bool, k: nat) {
    exists j :: 0 <= j < k && j < |lines| && heading(lines[j])
  }

  lemma HeadedByMore(lines: seq<string>, heading: string -> bool, k: nat)
    requires k < |lines|
    ensures HeadedBy(lines, heading, k + 1) <==> HeadedBy(lines, heading, k) || heading(lines[k])
  {}

  method SectionRanges(lines: seq<string>, heading: string -> bool) returns (ranges: seq<Span>, headed: bool)
    requires lines != []
    ensures ranges == Ranges(lines, Runs(SectionKinds(lines, heading)))
    ensures headed <==> HeadedBy(lines, heading, |lines|)
  {
    ranges, headed := [], false;
    ghost var kinds := SectionKinds(lines, heading);
    var pos: nat := 0;
    var currentStart: Option<nat> := None;
    var currentEnd: nat := 0;
    ghost var closed: seq<Block>, first := [], 0;
    for k: nat := 0 to |lines|
      invariant pos == Start(lines, k) && ranges == Ranges(lines, closed)
      invariant headed <==> HeadedBy(lines, heading, k)
      invariant currentStart.Some? <==> k > 0
      invariant k == 0 ==> closed == Runs(kinds[..0])
      invariant k > 0 ==> Pending(lines, kinds, k, closed, first, currentStart.value, currentEnd)
    {
      HeadedByMore(lines, heading, k);
      if heading(lines[k]) {
        headed := true;
        if currentStart.Some? {
          PendingCloses(lines, kinds, k, closed, first, currentStart.value, currentEnd);
          ranges := ranges + [Span(currentStart.value, currentEnd)];
          closed := Runs(kinds[..k]);
        }
        PendingOpens(lines, kinds, k);
        first, currentStart := k, Some(pos);
      } else if currentStart.None? {
        PendingOpens(lines, kinds, k);
        first, currentStart := k, Some(pos);
      } else {
        PendingContinues(lines, kinds, k, closed, first, currentStart.value, currentEnd);
      }
      currentEnd := pos + |lines[k]|;
      pos := pos + |lines[k]| + 1;
    }
    PendingCloses(lines, kinds, |lines|, closed, first, currentStart.value, currentEnd);
    ranges := ranges + [Span(currentStart.value, currentEnd)];
    assert kinds[..|lines|] == kinds;
  }

  method ParagraphRanges(lines: seq<string>, blank: string -> bool) returns (ranges: seq<Span>)
    ensures ranges == Ranges(lines, Runs(ParagraphKinds(lines, blank)))
  {
    ranges := [];
    ghost var kinds := ParagraphKinds(lines, blank);
    var pos: nat := 0;
    var paraStart: Option<nat> := None;
    var paraEnd: nat := 0;
    ghost var closed: seq<Block>, first := [], 0;
    for k := 0 to |lines|
      invariant pos == Start(lines, k) && ranges == Ranges(lines, closed)
      invariant paraStart.None? ==> closed == Runs(kinds[..k]) && (k > 0 ==> blank(lines[k - 1]))
      invariant paraStart.Some? ==>
        Pending(lines, kinds, k, closed, first, paraStart.value, paraEnd) && !blank(lines[k - 1])
    {
      if blank(lines[k]) {
        RunsMore(kinds, k);
        if paraStart.Some? {
          PendingCloses(lines, kinds, k, closed, first, paraStart.value, paraEnd);
          ranges := ranges + [Span(paraStart.value, paraEnd)];
          closed, paraStart := Runs(kinds[..k]), None;
        }
      } else if paraStart.None? {
        PendingOpens(lines, kinds, k);
        first, paraStart, paraEnd := k, Some(pos), pos + |lines[k]|;
      } else {
        PendingContinues(lines, kinds, k, closed, first, paraStart.value, paraEnd);
        paraEnd := pos + |lines[k]|;
      }
      pos := pos + |lines[k]| + 1;
    }
    if paraStart.Some? {
      PendingCloses(lines, kinds, |lines|, closed, first, paraStart.value, paraEnd);
      ranges := ranges + [Span(paraStart.value, paraEnd)];
    }
    assert kinds[..|lines|] == kinds;
  }
}
