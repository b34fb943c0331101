/** `split_candidates_spanned` (src/capture.rs): the three shapes put together, and
    what its spans guarantee. */
module CaptureSplit {
  import opened Options
  import opened Text
  import opened Utf8
  import opened LineRuns
  import opened CaptureSpans

  predicate Heading(line: string) {
    var n := Lead(line);
    n < |line| && line[n] == '#'
  }

  predicate ObjectLine(isObject: string -> bool, line: string) {
    var t := Trim(line);
    t != [] && t[0] == '{' && isObject(t)
  }

  /** `looks_like_jsonl`: there is a non-blank line, and each one is an object. */
  ghost predicate LooksLikeJsonl(lines: seq<string>, isObject: string -> bool) {
    && (exists j :: 0 <= j < |lines| && !Blank(lines[j]))
    && (forall j :: 0 <= j < |lines| && !Blank(lines[j]) ==> ObjectLine(isObject, lines[j]))
  }

  method DetectJsonl(lines: seq<string>, isObject: string -> bool) returns (jsonl: bool)
    ensures jsonl <==> LooksLikeJsonl(lines, isObject)
  {
    jsonl := false;
    for k: nat := 0 to |lines|
      invariant jsonl <==> exists j :: 0 <= j < k && !Blank(lines[j])
      invariant forall j :: 0 <= j < k && !Blank(lines[j]) ==> ObjectLine(isObject, lines[j])
    {
      if !Blank(lines[k]) {
        jsonl := true;
        if !ObjectLine(isObject, lines[k]) {
          return false;
        }
      }
    }
  }

  function IsRecord(isObject: string -> bool): string -> bool {
    (line: string) => !Blank(line) && isObject(Trim(line))
  }

  function IsHeading(): string -> bool { (line: string) => Heading(line) }

  /** The shape of a payload decides how its lines are grouped. */
  ghost function KindsOf(lines: seq<string>, isObject: string -> bool): (kinds: seq<Kind>)
    ensures |kinds| == |lines|
  {
    if LooksLikeJsonl(lines, isObject) then RecordKinds(lines, IsRecord(isObject))
    else if exists j :: 0 <= j < |lines| && IsHeading()(lines[j]) then SectionKinds(lines, IsHeading())
    else ParagraphKinds(lines, BlankLine())
  }

  /** In every shape the groups are well formed and leave out no visible line. */
  lemma KindsKeepVisibleLines(lines: seq<string>, isObject: string -> bool)
    ensures WellFormed(KindsOf(lines, isObject))
    ensures forall j :: 0 <= j < |lines| && !Blank(lines[j]) ==> KindsOf(lines, isObject)[j] != Outside
  {
    if LooksLikeJsonl(lines, isObject) {
      RecordsKeepVisibleLines(lines, isObject);
    } else {
      ParagraphsKeepVisibleLines(lines);
    }
  }

  lemma RecordsKeepVisibleLines(lines: seq<string>, isObject: string -> bool)
    requires LooksLikeJsonl(lines, isObject)
    ensures var kinds := RecordKinds(lines, IsRecord(isObject));
      WellFormed(kinds) && forall j :: 0 <= j < |lines| && !Blank(lines[j]) ==> kinds[j] != Outside
  {
    forall j | 0 <= j < |lines| && !Blank(lines[j]) ensures IsRecord(isObject)(lines[j]) {
      assert ObjectLine(isObject, lines[j]);
    }
  }

  lemma ParagraphsKeepVisibleLines(lines: seq<string>)
    ensures var kinds := ParagraphKinds(lines, BlankLine());
      WellFormed(kinds) && forall j :: 0 <= j < |lines| && !Blank(lines[j]) ==> kinds[j] != Outside
  {}

  ghost function CandidateRanges(payload: string, isObject: string -> bool): seq<Span> {
    var lines := Split(payload);
    Ranges(lines, Runs(KindsOf(lines, isObject)))
  }

  /** Ranges of a payload are apart and hold everything visible. */
  lemma RangesAreSound(payload: string, isObject: string -> bool)
    ensures Separated(payload, CandidateRanges(payload, isObject)) &&
      Covers(payload, CandidateRanges(payload, isObject))
  {
    var lines := Split(payload);
    var kinds := KindsOf(lines, isObject);
    SplitJoins(payload);
    KindsKeepVisibleLines(lines, isObject);
    RunsAreRuns(kinds);
    BlocksAreSeparated(lines, Runs(kinds));
    BlocksCover(lines, Runs(kinds));
  }

  // ------------------------------------------------------------------ where text is cut

  /** The first visible character of the line is `c`. */
  ghost predicate FirstVisible(line: string, c: char) {
    exists p :: 0 <= p < |line| && line[p] == c && !IsWhitespace(c) && Blank(line[..p])
  }

  lemma HeadingMeans(line: string)
    ensures Heading(line) <==> FirstVisible(line, '#')
  {
    if Heading(line) { assert Blank(line[..Lead(line)]); }
    if p :| 0 <= p < |line| && line[p] == '#' && !IsWhitespace('#') && Blank(line[..p]) {
      forall i | 0 <= i < p ensures IsWhitespace(line[i]) { assert line[..p][i] == line[i]; }
      LeadIs(line, p);
    }
  }

  /** Every line that is not blank is a JSON object, and there is one. */
  ghost predicate AllRecords(lines: seq<string>, isObject: string -> bool) {
    && (exists j :: 0 <= j < |lines| && !Blank(lines[j]))
    && forall j :: 0 <= j < |lines| && !Blank(lines[j]) ==> FirstVisible(lines[j], '{') && isObject(Trim(lines[j]))
  }

  ghost predicate HasHeading(lines: seq<string>) {
    exists j :: 0 <= j < |lines| && FirstVisible(lines[j], '#')
  }

  lemma ObjectMeans(line: string, isObject: string -> bool)
    requires !Blank(line)
    ensures ObjectLine(isObject, line) <==> FirstVisible(line, '{') && isObject(Trim(line))
  {
    var n := Lead(line);
    assert Blank(line[..n]) && n < |line|;
    TrimStarts(line);
    if p :| 0 <= p < |line| && line[p] == '{' && !IsWhitespace('{') && Blank(line[..p]) {
      forall i | 0 <= i < p ensures IsWhitespace(line[i]) { assert line[..p][i] == line[i]; }
      LeadIs(line, p);
    }
  }

  /** One piece for each line that is not blank. */
  ghost predicate CutIntoLines(lines: seq<string>, blocks: seq<Block>) {
    forall j :: 0 <= j < |lines| ==>
      (InSome(blocks, j) <==> !Blank(lines[j])) && (Begins(blocks, j) <==> !Blank(lines[j]))
  }

  /** Pieces from each heading to the next, text before the first one included. */
  ghost predicate CutAtHeadings(lines: seq<string>, blocks: seq<Block>) {
    forall j :: 0 <= j < |lines| ==>
      InSome(blocks, j) && (Begins(blocks, j) <==> j == 0 || FirstVisible(lines[j], '#'))
  }

  /** The runs of lines that are not blank. */
  ghost predicate CutAtGaps(lines: seq<string>, blocks: seq<Block>) {
    forall j :: 0 <= j < |lines| ==>
      && (InSome(blocks, j) <==> !Blank(lines[j]))
      && (Begins(blocks, j) <==> !Blank(lines[j]) && (j == 0 || Blank(lines[j - 1])))
  }

  /** Where the pieces of a payload are: records by line, headed text at its headings, and
      plain text at its blank lines. */
  lemma PiecesAreCut(payload: string, isObject: string -> bool) returns (blocks: seq<Block>)
    ensures var lines := Split(payload);
      && CandidateRanges(payload, isObject) == Ranges(lines, blocks) && Ordered(|lines|, blocks)
      && if AllRecords(lines, isObject) then CutIntoLines(lines, blocks)
         else if HasHeading(lines) then CutAtHeadings(lines, blocks)
         else CutAtGaps(lines, blocks)
  {
    var lines := Split(payload);
    var kinds := KindsOf(lines, isObject);
    blocks := Runs(kinds);
    KindsKeepVisibleLines(lines, isObject);
    RunsAreRuns(kinds);
    ShapeMeans(lines, isObject);
    if AllRecords(lines, isObject) {
      RecordsCut(lines, isObject, blocks);
    } else if HasHeading(lines) {
      HeadingsCut(lines, blocks);
    } else {
      GapsCut(lines, blocks);
    }
  }

  lemma RecordsCut(lines: seq<string>, isObject: string -> bool, blocks: seq<Block>)
    requires RunsOf(RecordKinds(lines, IsRecord(isObject)), blocks)
    requires forall j :: 0 <= j < |lines| ==> (IsRecord(isObject)(lines[j]) <==> !Blank(lines[j]))
    ensures CutIntoLines(lines, blocks)
  {}

  lemma HeadingsCut(lines: seq<string>, blocks: seq<Block>)
    requires RunsOf(SectionKinds(lines, IsHeading()), blocks)
    requires forall j :: 0 <= j < |lines| ==> (IsHeading()(lines[j]) <==> FirstVisible(lines[j], '#'))
    ensures CutAtHeadings(lines, blocks)
  {}

  lemma GapsCut(lines: seq<string>, blocks: seq<Block>)
    requires RunsOf(ParagraphKinds(lines, BlankLine()), blocks)
    ensures CutAtGaps(lines, blocks)
  {}

  lemma ShapeMeans(lines: seq<string>, isObject: string -> bool)
    ensures LooksLikeJsonl(lines, isObject) <==> AllRecords(lines, isObject)
    ensures (exists j :: 0 <= j < |lines| && IsHeading()(lines[j])) <==> HasHeading(lines)
    ensures forall j :: 0 <= j < |lines| ==> (IsHeading()(lines[j]) <==> FirstVisible(lines[j], '#'))
    ensures AllRecords(lines, isObject) ==>
      forall j :: 0 <= j < |lines| ==> (IsRecord(isObject)(lines[j]) <==> !Blank(lines[j]))
  {
    forall j | 0 <= j < |lines| ensures IsHeading()(lines[j]) <==> FirstVisible(lines[j], '#') {
      HeadingMeans(lines[j]);
    }
    forall j | 0 <= j < |lines| && !Blank(lines[j])
      ensures ObjectLine(isObject, lines[j]) <==> FirstVisible(lines[j], '{') && isObject(Trim(lines[j]))
    {
      ObjectMeans(lines[j], isObject);
    }
  }

  // -------------------------------------------------------------- the candidates

  function Harvest(payload: string, ranges: seq<Span>): seq<Candidate> {
    if ranges == [] then []
    else
      var before, r := Harvest(payload, ranges[..|ranges| - 1]), ranges[|ranges| - 1];
      var core := TrimmedSpan(payload, r.start, r.end);
      if core.Some? && |core.value.text| >= MIN_CANDIDATE_CHARS then before + [core.value] else before
  }

  ghost predicate GoodCandidate(payload: string, c: Candidate) {
    && c.span.start + MIN_CANDIDATE_CHARS <= c.span.end <= |payload|
    && c.text == payload[c.span.start..c.span.end]
    && !IsWhitespace(payload[c.span.start]) && !IsWhitespace(payload[c.span.end - 1])
  }

  ghost predicate GoodList(payload: string, out: seq<Candidate>) {
    && (forall k :: 0 <= k < |out| ==> GoodCandidate(payload, out[k]))
    && (forall k, l :: 0 <= k < l < |out| ==> out[k].span.end < out[l].span.start)
  }

  /** All candidates end by a given offset. */
  ghost predicate EndBy(out: seq<Candidate>, limit: int) {
    forall k :: 0 <= k < |out| ==> out[k].span.end <= limit
  }

  lemma OneMoreCandidate(payload: string, out: seq<Candidate>, c: Candidate, limit: int)
    requires GoodList(payload, out) && EndBy(out, limit) && GoodCandidate(payload, c) && limit < c.span.start
    ensures GoodList(payload, out + [c]) && EndBy(out + [c], c.span.end)
  {}

  /** Reading a candidate's span gives back the candidate, byte for byte. */
  lemma SpanReadsBack(payload: string, c: Candidate)
    requires GoodCandidate(payload, c)
    ensures SpanText(payload, c.span) == Some(Encode(c.text))
  {
    SpanTextIsVerbatim(payload, c.span);
  }

  lemma CoreIsGood(payload: string, r: Span)
    requires r.start <= r.end <= |payload|
    ensures var core := TrimmedSpan(payload, r.start, r.end);
      core.Some? && |core.value.text| >= MIN_CANDIDATE_CHARS ==>
        GoodCandidate(payload, core.value) && r.start <= core.value.span.start && core.value.span.end <= r.end
  {
    TrimmedSpanIsCore(payload, r.start, r.end);
  }

  lemma {:induction false} HarvestIsGood(payload: string, ranges: seq<Span>)
    requires Separated(payload, ranges)
    ensures GoodList(payload, Harvest(payload, ranges))
    ensures EndBy(Harvest(payload, ranges), if ranges == [] then -1 else ranges[|ranges| - 1].end)
  {
    if ranges != [] {
      var n := |ranges| - 1;
      var front, r := ranges[..n], ranges[n];
      HarvestIsGood(payload, front);
      CoreIsGood(payload, r);
      var limit := if front == [] then -1 else front[n - 1].end;
      var core := TrimmedSpan(payload, r.start, r.end);
      if core.Some? && |core.value.text| >= MIN_CANDIDATE_CHARS {
        OneMoreCandidate(payload, Harvest(payload, front), core.value, limit);
      }
    }
  }

  lemma {:induction false} HarvestTakesAll(payload: string, ranges: seq<Span>, k: nat)
    requires k < |ranges|
    ensures var core := TrimmedSpan(payload, ranges[k].start, ranges[k].end);
      core.Some? && |core.value.text| >= MIN_CANDIDATE_CHARS ==> core.value in Harvest(payload, ranges)
  {
    if k < |ranges| - 1 { HarvestTakesAll(payload, ranges[..|ranges| - 1], k); }
  }

  lemma {:induction false} HarvestOfBlank(payload: string, ranges: seq<Span>)
    requires Blank(payload)
    ensures Harvest(payload, ranges) == []
  {
    if ranges != [] {
      var r := ranges[|ranges| - 1];
      HarvestOfBlank(payload, ranges[..|ranges| - 1]);
      if r.start <= r.end <= |payload| { TrimmedSpanIsCore(payload, r.start, r.end); }
    }
  }

  /** The candidates of a payload. */
  ghost function Candidates(payload: string, isObject: string -> bool): seq<Candidate> {
    Harvest(payload, CandidateRanges(payload, isObject))
  }

  /** Every candidate quotes the payload at its span, begins and ends on a visible
      character, has at least 16 characters, and any two are apart and in order. */
  lemma CandidatesAreGood(payload: string, isObject: string -> bool)
    ensures GoodList(payload, Candidates(payload, isObject))
  {
    RangesAreSound(payload, isObject);
    HarvestIsGood(payload, CandidateRanges(payload, isObject));
  }

  /** `c` is the core of the range that position `p` lies in. */
  ghost predicate PieceAt(payload: string, ranges: seq<Span>, p: nat, c: Candidate) {
    exists k :: 0 <= k < |ranges| && ranges[k].start <= p < ranges[k].end &&
      CoreOf(payload, ranges[k].start, ranges[k].end, c)
  }

  /** No visible character is lost in any shape: the piece it is in, trimmed, is a
      candidate exactly when it has at least 16 characters. */
  lemma VisibleTextIsCaptured(payload: string, isObject: string -> bool, p: nat) returns (c: Candidate)
    requires p < |payload| && !IsWhitespace(payload[p])
    ensures c.span.start <= p < c.span.end && PieceAt(payload, CandidateRanges(payload, isObject), p, c)
    ensures |c.text| >= MIN_CANDIDATE_CHARS <==> c in Candidates(payload, isObject)
  {
    var ranges := CandidateRanges(payload, isObject);
    RangesAreSound(payload, isObject);
    var k :| 0 <= k < |ranges| && ranges[k].start <= p < ranges[k].end;
    TrimmedSpanIsCore(payload, ranges[k].start, ranges[k].end);
    c := TrimmedSpan(payload, ranges[k].start, ranges[k].end).value;
    PieceIsTaken(payload, isObject, k, c);
  }

  lemma PieceIsTaken(payload: string, isObject: string -> bool, k: nat, c: Candidate)
    requires k < |CandidateRanges(payload, isObject)|
    requires var r := CandidateRanges(payload, isObject)[k]; TrimmedSpan(payload, r.start, r.end) == Some(c)
    ensures |c.text| >= MIN_CANDIDATE_CHARS <==> c in Candidates(payload, isObject)
  {
    HarvestTakesAll(payload, CandidateRanges(payload, isObject), k);
    CandidatesAreGood(payload, isObject);
    if c in Candidates(payload, isObject) {
      var i :| 0 <= i < |Candidates(payload, isObject)| && Candidates(payload, isObject)[i] == c;
      assert GoodCandidate(payload, c);
    }
  }

  method HarvestRanges(payload: string, ranges: seq<Span>) returns (out: seq<Candidate>)
    ensures out == Harvest(payload, ranges)
  {
    out := [];
    for k := 0 to |ranges|
      invariant out == Harvest(payload, ranges[..k])
    {
      assert ranges[..k + 1][..k] == ranges[..k];
      var core := TrimmedSpan(payload, ranges[k].start, ranges[k].end);
      if core.Some? && |core.value.text| >= MIN_CANDIDATE_CHARS {
        out := out + [core.value];
      }
    }
    assert ranges[..|ranges|] == ranges;
  }

  method SplitCandidates(payload: string, isObject: string -> bool) returns (out: seq<Candidate>)
    ensures out == Candidates(payload, isObject)
  {
    if Blank(payload) {
      HarvestOfBlank(payload, CandidateRanges(payload, isObject));
      return [];
    }
    var lines := Split(payload);
    var jsonl := DetectJsonl(lines, isObject);
    var ranges, headed;
    if jsonl {
      ranges := RecordRanges(lines, IsRecord(isObject));
    } else {
      ranges, headed := SectionRanges(lines, IsHeading());
      if !headed {
        ranges := ParagraphRanges(lines, BlankLine());
      }
    }
    out := HarvestRanges(payload, ranges);
  }
}
