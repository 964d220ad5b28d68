/** The research-paper reader of backend/ResearchFiles.py: the title of a PDF
    is the text of its largest-font candidate spans, and the paragraph under a
    heading is read by a four-state machine that walks the spans in document
    order. Pages, blocks, lines and spans are those of Extraction; the PDF
    parser is outside the model. */
module Research {
  import opened Text
  import opened Extraction

  // ------------------------------------------------------------- rounding

  /** Python `round(x)` of a float: the nearest integer, ties to the even one. */
  function RoundHalfEven(x: real): int {
    var f := x.Floor;
    var d := x - f as real;
    if d < 0.5 then f
    else if d > 0.5 then f + 1
    else if f % 2 == 0 then f else f + 1
  }

  /** The rounded value is a nearest integer, and an even one on a tie. */
  lemma RoundHalfEvenSpec(x: real, n: int)
    ensures var r := RoundHalfEven(x); -0.5 <= r as real - x <= 0.5
    ensures -0.5 < n as real - x < 0.5 ==> RoundHalfEven(x) == n
    ensures var r := RoundHalfEven(x); (r as real - x == 0.5 || x - r as real == 0.5) ==> r % 2 == 0
  {
  }

  // ---------------------------------------------------------------- title

  /** A span text and its font size. */
  datatype Candidate = Candidate(text: string, size: real)

  predicate HasDigit(t: string) {
    exists k :: 0 <= k < |t| && IsAsciiDigit(t[k])
  }

  /** A stripped span text can be a title: longer than five characters and
      without a digit. */
  predicate IsTitleText(t: string) {
    t != [] && |t| > 5 && !HasDigit(t)
  }

  function SpanCandidates(spans: seq<Span>): seq<Candidate> {
    if spans == [] then []
    else
      var sp := spans[|spans| - 1];
      var t := Strip(Python, sp.text);
      SpanCandidates(spans[..|spans| - 1]) + (if IsTitleText(t) then [Candidate(t, sp.size)] else [])
  }

  function LineCandidates(lines: seq<seq<Span>>): seq<Candidate> {
    if lines == [] then []
    else LineCandidates(lines[..|lines| - 1]) + SpanCandidates(lines[|lines| - 1])
  }

  /** `possible_titles` before the sort, in document order. */
  function BlockCandidates(blocks: seq<Block>): seq<Candidate> {
    if blocks == [] then []
    else
      var b := blocks[|blocks| - 1];
      BlockCandidates(blocks[..|blocks| - 1]) + (if b.blockType == 0 then LineCandidates(b.lines) else [])
  }

  /** The first page whose text dictionary has no blocks. */
  function FirstMissing(pages: seq<Page>): (r: Option<nat>)
    ensures r.Some? ==> r.value < |pages| && pages[r.value].None? &&
                        forall q :: 0 <= q < r.value ==> pages[q].Some?
    ensures r.None? ==> forall q :: 0 <= q < |pages| ==> pages[q].Some?
  {
    if pages == [] then None
    else
      match FirstMissing(pages[..|pages| - 1])
      case Some(p) => Some(p)
      case None => if pages[|pages| - 1].None? then Some(|pages| - 1) else None
  }

  /** The blocks of the pages that have them, in order. */
  function PageBlocks(pages: seq<Page>): seq<Block> {
    if pages == [] then []
    else
      var pg := pages[|pages| - 1];
      PageBlocks(pages[..|pages| - 1]) + (if pg.Some? then pg.value else [])
  }

  /** The largest size among the candidates. */
  function MaxSize(cs: seq<Candidate>): (m: real)
    requires cs != []
    ensures forall i :: 0 <= i < |cs| ==> cs[i].size <= m
    ensures exists i :: 0 <= i < |cs| && cs[i].size == m
  {
    if |cs| == 1 then cs[0].size
    else
      var m := MaxSize(cs[..|cs| - 1]);
      assert forall i :: 0 <= i < |cs| - 1 ==> cs[..|cs| - 1][i] == cs[i];
      if cs[|cs| - 1].size > m then cs[|cs| - 1].size else m
  }

  /** The texts of the candidates of size `m`, in document order. */
  function TextsOfSize(cs: seq<Candidate>, m: real): seq<string> {
    if cs == [] then []
    else TextsOfSize(cs[..|cs| - 1], m) + (if cs[|cs| - 1].size == m then [cs[|cs| - 1].text] else [])
  }

  function TitleOf(cs: seq<Candidate>): string {
    if cs == [] then "Unknown Title" else Join(TextsOfSize(cs, MaxSize(cs)), " ")
  }

  /** What `extract_title_from_pdf` returns. */
  function Title(pages: seq<Page>): string {
    match FirstMissing(pages)
    case Some(p) => "Error extracting title: Missing 'blocks' in page " + IntString(p) + " text data"
    case None => TitleOf(BlockCandidates(PageBlocks(pages)))
  }

  lemma {:induction false} TextsOfSizeMember(cs: seq<Candidate>, m: real, t: string)
    ensures t in TextsOfSize(cs, m) <==> exists i :: 0 <= i < |cs| && cs[i].text == t && cs[i].size == m
  {
    if cs != [] {
      var n := |cs| - 1;
      TextsOfSizeMember(cs[..n], m, t);
      if exists i :: 0 <= i < |cs| && cs[i].text == t && cs[i].size == m {
        var i :| 0 <= i < |cs| && cs[i].text == t && cs[i].size == m;
        if i < n {
          assert cs[..n][i] == cs[i];
        }
      }
      if t in TextsOfSize(cs[..n], m) {
        var i :| 0 <= i < n && cs[..n][i].text == t && cs[..n][i].size == m;
        assert cs[i] == cs[..n][i];
      }
    }
  }

  /** The title is made of exactly the candidates no other candidate is larger
      than, of which there is at least one; without candidates it is
      "Unknown Title". */
  lemma TitleOfSpec(cs: seq<Candidate>, t: string)
    ensures cs == [] ==> TitleOf(cs) == "Unknown Title"
    ensures cs != [] ==> TextsOfSize(cs, MaxSize(cs)) != []
    ensures cs != [] ==>
              (t in TextsOfSize(cs, MaxSize(cs)) <==>
               exists i :: 0 <= i < |cs| && cs[i].text == t && forall j :: 0 <= j < |cs| ==> cs[j].size <= cs[i].size)
  {
    if cs != [] {
      var m := MaxSize(cs);
      TextsOfSizeMember(cs, m, t);
      var i :| 0 <= i < |cs| && cs[i].size == m;
      TextsOfSizeMember(cs, m, cs[i].text);
      if exists i :: 0 <= i < |cs| && cs[i].text == t && forall j :: 0 <= j < |cs| ==> cs[j].size <= cs[i].size {
        var k :| 0 <= k < |cs| && cs[k].text == t && forall j :: 0 <= j < |cs| ==> cs[j].size <= cs[k].size;
        assert cs[k].size == m;
      }
    }
  }

  /** Every candidate is a stripped span text fit to be a title. */
  lemma {:induction false} SpanCandidatesSpec(spans: seq<Span>)
    ensures forall k :: 0 <= k < |SpanCandidates(spans)| ==>
              IsTitleText(SpanCandidates(spans)[k].text) && IsStripped(Python, SpanCandidates(spans)[k].text)
  {
    if spans != [] {
      SpanCandidatesSpec(spans[..|spans| - 1]);
      StripSpec(Python, spans[|spans| - 1].text);
    }
  }

  /** The candidate a span gives when its stripped text can be a title. */
  predicate IsSpanCandidate(c: Candidate, sp: Span) {
    c == Candidate(Strip(Python, sp.text), sp.size) && IsTitleText(c.text)
  }

  /** The candidates of a line are exactly its spans whose stripped text can be a title. */
  lemma SpanCandidatesMember(spans: seq<Span>, c: Candidate)
    ensures c in SpanCandidates(spans) <==> exists j :: 0 <= j < |spans| && IsSpanCandidate(c, spans[j])
  {
    if c in SpanCandidates(spans) {
      SpanCandidatesSound(spans, c);
    }
    if j :| 0 <= j < |spans| && IsSpanCandidate(c, spans[j]) {
      SpanCandidatesComplete(spans, c, j);
    }
  }

  lemma {:induction false} SpanCandidatesSound(spans: seq<Span>, c: Candidate)
    requires c in SpanCandidates(spans)
    ensures exists j :: 0 <= j < |spans| && IsSpanCandidate(c, spans[j])
    decreases |spans|
  {
    var n := |spans| - 1;
    var init := spans[..n];
    var t := Strip(Python, spans[n].text);
    assert SpanCandidates(spans) ==
           SpanCandidates(init) + (if IsTitleText(t) then [Candidate(t, spans[n].size)] else []);
    if c in SpanCandidates(init) {
      SpanCandidatesSound(init, c);
      var j :| 0 <= j < |init| && IsSpanCandidate(c, init[j]);
      assert init[j] == spans[j];
    } else {
      assert IsSpanCandidate(c, spans[n]);
    }
  }

  lemma {:induction false} SpanCandidatesComplete(spans: seq<Span>, c: Candidate, j: nat)
    requires j < |spans| && IsSpanCandidate(c, spans[j])
    ensures c in SpanCandidates(spans)
    decreases |spans|
  {
    var n := |spans| - 1;
    var init := spans[..n];
    var t := Strip(Python, spans[n].text);
    assert SpanCandidates(spans) ==
           SpanCandidates(init) + (if IsTitleText(t) then [Candidate(t, spans[n].size)] else []);
    if j < n {
      assert init[j] == spans[j];
      SpanCandidatesComplete(init, c, j);
    }
  }

  /** The candidates of some lines are exactly those of one of the lines. */
  lemma LineCandidatesMember(lines: seq<seq<Span>>, c: Candidate)
    ensures c in LineCandidates(lines) <==> exists i :: 0 <= i < |lines| && c in SpanCandidates(lines[i])
  {
    if c in LineCandidates(lines) {
      LineCandidatesSound(lines, c);
    }
    if i :| 0 <= i < |lines| && c in SpanCandidates(lines[i]) {
      LineCandidatesComplete(lines, c, i);
    }
  }

  lemma {:induction false} LineCandidatesSound(lines: seq<seq<Span>>, c: Candidate)
    requires c in LineCandidates(lines)
    ensures exists i :: 0 <= i < |lines| && c in SpanCandidates(lines[i])
    decreases |lines|
  {
    var n := |lines| - 1;
    var init := lines[..n];
    assert LineCandidates(lines) == LineCandidates(init) + SpanCandidates(lines[n]);
    if c in LineCandidates(init) {
      LineCandidatesSound(init, c);
      var i :| 0 <= i < |init| && c in SpanCandidates(init[i]);
      assert init[i] == lines[i];
    }
  }

  lemma {:induction false} LineCandidatesComplete(lines: seq<seq<Span>>, c: Candidate, i: nat)
    requires i < |lines| && c in SpanCandidates(lines[i])
    ensures c in LineCandidates(lines)
    decreases |lines|
  {
    var n := |lines| - 1;
    var init := lines[..n];
    if i < n {
      LineCandidatesInit(lines, c, i);
    }
    assert LineCandidates(lines) == LineCandidates(init) + SpanCandidates(lines[n]);
  }

  lemma LineCandidatesInit(lines: seq<seq<Span>>, c: Candidate, i: nat)
    requires i < |lines| - 1 && c in SpanCandidates(lines[i])
    ensures c in LineCandidates(lines[..|lines| - 1])
    decreases |lines|, 0
  {
    var init := lines[..|lines| - 1];
    assert init[i] == lines[i];
    LineCandidatesComplete(init, c, i);
  }

  /** Only text blocks give candidates: those of the lines of some block of type 0. */
  lemma BlockCandidatesMember(blocks: seq<Block>, c: Candidate)
    ensures c in BlockCandidates(blocks) <==>
              exists b :: 0 <= b < |blocks| && blocks[b].blockType == 0 && c in LineCandidates(blocks[b].lines)
  {
    if c in BlockCandidates(blocks) {
      BlockCandidatesSound(blocks, c);
    }
    if b :| 0 <= b < |blocks| && blocks[b].blockType == 0 && c in LineCandidates(blocks[b].lines) {
      BlockCandidatesComplete(blocks, c, b);
    }
  }

  lemma {:induction false} BlockCandidatesSound(blocks: seq<Block>, c: Candidate)
    requires c in BlockCandidates(blocks)
    ensures exists b :: 0 <= b < |blocks| && blocks[b].blockType == 0 && c in LineCandidates(blocks[b].lines)
    decreases |blocks|
  {
    var n := |blocks| - 1;
    var init := blocks[..n];
    var last := blocks[n];
    assert BlockCandidates(blocks) ==
           BlockCandidates(init) + (if last.blockType == 0 then LineCandidates(last.lines) else []);
    if c in BlockCandidates(init) {
      BlockCandidatesSound(init, c);
      var b :| 0 <= b < |init| && init[b].blockType == 0 && c in LineCandidates(init[b].lines);
      assert init[b] == blocks[b];
    }
  }

  lemma {:induction false} BlockCandidatesComplete(blocks: seq<Block>, c: Candidate, b: nat)
    requires b < |blocks| && blocks[b].blockType == 0 && c in LineCandidates(blocks[b].lines)
    ensures c in BlockCandidates(blocks)
    decreases |blocks|
  {
    var n := |blocks| - 1;
    var init := blocks[..n];
    var last := blocks[n];
    assert BlockCandidates(blocks) ==
           BlockCandidates(init) + (if last.blockType == 0 then LineCandidates(last.lines) else []);
    if b < n {
      assert init[b] == blocks[b];
      BlockCandidatesComplete(init, c, b);
    }
  }

  /** A page without blocks makes the title an error message naming it. */
  lemma TitleSpec(pages: seq<Page>)
    ensures (forall q :: 0 <= q < |pages| ==> pages[q].Some?) ==>
              Title(pages) == TitleOf(BlockCandidates(PageBlocks(pages)))
    ensures forall p :: 0 <= p < |pages| && pages[p].None? && (forall q :: 0 <= q < p ==> pages[q].Some?) ==>
              Title(pages) == "Error extracting title: Missing 'blocks' in page " + IntString(p) + " text data"
  {
    forall p | 0 <= p < |pages| && pages[p].None? && (forall q :: 0 <= q < p ==> pages[q].Some?)
      ensures Title(pages) == "Error extracting title: Missing 'blocks' in page " + IntString(p) + " text data"
    {
      FirstMissingIs(pages, p);
    }
  }

  /** The first page without blocks is the one `FirstMissing` names. */
  lemma FirstMissingIs(pages: seq<Page>, p: nat)
    requires p < |pages| && pages[p].None?
    requires forall q :: 0 <= q < p ==> pages[q].Some?
    ensures FirstMissing(pages) == Some(p)
  {
    var r := FirstMissing(pages);
    assert r.Some?;
    assert !(r.value < p);
    assert !(p < r.value);
  }

  /** The span loop of title extraction. */
  method SpanTitles(spans: seq<Span>) returns (cs: seq<Candidate>)
    ensures cs == SpanCandidates(spans)
  {
    cs := [];
    var k := 0;
    while k < |spans|
      invariant 0 <= k <= |spans|
      invariant cs == SpanCandidates(spans[..k])
    {
      assert spans[..k + 1][..k] == spans[..k];
      var blockText := Strip(Python, spans[k].text);
      var blockFontSize := spans[k].size;
      if blockText != [] && |blockText| > 5 {
        if !HasDigit(blockText) {
          cs := cs + [Candidate(blockText, blockFontSize)];
        }
      }
      k := k + 1;
    }
    assert spans[..k] == spans;
  }

  /** The line loop of title extraction. */
  method LineTitles(lines: seq<seq<Span>>) returns (cs: seq<Candidate>)
    ensures cs == LineCandidates(lines)
  {
    cs := [];
    var l := 0;
    while l < |lines|
      invariant 0 <= l <= |lines|
      invariant cs == LineCandidates(lines[..l])
    {
      assert lines[..l + 1][..l] == lines[..l];
      var more := SpanTitles(lines[l]);
      cs := cs + more;
      l := l + 1;
    }
    assert lines[..l] == lines;
  }

  lemma FirstMissingAt(pages: seq<Page>, p: nat)
    requires p < |pages| && pages[p].None? && FirstMissing(pages[..p]).None?
    ensures FirstMissing(pages) == Some(p)
  {
    assert pages[..p + 1][..p] == pages[..p];
    assert FirstMissing(pages[..p + 1]) == Some(p);
    var r := FirstMissing(pages);
    assert forall q :: 0 <= q < p ==> pages[..p][q] == pages[q];
  }

  /** The page loop of title extraction: the blocks of every page, or the
      first page without blocks. */
  method GatherBlocks(pages: seq<Page>) returns (missing: Option<nat>, textInstances: seq<Block>)
    ensures missing == FirstMissing(pages)
    ensures missing.None? ==> textInstances == PageBlocks(pages)
  {
    textInstances := [];
    var p := 0;
    while p < |pages|
      invariant 0 <= p <= |pages|
      invariant FirstMissing(pages[..p]).None?
      invariant textInstances == PageBlocks(pages[..p])
    {
      assert pages[..p + 1][..p] == pages[..p];
      if pages[p].None? {
        FirstMissingAt(pages, p);
        return Some(p), textInstances;
      }
      textInstances := textInstances + pages[p].value;
      p := p + 1;
    }
    assert pages[..p] == pages;
    missing := None;
  }

  /** The block loop of title extraction: `possible_titles`. */
  method BlockTitles(textInstances: seq<Block>) returns (possibleTitles: seq<Candidate>)
    ensures possibleTitles == BlockCandidates(textInstances)
  {
    possibleTitles := [];
    var b := 0;
    while b < |textInstances|
      invariant 0 <= b <= |textInstances|
      invariant possibleTitles == BlockCandidates(textInstances[..b])
    {
      assert textInstances[..b + 1][..b] == textInstances[..b];
      if textInstances[b].blockType == 0 {
        var more := LineTitles(textInstances[b].lines);
        possibleTitles := possibleTitles + more;
      }
      b := b + 1;
    }
    assert textInstances[..b] == textInstances;
  }

  /** The size that the descending sort puts first. */
  method LargestSize(possibleTitles: seq<Candidate>) returns (largest: real)
    requires possibleTitles != []
    ensures largest == MaxSize(possibleTitles)
  {
    largest := possibleTitles[0].size;
    assert largest == MaxSize(possibleTitles[..1]);
    var i := 1;
    while i < |possibleTitles|
      invariant 1 <= i <= |possibleTitles|
      invariant largest == MaxSize(possibleTitles[..i])
    {
      assert MaxSize(possibleTitles[..i + 1])
          == (if possibleTitles[i].size > largest then possibleTitles[i].size else largest) by {
        assert possibleTitles[..i + 1][..i] == possibleTitles[..i];
        assert possibleTitles[..i + 1][i] == possibleTitles[i];
      }
      if possibleTitles[i].size > largest {
        largest := possibleTitles[i].size;
      }
      i := i + 1;
    }
    assert possibleTitles[..i] == possibleTitles;
  }

  /** The texts of the candidates of the largest size, in their order. */
  method LargestTitles(possibleTitles: seq<Candidate>, largest: real) returns (largestTitles: seq<string>)
    ensures largestTitles == TextsOfSize(possibleTitles, largest)
  {
    largestTitles := [];
    var j := 0;
    while j < |possibleTitles|
      invariant 0 <= j <= |possibleTitles|
      invariant largestTitles == TextsOfSize(possibleTitles[..j], largest)
    {
      assert possibleTitles[..j + 1][..j] == possibleTitles[..j];
      if possibleTitles[j].size == largest {
        largestTitles := largestTitles + [possibleTitles[j].text];
      }
      j := j + 1;
    }
    assert possibleTitles[..j] == possibleTitles;
  }

  /** `extract_title_from_pdf`. The in-place sort by size is replaced by a scan
      for the largest size; the stable sort keeps equal sizes in document
      order, which is the order the filter keeps. */
  method ExtractTitle(pages: seq<Page>) returns (title: string)
    ensures title == Title(pages)
  {
    var missing, textInstances := GatherBlocks(pages);
    if missing.Some? {
      return "Error extracting title: Missing 'blocks' in page " + IntString(missing.value) + " text data";
    }
    var possibleTitles := BlockTitles(textInstances);
    if possibleTitles == [] {
      return "Unknown Title";
    }
    var largest := LargestSize(possibleTitles);
    var largestTitles := LargestTitles(possibleTitles, largest);
    title := Join(largestTitles, " ");
  }

  // ----------------------------------------------- the heading state machine

  /** `count` (0: looking for the heading, 1: heading seen, 2: reading the
      paragraph, 3: done), the reference rounded size and colour fixed by the
      paragraph's first span, and the texts collected so far. */
  datatype Reader = Reader(count: nat, size: int, color: int, section: seq<string>)

  /** `size = 0`; the initial colour is never compared before it is set. */
  const Start := Reader(0, 0, 0, [])

  /** `str.isupper()` on ASCII letters: some upper-case letter, no lower-case one. */
  predicate IsUpper(t: string) {
    (exists k :: 0 <= k < |t| && 'A' <= t[k] <= 'Z') && forall k :: 0 <= k < |t| ==> !('a' <= t[k] <= 'z')
  }

  /** `re.search(rf"^{re.escape(heading.strip().lower())}[:]?.*", text.lower(), re.IGNORECASE)`. */
  predicate HeadingMatches(t: string, heading: string) {
    StartsWith(Lower(t), Lower(Strip(Python, heading)))
  }

  /** One span of the loop body. */
  function Step(st: Reader, sp: Span, heading: string): Reader {
    var t := Strip(Python, sp.text);
    var r := RoundHalfEven(sp.size);
    var st1 := if t != [] && st.count == 1 then st.(count := 2, size := r, color := sp.color) else st;
    if t != [] && st1.count == 2 then
      if st1.size == r && (!IsUpper(t) || st1.color == sp.color) then st1.(section := st1.section + [t])
      else st1.(count := 3)
    else if t == [] && st1.count == 2 then st1.(count := 3)
    else if st1.count == 0 && HeadingMatches(t, heading) then st1.(count := 1)
    else st1
  }

  /** The machine run over spans in order. */
  function Run(st: Reader, spans: seq<Span>, heading: string): Reader {
    if spans == [] then st else Step(Run(st, spans[..|spans| - 1], heading), spans[|spans| - 1], heading)
  }

  lemma {:induction false} RunAppend(st: Reader, a: seq<Span>, b: seq<Span>, heading: string)
    ensures Run(st, a + b, heading) == Run(Run(st, a, heading), b, heading)
    decreases |b|
  {
    if b == [] {
      assert a + b == a;
    } else {
      assert (a + b)[..|a + b| - 1] == a + b[..|b| - 1];
      RunAppend(st, a, b[..|b| - 1], heading);
    }
  }

  /** State 3 is final: no later span changes anything. */
  lemma {:induction false} RunDone(st: Reader, spans: seq<Span>, heading: string)
    requires st.count == 3
    ensures Run(st, spans, heading) == st
  {
    if spans != [] {
      RunDone(st, spans[..|spans| - 1], heading);
    }
  }

  /** Once the machine is done, whatever follows is not read. */
  lemma StopWhenDone(st: Reader, a: seq<Span>, b: seq<Span>, heading: string)
    requires Run(st, a, heading).count == 3
    ensures Run(st, a + b, heading) == Run(st, a, heading)
  {
    RunAppend(st, a, b, heading);
    RunDone(Run(st, a, heading), b, heading);
  }

  lemma StopAtPrefix(st: Reader, spans: seq<Span>, k: nat, heading: string)
    requires k <= |spans| && Run(st, spans[..k], heading).count == 3
    ensures Run(st, spans, heading) == Run(st, spans[..k], heading)
  {
    assert spans[..k] + spans[k..] == spans;
    StopWhenDone(st, spans[..k], spans[k..], heading);
  }

  /** The state only moves forward. */
  lemma {:induction false} RunForward(st: Reader, spans: seq<Span>, heading: string)
    requires st.count <= 3
    ensures st.count <= Run(st, spans, heading).count <= 3
  {
    if spans != [] {
      RunForward(st, spans[..|spans| - 1], heading);
    }
  }

  /** Nothing is collected before the paragraph starts, and everything
      collected is a non-empty stripped span text of the reference rounded size. */
  predicate Collected(st: Reader, spans: seq<Span>) {
    && (st.count < 2 ==> st.section == [])
    && forall k :: 0 <= k < |st.section| ==>
         st.section[k] != [] && IsStripped(Python, st.section[k]) &&
         exists j :: 0 <= j < |spans| && CollectedFrom(st.section[k], spans[j], st.size)
  }

  predicate CollectedFrom(t: string, sp: Span, size: int) {
    t == Strip(Python, sp.text) && RoundHalfEven(sp.size) == size
  }

  /** One step either keeps the section or appends the span's stripped text,
      of the reference size; the reference changes only while nothing is collected. */
  lemma StepCollected(st: Reader, sp: Span, heading: string)
    requires st.count < 2 ==> st.section == []
    ensures var st' := Step(st, sp, heading);
            && (st'.count < 2 ==> st'.section == [])
            && (st'.size != st.size ==> st.section == [])
            && (st'.section == st.section ||
                (st'.section == st.section + [Strip(Python, sp.text)] && Strip(Python, sp.text) != [] &&
                 CollectedFrom(Strip(Python, sp.text), sp, st'.size)))
  {
  }

  lemma {:induction false} RunCollected(spans: seq<Span>, heading: string)
    ensures Collected(Run(Start, spans, heading), spans)
  {
    if spans != [] {
      var n := |spans| - 1;
      var init := spans[..n];
      var sp := spans[n];
      RunCollected(init, heading);
      var st := Run(Start, init, heading);
      var st' := Step(st, sp, heading);
      assert Run(Start, spans, heading) == st';
      StepCollected(st, sp, heading);
      StripSpec(Python, sp.text);
      forall k | 0 <= k < |st'.section|
        ensures st'.section[k] != [] && IsStripped(Python, st'.section[k]) &&
                exists j :: 0 <= j < |spans| && CollectedFrom(st'.section[k], spans[j], st'.size)
      {
        if k < |st.section| {
          assert st'.section[k] == st.section[k] && st'.size == st.size;
          var j :| 0 <= j < |init| && CollectedFrom(st.section[k], init[j], st.size);
          assert init[j] == spans[j];
        } else {
          assert st'.section[k] == Strip(Python, sp.text);
          assert CollectedFrom(st'.section[k], spans[n], st'.size);
        }
      }
    }
  }

  /** Without a span that matches the heading the machine never leaves state 0. */
  lemma {:induction false} NoHeadingNoParagraph(spans: seq<Span>, heading: string)
    requires forall j :: 0 <= j < |spans| ==> !HeadingMatches(Strip(Python, spans[j].text), heading)
    ensures Run(Start, spans, heading) == Start
  {
    if spans != [] {
      var n := |spans| - 1;
      assert forall j :: 0 <= j < n ==> spans[..n][j] == spans[j];
      NoHeadingNoParagraph(spans[..n], heading);
    }
  }

  // ------------------------------------------------------------- which spans are read

  /** The stripped texts of some spans, in order. */
  function SpanTexts(spans: seq<Span>): seq<string> {
    seq(|spans|, k requires 0 <= k < |spans| => Strip(Python, spans[k].text))
  }

  lemma SpanTextsSnoc(spans: seq<Span>, f: nat, k: nat)
    requires f < k <= |spans|
    ensures SpanTexts(spans[f..k]) == SpanTexts(spans[f..k - 1]) + [Strip(Python, spans[k - 1].text)]
  {
  }

  /** A span that extends the paragraph begun at the given rounded size and
      colour: non-empty, of that size, and of that colour when it is upper case. */
  predicate Continues(sp: Span, size: int, color: int) {
    var t := Strip(Python, sp.text);
    t != [] && RoundHalfEven(sp.size) == size && (!IsUpper(t) || sp.color == color)
  }

  /** The transitions of one span, state by state. */
  lemma StepSpec(st: Reader, sp: Span, heading: string)
    ensures var t := Strip(Python, sp.text);
            var st' := Step(st, sp, heading);
            && (st.count == 0 ==> st' == if HeadingMatches(t, heading) then st.(count := 1) else st)
            && (st.count == 1 && t == [] ==> st' == st)
            && (st.count == 1 && t != [] ==>
                  st' == st.(count := 2, size := RoundHalfEven(sp.size), color := sp.color, section := st.section + [t]))
            && (st.count == 2 ==> st' == if Continues(sp, st.size, st.color) then st.(section := st.section + [t])
                                         else st.(count := 3))
            && (st.count == 3 ==> st' == st)
  {
  }

  lemma RunSnoc(st: Reader, spans: seq<Span>, k: nat, heading: string)
    requires k < |spans|
    ensures Run(st, spans[..k + 1], heading) == Step(Run(st, spans[..k], heading), spans[k], heading)
  {
    assert spans[..k + 1][..k] == spans[..k];
    assert spans[..k + 1][k] == spans[k];
  }

  /** Up to and including the first heading span the reader waits; that span moves it to state 1. */
  lemma ReachHeading(spans: seq<Span>, heading: string, h: nat)
    requires h < |spans| && HeadingMatches(Strip(Python, spans[h].text), heading)
    requires forall j :: 0 <= j < h ==> !HeadingMatches(Strip(Python, spans[j].text), heading)
    ensures Run(Start, spans[..h + 1], heading) == Reader(1, 0, 0, [])
  {
    assert forall j :: 0 <= j < h ==> spans[..h][j] == spans[j];
    NoHeadingNoParagraph(spans[..h], heading);
    RunSnoc(Start, spans, h, heading);
    StepSpec(Start, spans[h], heading);
  }

  /** In state 1 empty spans are skipped. */
  lemma {:induction false} SkipBlank(spans: seq<Span>, heading: string, h: nat, k: nat)
    requires h < k <= |spans| && Run(Start, spans[..h + 1], heading) == Reader(1, 0, 0, [])
    requires forall j :: h < j < k ==> Strip(Python, spans[j].text) == []
    ensures Run(Start, spans[..k], heading) == Reader(1, 0, 0, [])
    decreases k
  {
    if k > h + 1 {
      SkipBlank(spans, heading, h, k - 1);
      RunSnoc(Start, spans, k - 1, heading);
      StepSpec(Run(Start, spans[..k - 1], heading), spans[k - 1], heading);
    }
  }

  /** From the first non-empty span on, each span that continues the paragraph is appended. */
  lemma {:induction false} Collect(spans: seq<Span>, heading: string, f: nat, k: nat)
    requires f < k <= |spans|
    requires Run(Start, spans[..f + 1], heading) ==
             Reader(2, RoundHalfEven(spans[f].size), spans[f].color, [Strip(Python, spans[f].text)])
    requires forall j :: f < j < k ==> Continues(spans[j], RoundHalfEven(spans[f].size), spans[f].color)
    ensures Run(Start, spans[..k], heading) ==
            Reader(2, RoundHalfEven(spans[f].size), spans[f].color, SpanTexts(spans[f..k]))
    decreases k
  {
    if k == f + 1 {
      assert SpanTexts(spans[f..k]) == [Strip(Python, spans[f].text)];
    } else {
      Collect(spans, heading, f, k - 1);
      var st := Run(Start, spans[..k - 1], heading);
      RunSnoc(Start, spans, k - 1, heading);
      StepSpec(st, spans[k - 1], heading);
      assert Run(Start, spans[..k], heading) == st.(section := st.section + [Strip(Python, spans[k - 1].text)]);
      SpanTextsSnoc(spans, f, k);
    }
  }

  /** Which spans the paragraph is made of. Let h be the first span that starts
      with the heading, f the first non-empty span after it, and e the first span
      after f that is empty or changes size or (upper-case) colour, or the end.
      The section is the stripped texts of spans f up to e, and the reader ends
      in state 3 exactly when such a span e exists. */
  lemma ReadSpec(spans: seq<Span>, heading: string, h: nat, f: nat, e: nat)
    requires h < f < e <= |spans|
    requires HeadingMatches(Strip(Python, spans[h].text), heading)
    requires forall j :: 0 <= j < h ==> !HeadingMatches(Strip(Python, spans[j].text), heading)
    requires forall j :: h < j < f ==> Strip(Python, spans[j].text) == []
    requires Strip(Python, spans[f].text) != []
    requires forall j :: f < j < e ==> Continues(spans[j], RoundHalfEven(spans[f].size), spans[f].color)
    requires e < |spans| ==> !Continues(spans[e], RoundHalfEven(spans[f].size), spans[f].color)
    ensures Run(Start, spans, heading) ==
            Reader(if e < |spans| then 3 else 2, RoundHalfEven(spans[f].size), spans[f].color, SpanTexts(spans[f..e]))
  {
    ReachText(spans, heading, h, f);
    Collect(spans, heading, f, e);
    if e < |spans| {
      StopAt(spans, heading, e, Run(Start, spans[..e], heading));
    } else {
      assert spans[..e] == spans;
    }
  }

  /** The first non-empty span after the heading starts the paragraph. */
  lemma ReachText(spans: seq<Span>, heading: string, h: nat, f: nat)
    requires h < f < |spans|
    requires HeadingMatches(Strip(Python, spans[h].text), heading)
    requires forall j :: 0 <= j < h ==> !HeadingMatches(Strip(Python, spans[j].text), heading)
    requires forall j :: h < j < f ==> Strip(Python, spans[j].text) == []
    requires Strip(Python, spans[f].text) != []
    ensures Run(Start, spans[..f + 1], heading) ==
            Reader(2, RoundHalfEven(spans[f].size), spans[f].color, [Strip(Python, spans[f].text)])
  {
    ReachHeading(spans, heading, h);
    SkipBlank(spans, heading, h, f);
    RunSnoc(Start, spans, f, heading);
    StepSpec(Run(Start, spans[..f], heading), spans[f], heading);
  }

  /** A span that does not continue the paragraph ends the run. */
  lemma StopAt(spans: seq<Span>, heading: string, e: nat, st: Reader)
    requires e < |spans| && Run(Start, spans[..e], heading) == st
    requires st.count == 2 && !Continues(spans[e], st.size, st.color)
    ensures Run(Start, spans, heading) == st.(count := 3)
  {
    RunSnoc(Start, spans, e, heading);
    StepSpec(st, spans[e], heading);
    StopAtPrefix(Start, spans, e + 1, heading);
  }

  /** A heading followed only by empty spans leaves the reader in state 1 with
      nothing collected. */
  lemma HeadingWithoutText(spans: seq<Span>, heading: string, h: nat)
    requires h < |spans| && HeadingMatches(Strip(Python, spans[h].text), heading)
    requires forall j :: 0 <= j < h ==> !HeadingMatches(Strip(Python, spans[j].text), heading)
    requires forall j :: h < j < |spans| ==> Strip(Python, spans[j].text) == []
    ensures Run(Start, spans, heading) == Reader(1, 0, 0, [])
  {
    ReachHeading(spans, heading, h);
    SkipBlank(spans, heading, h, |spans|);
    assert spans[..|spans|] == spans;
  }

  /** The spans of the pages that have blocks, in document order. */
  function BlockSpans(blocks: seq<Block>): seq<Span> {
    if blocks == [] then []
    else
      var b := blocks[|blocks| - 1];
      BlockSpans(blocks[..|blocks| - 1]) + (if b.blockType == 0 then Flatten(b.lines) else [])
  }

  function DocumentSpans(pages: seq<Page>): seq<Span> {
    BlockSpans(PageBlocks(pages))
  }

  /** `' '.join(section_text).strip() or "No paragraph found ..."`. */
  function Paragraph(section: seq<string>): string {
    var p := Strip(Python, Join(section, " "));
    if p == [] then "No paragraph found for the specified heading." else p
  }

  /** The stripping of the joined texts never changes them: the paragraph is the
      collected texts joined by single spaces, or the fallback when there are none. */
  lemma ParagraphSpec(spans: seq<Span>, heading: string)
    ensures var section := Run(Start, spans, heading).section;
            Paragraph(section) == if section == [] then "No paragraph found for the specified heading."
                                  else Join(section, " ")
  {
    var section := Run(Start, spans, heading).section;
    RunCollected(spans, heading);
    if section != [] {
      JoinStripped(section, " ");
      StripOfStripped(Python, Join(section, " "));
    }
  }

  /** The dictionary `extract_text_from_pdf` returns (the process id left out). */
  datatype ResearchResult = ResearchResult(fileName: string, title: string, heading: string, paragraph: string)

  function Research(src: PdfSource, fileName: string, heading: string): ResearchResult {
    match src
    case PdfUnreadable(message) => ResearchResult(fileName, "Error", heading, "Error processing file: " + message)
    case PdfOpened(pages) =>
      ResearchResult(fileName, Title(pages), heading, Paragraph(Run(Start, DocumentSpans(pages), heading).section))
  }

  /** The span loop: it stops as soon as the machine is done. */
  method ReadSpans(st0: Reader, spans: seq<Span>, heading: string) returns (st: Reader)
    ensures st == Run(st0, spans, heading)
  {
    st := st0;
    var k := 0;
    while k < |spans|
      invariant 0 <= k <= |spans|
      invariant st == Run(st0, spans[..k], heading)
    {
      assert spans[..k + 1][..k] == spans[..k];
      st := Step(st, spans[k], heading);
      k := k + 1;
      if st.count == 3 {
        StopAtPrefix(st0, spans, k, heading);
        return;
      }
    }
    assert spans[..k] == spans;
  }

  /** The line loop: `if count == 3: break`, then the spans. */
  method ReadLines(st0: Reader, lines: seq<seq<Span>>, heading: string) returns (st: Reader)
    ensures st == Run(st0, Flatten(lines), heading)
  {
    st := st0;
    var l := 0;
    while l < |lines|
      invariant 0 <= l <= |lines|
      invariant st == Run(st0, Flatten(lines[..l]), heading)
    {
      if st.count == 3 {
        StopWhenDone(st0, Flatten(lines[..l]), Flatten(lines[l..]), heading);
        FlattenAppend(lines[..l], lines[l..]);
        assert lines[..l] + lines[l..] == lines;
        return;
      }
      assert lines[..l + 1] == lines[..l] + [lines[l]];
      FlattenSnoc(lines[..l], lines[l]);
      RunAppend(st0, Flatten(lines[..l]), lines[l], heading);
      st := ReadSpans(st, lines[l], heading);
      l := l + 1;
    }
    assert lines[..l] == lines;
  }

  /** The block loop: `if count == 3: break`, then the lines of text blocks. */
  method ReadBlocks(st0: Reader, blocks: seq<Block>, heading: string) returns (st: Reader)
    ensures st == Run(st0, BlockSpans(blocks), heading)
  {
    st := st0;
    var b := 0;
    while b < |blocks|
      invariant 0 <= b <= |blocks|
      invariant st == Run(st0, BlockSpans(blocks[..b]), heading)
    {
      if st.count == 3 {
        BlockSpansAppend(blocks[..b], blocks[b..]);
        StopWhenDone(st0, BlockSpans(blocks[..b]), BlockSpans(blocks[b..]), heading);
        assert blocks[..b] + blocks[b..] == blocks;
        return;
      }
      BlockSpansStep(blocks, b);
      if blocks[b].blockType == 0 {
        ghost var before := BlockSpans(blocks[..b]);
        ghost var added := Flatten(blocks[b].lines);
        assert BlockSpans(blocks[..b + 1]) == before + added;
        RunAppend(st0, before, added, heading);
        st := ReadLines(st, blocks[b].lines, heading);
        assert st == Run(st0, before + added, heading);
      } else {
        assert BlockSpans(blocks[..b + 1]) == BlockSpans(blocks[..b]);
      }
      b := b + 1;
    }
    assert blocks[..b] == blocks;
  }

  lemma {:induction false} BlockSpansAppend(a: seq<Block>, b: seq<Block>)
    ensures BlockSpans(a + b) == BlockSpans(a) + BlockSpans(b)
    decreases |b|
  {
    if b == [] {
      assert a + b == a;
    } else {
      assert (a + b)[..|a + b| - 1] == a + b[..|b| - 1];
      BlockSpansAppend(a, b[..|b| - 1]);
    }
  }

  lemma BlockSpansStep(blocks: seq<Block>, b: nat)
    requires b < |blocks|
    ensures BlockSpans(blocks[..b + 1]) ==
            BlockSpans(blocks[..b]) + (if blocks[b].blockType == 0 then Flatten(blocks[b].lines) else [])
  {
    assert blocks[..b + 1][..b] == blocks[..b];
  }

  lemma DocumentSpansStep(pages: seq<Page>, p: nat)
    requires p < |pages|
    ensures DocumentSpans(pages[..p + 1]) ==
            DocumentSpans(pages[..p]) + (if pages[p].Some? then BlockSpans(pages[p].value) else [])
  {
    assert pages[..p + 1][..p] == pages[..p];
    assert PageBlocks(pages[..p + 1]) == PageBlocks(pages[..p]) + (if pages[p].Some? then pages[p].value else []);
    BlockSpansAppend(PageBlocks(pages[..p]), if pages[p].Some? then pages[p].value else []);
  }

  lemma {:induction false} PageBlocksAppend(a: seq<Page>, b: seq<Page>)
    ensures PageBlocks(a + b) == PageBlocks(a) + PageBlocks(b)
    decreases |b|
  {
    if b == [] {
      assert a + b == a;
    } else {
      assert (a + b)[..|a + b| - 1] == a + b[..|b| - 1];
      PageBlocksAppend(a, b[..|b| - 1]);
    }
  }

  /** The page loop: `if count == 3: break`, pages without blocks skipped. */
  method ReadPages(pages: seq<Page>, heading: string) returns (st: Reader)
    ensures st == Run(Start, DocumentSpans(pages), heading)
  {
    st := Start;
    var p := 0;
    while p < |pages|
      invariant 0 <= p <= |pages|
      invariant st == Run(Start, DocumentSpans(pages[..p]), heading)
    {
      if st.count == 3 {
        PageBlocksAppend(pages[..p], pages[p..]);
        BlockSpansAppend(PageBlocks(pages[..p]), PageBlocks(pages[p..]));
        StopWhenDone(Start, DocumentSpans(pages[..p]), BlockSpans(PageBlocks(pages[p..])), heading);
        assert pages[..p] + pages[p..] == pages;
        return;
      }
      DocumentSpansStep(pages, p);
      if pages[p].Some? {
        RunAppend(Start, DocumentSpans(pages[..p]), BlockSpans(pages[p].value), heading);
        st := ReadBlocks(st, pages[p].value, heading);
      } else {
        assert DocumentSpans(pages[..p + 1]) == DocumentSpans(pages[..p]);
      }
      p := p + 1;
    }
    assert pages[..p] == pages;
  }

  /** `extract_text_from_pdf`. */
  method ExtractTextFromPdf(src: PdfSource, fileName: string, heading: string) returns (r: ResearchResult)
    ensures r == Research(src, fileName, heading)
  {
    if src.PdfUnreadable? {
      return ResearchResult(fileName, "Error", heading, "Error processing file: " + src.message);
    }
    var title := ExtractTitle(src.pages);
    var st := ReadPages(src.pages, heading);
    var joined := Strip(Python, Join(st.section, " "));
    var paragraph := if joined == [] then "No paragraph found for the specified heading." else joined;
    r := ResearchResult(fileName, title, heading, paragraph);
  }
}
