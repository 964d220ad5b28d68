/** Turning an uploaded document into searchable lines (backend/TextFiles.py):
    the sentence splitter `re.split(r'(?<=\.)\s+', line)`, the flattening of a
    Word document's paragraphs and table rows, and the flattening of a PDF's text
    spans. The document parsers are outside the model: a parsed document is given
    as its paragraphs and table cells, or as its pages of blocks of lines of spans. */
module Extraction {
  import opened Text

  // ------------------------------------------------------------ sentence split

  /** The pattern `(?<=\.)\s+` can start at `i`: a dot before, whitespace at `i`. */
  predicate BreakAt(s: string, i: int) {
    0 < i < |s| && s[i - 1] == '.' && IsPySpace(s[i])
  }

  /** End of the greedy `\s+` run starting at `i`. */
  function SpaceRunEnd(s: string, i: nat): (j: nat)
    requires i <= |s|
    ensures i <= j <= |s|
    ensures forall k :: i <= k < j ==> IsPySpace(s[k])
    ensures j < |s| ==> !IsPySpace(s[j])
    decreases |s| - i
  {
    if i < |s| && IsPySpace(s[i]) then SpaceRunEnd(s, i + 1) else i
  }

  /** The pieces `re.split` returns, together with the separators it drops. */
  datatype Pieces = Pieces(pieces: seq<string>, separators: seq<string>)

  /** The search loop of `re.split`: `last` starts the current piece, `i` is the
      next position where a match is tried. */
  function SplitFrom(s: string, last: nat, i: nat): Pieces
    requires last <= i <= |s|
    decreases |s| - i
  {
    if i == |s| then Pieces([s[last..]], [])
    else if BreakAt(s, i) then
      var j := SpaceRunEnd(s, i);
      var rest := SplitFrom(s, j, j);
      Pieces([s[last..i]] + rest.pieces, [s[i..j]] + rest.separators)
    else SplitFrom(s, last, i + 1)
  }

  /** `re.split(r'(?<=\.)\s+', s)`. */
  function SentenceSplit(s: string): seq<string> {
    SplitFrom(s, 0, 0).pieces
  }

  /** `ps[0] + ss[0] + ps[1] + ... + ps[n]`. */
  function Interleave(ps: seq<string>, ss: seq<string>): string
    requires |ps| == |ss| + 1
  {
    if |ss| == 0 then ps[0] else ps[0] + ss[0] + Interleave(ps[1..], ss[1..])
  }

  predicate AllSpace(t: string) {
    forall k :: 0 <= k < |t| ==> IsPySpace(t[k])
  }

  predicate NoBreak(t: string) {
    forall k :: 0 <= k < |t| ==> !BreakAt(t, k)
  }

  /** The properties of one run of the split loop. */
  predicate SplitShape(s: string, r: Pieces) {
    && |r.pieces| == |r.separators| + 1
    && Interleave(r.pieces, r.separators) == s
    && (forall k :: 0 <= k < |r.separators| ==> r.separators[k] != [] && AllSpace(r.separators[k]))
    && (forall k :: 0 <= k < |r.separators| ==> r.pieces[k] != [] && r.pieces[k][|r.pieces[k]| - 1] == '.')
    && (forall k :: 0 <= k < |r.pieces| ==> NoBreak(r.pieces[k]))
    && (forall k :: 0 < k < |r.pieces| ==> r.pieces[k] == [] || !IsPySpace(r.pieces[k][0]))
  }

  lemma NoBreakInSlice(s: string, a: nat, b: nat)
    requires a <= b <= |s|
    requires forall k :: a < k < b ==> !BreakAt(s, k)
    ensures NoBreak(s[a..b])
  {
    forall k | 0 <= k < b - a ensures !BreakAt(s[a..b], k) {
      if BreakAt(s[a..b], k) {
        assert BreakAt(s, a + k);
        assert false;
      }
    }
  }

  /** One more piece and separator in front of a split keep its shape. */
  lemma ConsShape(piece: string, sep: string, t: string, rest: Pieces)
    requires SplitShape(t, rest)
    requires piece != [] && piece[|piece| - 1] == '.' && NoBreak(piece)
    requires sep != [] && AllSpace(sep)
    requires rest.pieces[0] == [] || !IsPySpace(rest.pieces[0][0])
    ensures SplitShape(piece + sep + t, Pieces([piece] + rest.pieces, [sep] + rest.separators))
  {
    var r := Pieces([piece] + rest.pieces, [sep] + rest.separators);
    assert r.pieces[1..] == rest.pieces && r.separators[1..] == rest.separators;
    forall k | 0 < k < |r.pieces| ensures r.pieces[k] == rest.pieces[k - 1] { }
    forall k | 0 < k < |r.separators| ensures r.separators[k] == rest.separators[k - 1] { }
  }

  lemma {:induction false} SplitFromShape(s: string, last: nat, i: nat)
    requires last <= i <= |s|
    requires forall k :: last < k < i ==> !BreakAt(s, k)
    requires last == i ==> !BreakAt(s, last)
    requires 0 < last < |s| ==> !IsPySpace(s[last])
    ensures SplitShape(s[last..], SplitFrom(s, last, i))
    ensures last == 0 && SplitFrom(s, last, i).pieces[0] == [] ==> s == []
    decreases |s| - i
  {
    if i == |s| {
      NoBreakInSlice(s, last, |s|);
      assert s[last..] == s[last..|s|];
    } else if BreakAt(s, i) {
      SplitFromShape(s, SpaceRunEnd(s, i), SpaceRunEnd(s, i));
      SplitAtBreakShape(s, last, i);
    } else {
      SplitFromShape(s, last, i + 1);
    }
  }

  /** One step of the splitter at a break: the piece before the break and the
      removed whitespace run go in front of the rest's shape. */
  lemma SplitAtBreakShape(s: string, last: nat, i: nat)
    requires last <= i < |s| && BreakAt(s, i)
    requires forall k :: last < k < i ==> !BreakAt(s, k)
    requires last == i ==> !BreakAt(s, last)
    requires SplitShape(s[SpaceRunEnd(s, i)..], SplitFrom(s, SpaceRunEnd(s, i), SpaceRunEnd(s, i)))
    ensures SplitShape(s[last..], SplitFrom(s, last, i))
  {
    var j := SpaceRunEnd(s, i);
    var rest := SplitFrom(s, j, j);
    NoBreakInSlice(s, last, i);
    assert s[last..] == s[last..i] + s[i..j] + s[j..];
    assert s[i..j][0] == s[i];
    if rest.pieces[0] != [] {
      assert rest.pieces[0][0] == s[j..][0];
    }
    ConsShape(s[last..i], s[i..j], s[j..], rest);
  }

  /** What the sentence splitter promises: the pieces, put back together with the
      whitespace runs it removed, give the line; every removed run is non-empty
      whitespace; every piece but the last ends with a dot; no piece still holds
      a dot followed by whitespace; a piece after a removed run does not start
      with whitespace; and the first piece is empty only for the empty line. */
  lemma SentenceSplitSpec(s: string)
    ensures SplitShape(s, SplitFrom(s, 0, 0))
    ensures SentenceSplit(s)[0] == [] ==> s == []
  {
    SplitFromShape(s, 0, 0);
    assert s[0..] == s;
  }

  /** A stripped, non-empty line splits into non-empty, stripped pieces. */
  lemma SplitOfStripped(s: string)
    requires s != [] && IsStripped(Python, s)
    ensures forall k :: 0 <= k < |SentenceSplit(s)| ==>
              SentenceSplit(s)[k] != [] && IsStripped(Python, SentenceSplit(s)[k])
  {
    var r := SplitFrom(s, 0, 0);
    SentenceSplitSpec(s);
    var n := |r.pieces|;
    if n > 1 {
      InterleaveLast(r.pieces, r.separators);
    }
    forall k | 0 <= k < n ensures r.pieces[k] != [] && IsStripped(Python, r.pieces[k]) {
      if k == 0 {
        InterleaveFirst(r.pieces, r.separators);
      }
    }
  }

  lemma {:induction false} InterleaveFirst(ps: seq<string>, ss: seq<string>)
    requires |ps| == |ss| + 1 && ps[0] != []
    ensures Interleave(ps, ss)[0] == ps[0][0]
  {
  }

  /** The last piece is a suffix of the line. */
  lemma {:induction false} InterleaveLast(ps: seq<string>, ss: seq<string>)
    requires |ps| == |ss| + 1
    ensures var t := Interleave(ps, ss); var l := ps[|ps| - 1];
            |l| <= |t| && t[|t| - |l|..] == l
    ensures |ss| > 0 ==> var t := Interleave(ps, ss); var l := ps[|ps| - 1];
            var u := ss[|ss| - 1]; |l| + |u| <= |t| && t[|t| - |l| - |u|..|t| - |l|] == u
  {
    if |ss| > 0 {
      InterleaveLast(ps[1..], ss[1..]);
      var t := Interleave(ps, ss);
      var t' := Interleave(ps[1..], ss[1..]);
      assert t == ps[0] + ss[0] + t';
      if |ss| == 1 {
        assert t' == ps[1];
      }
    }
  }

  /** A line with no dot followed by whitespace is kept as it is. */
  lemma {:induction false} NoBreakUnsplit(s: string, last: nat, i: nat)
    requires last <= i <= |s| && NoBreak(s)
    ensures SplitFrom(s, last, i).pieces == [s[last..]]
    decreases |s| - i
  {
    if i < |s| {
      assert !BreakAt(s, i);
      NoBreakUnsplit(s, last, i + 1);
    }
  }

  // ------------------------------------------------- shared line flattening

  /** Python `x.strip()` of each text. */
  function StripAll(xs: seq<string>): (r: seq<string>)
    ensures |r| == |xs| && forall i :: 0 <= i < |xs| ==> r[i] == Strip(Python, xs[i])
  {
    seq(|xs|, i requires 0 <= i < |xs| => Strip(Python, xs[i]))
  }

  /** The texts that are not empty, in order (`if t: ...append(t)`). */
  function NonEmpty(ys: seq<string>): seq<string> {
    if ys == [] then []
    else NonEmpty(ys[..|ys| - 1]) + (if ys[|ys| - 1] != [] then [ys[|ys| - 1]] else [])
  }

  /** The stripped texts that are not empty, in order. */
  function NonEmptyStripped(xs: seq<string>): seq<string> {
    NonEmpty(StripAll(xs))
  }

  lemma {:induction false} NonEmptyMember(ys: seq<string>, t: string)
    ensures |NonEmpty(ys)| <= |ys|
    ensures t in NonEmpty(ys) <==> t != [] && t in ys
  {
    if ys != [] {
      var init := ys[..|ys| - 1];
      NonEmptyMember(init, t);
      assert ys == init + [ys[|ys| - 1]];
    }
  }

  lemma NonEmptyStep(ys: seq<string>, k: nat)
    requires k < |ys|
    ensures NonEmpty(ys[..k + 1]) == NonEmpty(ys[..k]) + (if ys[k] != [] then [ys[k]] else [])
  {
    assert ys[..k + 1][..k] == ys[..k];
  }

  /** The kept texts are non-empty, so their join is empty only when none is kept. */
  lemma NonEmptyElements(ys: seq<string>)
    ensures forall m :: 0 <= m < |NonEmpty(ys)| ==> NonEmpty(ys)[m] != []
    ensures Join(NonEmpty(ys), " ") == [] <==> NonEmpty(ys) == []
  {
    var r := NonEmpty(ys);
    forall m | 0 <= m < |r| ensures r[m] != [] {
      assert r[m] in r;
      NonEmptyMember(ys, r[m]);
    }
    if |r| > 1 {
      assert Join(r, " ") == r[0] + " " + Join(r[1..], " ");
    }
  }

  /** Every kept text is non-empty and stripped. */
  lemma NonEmptyStrippedSpec(xs: seq<string>)
    ensures |NonEmptyStripped(xs)| <= |xs|
    ensures forall k :: 0 <= k < |NonEmptyStripped(xs)| ==>
              NonEmptyStripped(xs)[k] != [] && IsStripped(Python, NonEmptyStripped(xs)[k])
  {
    var r := NonEmptyStripped(xs);
    forall k | 0 <= k < |r| ensures r[k] != [] && IsStripped(Python, r[k]) {
      assert r[k] in r;
      NonEmptyMember(StripAll(xs), r[k]);
      var j :| 0 <= j < |xs| && StripAll(xs)[j] == r[k];
      StripSpec(Python, xs[j]);
    }
    NonEmptyMember(StripAll(xs), []);
  }

  /** A text is kept exactly when it is non-empty and some input strips to it. */
  lemma NonEmptyStrippedMember(xs: seq<string>, t: string)
    ensures t in NonEmptyStripped(xs) <==> t != [] && exists i :: 0 <= i < |xs| && Strip(Python, xs[i]) == t
  {
    NonEmptyMember(StripAll(xs), t);
    if t in StripAll(xs) {
      var i :| 0 <= i < |xs| && StripAll(xs)[i] == t;
    }
  }

  /** Joining non-empty stripped strings with any separator gives a non-empty
      stripped string. */
  lemma {:induction false} JoinStripped(xs: seq<string>, sep: string)
    requires xs != []
    requires forall k :: 0 <= k < |xs| ==> xs[k] != [] && IsStripped(Python, xs[k])
    ensures Join(xs, sep) != [] && IsStripped(Python, Join(xs, sep))
    ensures Join(xs, sep)[0] == xs[0][0]
    ensures Join(xs, sep)[|Join(xs, sep)| - 1] == xs[|xs| - 1][|xs[|xs| - 1]| - 1]
  {
    if |xs| > 1 {
      JoinStripped(xs[1..], sep);
      var tail := Join(xs[1..], sep);
      assert Join(xs, sep) == xs[0] + sep + tail;
    }
  }

  /** Every line of every source line's split, in order. */
  function SplitAll(lines: seq<string>): seq<string> {
    if lines == [] then [] else SplitAll(lines[..|lines| - 1]) + SentenceSplit(lines[|lines| - 1])
  }

  lemma {:induction false} SplitAllAppend(xs: seq<string>, ys: seq<string>)
    ensures SplitAll(xs + ys) == SplitAll(xs) + SplitAll(ys)
    decreases |ys|
  {
    if ys == [] {
      assert xs + ys == xs;
    } else {
      var ys' := ys[..|ys| - 1];
      var tail := SentenceSplit(ys[|ys| - 1]);
      assert SplitAll(xs + ys) == SplitAll(xs + ys') + tail by {
        assert (xs + ys)[..|xs + ys| - 1] == xs + ys';
        assert (xs + ys)[|xs + ys| - 1] == ys[|ys| - 1];
      }
      SplitAllAppend(xs, ys');
      assert SplitAll(ys) == SplitAll(ys') + tail;
    }
  }

  /** Splitting lines that are all non-empty and stripped gives lines that are
      all non-empty and stripped. */
  lemma {:induction false} SplitAllStripped(lines: seq<string>)
    requires forall k :: 0 <= k < |lines| ==> lines[k] != [] && IsStripped(Python, lines[k])
    ensures forall k :: 0 <= k < |SplitAll(lines)| ==>
              SplitAll(lines)[k] != [] && IsStripped(Python, SplitAll(lines)[k])
  {
    if lines != [] {
      SplitAllStripped(lines[..|lines| - 1]);
      SplitOfStripped(lines[|lines| - 1]);
    }
  }

  /** The loop `for line in all_content: final_content.extend(re.split(...))`. */
  method SplitLines(allContent: seq<string>) returns (finalContent: seq<string>)
    ensures finalContent == SplitAll(allContent)
  {
    finalContent := [];
    var k := 0;
    while k < |allContent|
      invariant 0 <= k <= |allContent|
      invariant finalContent == SplitAll(allContent[..k])
    {
      assert allContent[..k + 1][..k] == allContent[..k];
      finalContent := finalContent + SentenceSplit(allContent[k]);
      k := k + 1;
    }
    assert allContent[..k] == allContent;
  }

  // -------------------------------------------------------------- Word files

  /** A table is its rows, a row its cells' texts. */
  type Table = seq<seq<string>>

  datatype DocxDocument = DocxDocument(paragraphs: seq<string>, tables: seq<Table>)

  /** What `Document(io.BytesIO(content))` gives: a document, or the message of
      the exception it raises. */
  datatype DocxSource = DocxParsed(doc: DocxDocument) | DocxUnreadable(message: string)

  /** The line a table row contributes, if any: its non-empty stripped cells
      joined by four spaces. */
  function RowLine(cells: seq<string>): seq<string> {
    var texts := NonEmptyStripped(cells);
    if texts != [] then [Join(texts, "    ")] else []
  }

  function TableLines(rows: Table): seq<string> {
    if rows == [] then [] else TableLines(rows[..|rows| - 1]) + RowLine(rows[|rows| - 1])
  }

  function TablesLines(tables: seq<Table>): seq<string> {
    if tables == [] then [] else TablesLines(tables[..|tables| - 1]) + TableLines(tables[|tables| - 1])
  }

  /** `all_content` of `extraction_from_docx`. */
  function DocxContent(src: DocxSource): seq<string> {
    match src
    case DocxParsed(doc) => NonEmptyStripped(doc.paragraphs) + TablesLines(doc.tables)
    case DocxUnreadable(message) => ["[Error processing .docx file: " + message + "]"]
  }

  /** The lines `extraction_from_docx` returns. */
  function DocxLines(src: DocxSource): seq<string> {
    SplitAll(DocxContent(src))
  }

  /** A row is dropped exactly when every cell strips to nothing; otherwise its
      line is non-empty, stripped, starts with its first non-empty cell and ends
      with its last. */
  lemma RowLineSpec(cells: seq<string>)
    ensures RowLine(cells) == [] <==> forall i :: 0 <= i < |cells| ==> Strip(Python, cells[i]) == []
    ensures RowLine(cells) != [] ==>
              var texts := NonEmptyStripped(cells);
              |RowLine(cells)| == 1 && RowLine(cells)[0] != [] && IsStripped(Python, RowLine(cells)[0]) &&
              StartsWith(RowLine(cells)[0], texts[0]) && EndsWith(RowLine(cells)[0], texts[|texts| - 1])
  {
    var texts := NonEmptyStripped(cells);
    NonEmptyStrippedSpec(cells);
    if texts != [] {
      JoinStripped(texts, "    ");
      JoinStartsWithFirst(texts, "    ");
      JoinEndsWithLast(texts, "    ");
      assert texts[0] in texts;
    } else {
      forall i | 0 <= i < |cells| ensures Strip(Python, cells[i]) == [] {
        NonEmptyStrippedMember(cells, Strip(Python, cells[i]));
      }
    }
    if forall i :: 0 <= i < |cells| ==> Strip(Python, cells[i]) == [] {
      if texts != [] {
        assert texts[0] in texts;
        NonEmptyStrippedMember(cells, texts[0]);
      }
    }
  }

  lemma JoinStartsWithFirst(xs: seq<string>, sep: string)
    requires xs != []
    ensures StartsWith(Join(xs, sep), xs[0])
  {
    if |xs| > 1 {
      assert Join(xs, sep) == xs[0] + (sep + Join(xs[1..], sep));
    }
  }

  lemma {:induction false} JoinEndsWithLast(xs: seq<string>, sep: string)
    requires xs != []
    ensures EndsWith(Join(xs, sep), xs[|xs| - 1])
  {
    if |xs| > 1 {
      JoinEndsWithLast(xs[1..], sep);
      var rest := Join(xs[1..], sep);
      var last := xs[|xs| - 1];
      var head := xs[0] + sep;
      assert Join(xs, sep) == head + rest;
      assert (head + rest)[|head + rest| - |last|..] == rest[|rest| - |last|..];
    }
  }

  lemma {:induction false} TableLinesStripped(rows: Table)
    ensures forall k :: 0 <= k < |TableLines(rows)| ==>
              TableLines(rows)[k] != [] && IsStripped(Python, TableLines(rows)[k])
  {
    if rows != [] {
      TableLinesStripped(rows[..|rows| - 1]);
      RowLineSpec(rows[|rows| - 1]);
    }
  }

  lemma {:induction false} TablesLinesStripped(tables: seq<Table>)
    ensures forall k :: 0 <= k < |TablesLines(tables)| ==>
              TablesLines(tables)[k] != [] && IsStripped(Python, TablesLines(tables)[k])
  {
    if tables != [] {
      TablesLinesStripped(tables[..|tables| - 1]);
      TableLinesStripped(tables[|tables| - 1]);
    }
  }

  /** Every line taken from a readable Word document is non-empty and carries no
      surrounding whitespace; an unreadable one gives its error line, split. */
  lemma DocxLinesSpec(src: DocxSource)
    ensures src.DocxParsed? ==> forall k :: 0 <= k < |DocxLines(src)| ==>
              DocxLines(src)[k] != [] && IsStripped(Python, DocxLines(src)[k])
    ensures src.DocxUnreadable? ==>
              DocxLines(src) == SentenceSplit("[Error processing .docx file: " + src.message + "]")
  {
    match src
    case DocxParsed(doc) =>
      NonEmptyStrippedSpec(doc.paragraphs);
      TablesLinesStripped(doc.tables);
      SplitAllStripped(DocxContent(src));
    case DocxUnreadable(m) =>
      var c := DocxContent(src);
      assert c[..|c| - 1] == [];
      assert SplitAll(c) == SplitAll([]) + SentenceSplit(c[0]);
  }

  /** The loop `t = x.strip(); if t: out.append(t)`, run over a document's
      paragraphs and over a table row's cells. */
  method CollectStripped(xs: seq<string>) returns (out: seq<string>)
    ensures out == NonEmptyStripped(xs)
  {
    out := [];
    var k := 0;
    while k < |xs|
      invariant 0 <= k <= |xs|
      invariant out == NonEmpty(StripAll(xs)[..k])
    {
      NonEmptyStep(StripAll(xs), k);
      var t := Strip(Python, xs[k]);
      if t != [] {
        out := out + [t];
      }
      k := k + 1;
    }
    assert StripAll(xs)[..k] == StripAll(xs);
  }

  /** The row loop of one table. */
  method TableText(table: Table) returns (out: seq<string>)
    ensures out == TableLines(table)
  {
    out := [];
    var r := 0;
    while r < |table|
      invariant 0 <= r <= |table|
      invariant out == TableLines(table[..r])
    {
      assert table[..r + 1][..r] == table[..r];
      var rowText := CollectStripped(table[r]);
      if rowText != [] {
        out := out + [Join(rowText, "    ")];
      }
      r := r + 1;
    }
    assert table[..r] == table;
  }

  /** The table loop: every table's rows, in order. */
  method TablesText(tables: seq<Table>) returns (out: seq<string>)
    ensures out == TablesLines(tables)
  {
    out := [];
    var t := 0;
    while t < |tables|
      invariant 0 <= t <= |tables|
      invariant out == TablesLines(tables[..t])
    {
      assert tables[..t + 1][..t] == tables[..t];
      var rows := TableText(tables[t]);
      out := out + rows;
      t := t + 1;
    }
    assert tables[..t] == tables;
  }

  /** `extraction_from_docx` without the inline shapes. */
  method ExtractionFromDocx(src: DocxSource) returns (lines: seq<string>)
    ensures lines == DocxLines(src)
  {
    var allContent: seq<string>;
    if src.DocxUnreadable? {
      allContent := ["[Error processing .docx file: " + src.message + "]"];
    } else {
      allContent := CollectStripped(src.doc.paragraphs);
      var rows := TablesText(src.doc.tables);
      allContent := allContent + rows;
    }
    lines := SplitLines(allContent);
  }

  // --------------------------------------------------------------- PDF files

  /** A text span of a page's `get_text("dict")`. */
  datatype Span = Span(text: string, size: real, color: int)

  /** A block: its `type` (`-1` when absent) and its lines of spans (empty when
      it has no `lines` entry). */
  datatype Block = Block(blockType: int, lines: seq<seq<Span>>)

  /** A page's blocks, or `None` when its text dictionary has no `blocks` entry. */
  type Page = Option<seq<Block>>

  /** What `fitz.open` gives: the pages, or the message of its exception. */
  datatype PdfSource = PdfOpened(pages: seq<Page>) | PdfUnreadable(message: string)

  function SpanTexts(spans: seq<Span>): (r: seq<string>)
    ensures |r| == |spans| && forall k :: 0 <= k < |spans| ==> r[k] == spans[k].text
  {
    seq(|spans|, k requires 0 <= k < |spans| => spans[k].text)
  }

  /** The text of one line: its non-empty stripped spans joined by single spaces. */
  function PdfLineText(spans: seq<Span>): string {
    Join(NonEmptyStripped(SpanTexts(spans)), " ")
  }

  function LinesText(lines: seq<seq<Span>>): seq<string> {
    if lines == [] then []
    else
      var t := PdfLineText(lines[|lines| - 1]);
      LinesText(lines[..|lines| - 1]) + (if t != [] then [t] else [])
  }

  function BlocksText(blocks: seq<Block>): seq<string> {
    if blocks == [] then []
    else
      var b := blocks[|blocks| - 1];
      BlocksText(blocks[..|blocks| - 1]) + (if b.blockType == 0 then LinesText(b.lines) else [])
  }

  /** `combined_content` over the pages, or `None` as soon as a page has no blocks
      (the `KeyError` the loop raises). */
  function PagesText(pages: seq<Page>): Option<seq<string>> {
    if pages == [] then Some([])
    else
      match PagesText(pages[..|pages| - 1])
      case None => None
      case Some(before) =>
        match pages[|pages| - 1]
        case None => None
        case Some(blocks) => Some(before + BlocksText(blocks))
  }

  /** What `extraction_from_pdfs` returns, or `None` when it raises. */
  function PdfLines(src: PdfSource): Option<seq<string>> {
    match src
    case PdfUnreadable(_) => None
    case PdfOpened(pages) =>
      match PagesText(pages)
      case None => None
      case Some(combined) => Some(SentenceSplit(Join(combined, " ")))
  }

  lemma {:induction false} LinesTextStripped(lines: seq<seq<Span>>)
    ensures forall k :: 0 <= k < |LinesText(lines)| ==>
              LinesText(lines)[k] != [] && IsStripped(Python, LinesText(lines)[k])
  {
    if lines != [] {
      LinesTextStripped(lines[..|lines| - 1]);
      var texts := NonEmptyStripped(SpanTexts(lines[|lines| - 1]));
      NonEmptyStrippedSpec(SpanTexts(lines[|lines| - 1]));
      if texts != [] {
        JoinStripped(texts, " ");
      }
    }
  }

  lemma {:induction false} BlocksTextStripped(blocks: seq<Block>)
    ensures forall k :: 0 <= k < |BlocksText(blocks)| ==>
              BlocksText(blocks)[k] != [] && IsStripped(Python, BlocksText(blocks)[k])
  {
    if blocks != [] {
      BlocksTextStripped(blocks[..|blocks| - 1]);
      LinesTextStripped(blocks[|blocks| - 1].lines);
    }
  }

  lemma {:induction false} PagesTextStripped(pages: seq<Page>)
    ensures PagesText(pages).Some? ==> forall k :: 0 <= k < |PagesText(pages).value| ==>
              PagesText(pages).value[k] != [] && IsStripped(Python, PagesText(pages).value[k])
  {
    if pages != [] {
      PagesTextStripped(pages[..|pages| - 1]);
      if pages[|pages| - 1].Some? {
        BlocksTextStripped(pages[|pages| - 1].value);
      }
    }
  }

  /** The texts of some lines are exactly their non-empty line texts. */
  lemma LinesTextMember(lines: seq<seq<Span>>, t: string)
    ensures t in LinesText(lines) <==> t != [] && exists i :: 0 <= i < |lines| && t == PdfLineText(lines[i])
  {
    if t in LinesText(lines) {
      LinesTextSound(lines, t);
    }
    if t != [] && exists i :: 0 <= i < |lines| && t == PdfLineText(lines[i]) {
      var i :| 0 <= i < |lines| && t == PdfLineText(lines[i]);
      LinesTextComplete(lines, t, i);
    }
  }

  lemma {:induction false} LinesTextSound(lines: seq<seq<Span>>, t: string)
    requires t in LinesText(lines)
    ensures t != [] && exists i :: 0 <= i < |lines| && t == PdfLineText(lines[i])
    decreases |lines|
  {
    var n := |lines| - 1;
    var init := lines[..n];
    var last := PdfLineText(lines[n]);
    assert LinesText(lines) == LinesText(init) + (if last != [] then [last] else []);
    if t in LinesText(init) {
      LinesTextSound(init, t);
      var i :| 0 <= i < |init| && t == PdfLineText(init[i]);
      assert init[i] == lines[i];
    }
  }

  lemma {:induction false} LinesTextComplete(lines: seq<seq<Span>>, t: string, i: nat)
    requires i < |lines| && t != [] && t == PdfLineText(lines[i])
    ensures t in LinesText(lines)
    decreases |lines|
  {
    var n := |lines| - 1;
    var init := lines[..n];
    var last := PdfLineText(lines[n]);
    if i < n {
      LinesTextInit(lines, t, i);
      assert LinesText(lines) == LinesText(init) + (if last != [] then [last] else []);
    } else {
      assert LinesText(lines) == LinesText(init) + [t];
    }
  }

  lemma LinesTextInit(lines: seq<seq<Span>>, t: string, i: nat)
    requires i < |lines| - 1 && t != [] && t == PdfLineText(lines[i])
    ensures t in LinesText(lines[..|lines| - 1])
    decreases |lines|, 0
  {
    var init := lines[..|lines| - 1];
    assert init[i] == lines[i];
    LinesTextComplete(init, t, i);
  }

  /** Only text blocks contribute: the texts of some blocks are exactly those of
      the lines of their blocks of type 0. */
  lemma BlocksTextMember(blocks: seq<Block>, t: string)
    ensures t in BlocksText(blocks) <==>
              exists b :: 0 <= b < |blocks| && blocks[b].blockType == 0 && t in LinesText(blocks[b].lines)
  {
    if t in BlocksText(blocks) {
      BlocksTextSound(blocks, t);
    }
    if b :| 0 <= b < |blocks| && blocks[b].blockType == 0 && t in LinesText(blocks[b].lines) {
      BlocksTextComplete(blocks, t, b);
    }
  }

  lemma {:induction false} BlocksTextSound(blocks: seq<Block>, t: string)
    requires t in BlocksText(blocks)
    ensures exists b :: 0 <= b < |blocks| && blocks[b].blockType == 0 && t in LinesText(blocks[b].lines)
    decreases |blocks|
  {
    var n := |blocks| - 1;
    var init := blocks[..n];
    var last := blocks[n];
    assert BlocksText(blocks) == BlocksText(init) + (if last.blockType == 0 then LinesText(last.lines) else []);
    if t in BlocksText(init) {
      BlocksTextSound(init, t);
      var b :| 0 <= b < |init| && init[b].blockType == 0 && t in LinesText(init[b].lines);
      assert init[b] == blocks[b];
    }
  }

  lemma {:induction false} BlocksTextComplete(blocks: seq<Block>, t: string, b: nat)
    requires b < |blocks| && blocks[b].blockType == 0 && t in LinesText(blocks[b].lines)
    ensures t in BlocksText(blocks)
    decreases |blocks|
  {
    var n := |blocks| - 1;
    var init := blocks[..n];
    var last := blocks[n];
    if b < n {
      BlocksTextInit(blocks, t, b);
      assert BlocksText(blocks) == BlocksText(init) + (if last.blockType == 0 then LinesText(last.lines) else []);
    } else {
      assert BlocksText(blocks) == BlocksText(init) + LinesText(last.lines);
    }
  }

  lemma BlocksTextInit(blocks: seq<Block>, t: string, b: nat)
    requires b < |blocks| - 1 && blocks[b].blockType == 0 && t in LinesText(blocks[b].lines)
    ensures t in BlocksText(blocks[..|blocks| - 1])
    decreases |blocks|, 0
  {
    var init := blocks[..|blocks| - 1];
    assert init[b] == blocks[b];
    BlocksTextComplete(init, t, b);
  }

  /** When every page has blocks the pages give text, and it is exactly the
      text of the blocks of some page. */
  lemma {:induction false} PagesTextMember(pages: seq<Page>, t: string)
    requires forall p :: 0 <= p < |pages| ==> pages[p].Some?
    ensures PagesText(pages).Some?
    ensures t in PagesText(pages).value <==> exists p :: 0 <= p < |pages| && t in BlocksText(pages[p].value)
    decreases |pages|
  {
    if pages != [] {
      var n := |pages| - 1;
      var init := pages[..n];
      assert forall p :: 0 <= p < n ==> init[p] == pages[p];
      PagesTextMember(init, t);
      assert PagesText(pages).value == PagesText(init).value + BlocksText(pages[n].value);
      if t in PagesText(init).value {
        var p :| 0 <= p < |init| && t in BlocksText(init[p].value);
        assert init[p] == pages[p];
      }
      if p :| 0 <= p < |pages| && t in BlocksText(pages[p].value) {
        if p < n {
          assert init[p] == pages[p];
        }
      }
    }
  }

  /** A PDF with any page lacking blocks raises; otherwise its text is split into
      sentences that are all non-empty and stripped, except that a document with
      no text at all gives the single empty line. */
  lemma PdfLinesSpec(src: PdfSource)
    ensures src.PdfUnreadable? ==> PdfLines(src).None?
    ensures src.PdfOpened? && (exists p :: 0 <= p < |src.pages| && src.pages[p].None?) ==>
              PdfLines(src).None?
    ensures PdfLines(src).Some? ==>
              var ls := PdfLines(src).value;
              ls == [""] || forall k :: 0 <= k < |ls| ==> ls[k] != [] && IsStripped(Python, ls[k])
  {
    if src.PdfOpened? {
      if exists p :: 0 <= p < |src.pages| && src.pages[p].None? {
        var p :| 0 <= p < |src.pages| && src.pages[p].None?;
        PagesTextMissing(src.pages, p);
      }
      PagesTextStripped(src.pages);
      if PagesText(src.pages).Some? {
        var combined := PagesText(src.pages).value;
        if combined == [] {
          assert Join(combined, " ") == "";
          assert SplitFrom("", 0, 0).pieces == [""];
        } else {
          JoinStripped(combined, " ");
          SplitOfStripped(Join(combined, " "));
        }
      }
    }
  }

  lemma {:induction false} PagesTextMissing(pages: seq<Page>, p: nat)
    requires p < |pages| && pages[p].None?
    ensures PagesText(pages).None?
  {
    if p < |pages| - 1 {
      PagesTextMissing(pages[..|pages| - 1], p);
    }
  }

  /** The span loop: `line_text` grows by a space and the next non-empty
      stripped span. */
  method LineText(spans: seq<Span>) returns (lineText: string)
    ensures lineText == PdfLineText(spans)
  {
    var stripped := StripAll(SpanTexts(spans));
    lineText := "";
    var k := 0;
    while k < |spans|
      invariant 0 <= k <= |spans|
      invariant lineText == Join(NonEmpty(stripped[..k]), " ")
    {
      ghost var texts := NonEmpty(stripped[..k]);
      NonEmptyStep(stripped, k);
      NonEmptyElements(stripped[..k]);
      var spanText := Strip(Python, spans[k].text);
      assert spanText == stripped[k];
      if spanText != [] {
        if lineText != "" {
          JoinSnoc(texts, spanText, " ");
          lineText := lineText + " ";
        } else {
          assert texts + [spanText] == [spanText];
        }
        lineText := lineText + spanText;
      } else {
        assert NonEmpty(stripped[..k + 1]) == texts + [] == texts;
      }
      k := k + 1;
    }
    assert stripped[..k] == stripped;
  }

  /** The line loop of one text block. */
  method BlockText(lines: seq<seq<Span>>) returns (texts: seq<string>)
    ensures texts == LinesText(lines)
  {
    texts := [];
    var l := 0;
    while l < |lines|
      invariant 0 <= l <= |lines|
      invariant texts == LinesText(lines[..l])
    {
      assert lines[..l + 1][..l] == lines[..l];
      var lineText := LineText(lines[l]);
      if lineText != "" {
        texts := texts + [lineText];
      }
      l := l + 1;
    }
    assert lines[..l] == lines;
  }

  /** The block loop of one page. */
  method PageText(blocks: seq<Block>) returns (texts: seq<string>)
    ensures texts == BlocksText(blocks)
  {
    texts := [];
    var b := 0;
    while b < |blocks|
      invariant 0 <= b <= |blocks|
      invariant texts == BlocksText(blocks[..b])
    {
      assert blocks[..b + 1][..b] == blocks[..b];
      if blocks[b].blockType == 0 {
        var lineTexts := BlockText(blocks[b].lines);
        texts := texts + lineTexts;
      }
      b := b + 1;
    }
    assert blocks[..b] == blocks;
  }

  /** `extraction_from_pdfs`: `None` stands for the `ValueError` it raises. */
  method ExtractionFromPdfs(src: PdfSource) returns (lines: Option<seq<string>>)
    ensures lines == PdfLines(src)
  {
    if src.PdfUnreadable? {
      return None;
    }
    var pages := src.pages;
    var combined: seq<string> := [];
    var p := 0;
    while p < |pages|
      invariant 0 <= p <= |pages|
      invariant PagesText(pages[..p]) == Some(combined)
    {
      assert pages[..p + 1][..p] == pages[..p];
      if pages[p].None? {
        PagesTextMissing(pages, p);
        return None;
      }
      var texts := PageText(pages[p].value);
      combined := combined + texts;
      p := p + 1;
    }
    assert pages[..p] == pages;
    lines := Some(SentenceSplit(Join(combined, " ")));
  }
}
