# parallel-file-search, modelled in Dafny

parallel-file-search is a small web application. Users upload files and a
search pattern, and the application reports where the pattern occurs:

- Excel workbooks are decoded and searched in the browser (`ExcelFiles.jsx`).
- Text, Word and PDF files are sent to a Python back end (`TextFiles.py`).
  The back end cuts each file's lines into chunks, searches the chunks in a
  process pool and groups the matching lines per file.
- Research papers in PDF form are read by `ResearchFiles.py`. It finds each
  paper's title and the paragraph that follows a given heading.
- The text-search page keeps a history of searches and saves any of them as a
  plain-text report (`TextFiles.jsx`).
- `GeneratePDF.py` exports results as a PDF with only ASCII characters.

The Dafny project models the logic of these parts and proves what they
promise:

| file | module | models |
|---|---|---|
| `text.dfy` | `Text` | Shared string vocabulary: ASCII case mapping, Python's and JavaScript's whitespace and `strip`/`trim`, `join`, `split` on one character, decimal strings. |
| `highlight.dfy` | `Highlighting` | The highlight splitter of both result views. It follows the ECMAScript `@@split` algorithm with a capturing, case-insensitive literal pattern. |
| `workbook_search.dfy` | `WorkbookSearch` | The workbook search of `ExcelFiles.jsx`: cell and row matching, the sheet and workbook scans (imperative loops proved against specification functions), the header rule, `Promise.all`, the result filter. It also holds the page's state as the class `ExcelPage`. |
| `extraction.dfy` | `Extraction` | The Word and PDF text extraction of `TextFiles.py`, and the sentence split `re.split(r'(?<=\.)\s+', …)`. |
| `line_search.dfy` | `LineSearch` | `process_chunk`, the chunking and the chunk size, `start_line`, collection in completion order, and the per-file grouping. |
| `research.dfy` | `Research` | Title selection, and the four-state heading reader with its early exits at every loop level. |
| `text_page.dfy` | `TextSearchPage` | The text-search page: submit guard, request pattern, history (class `TextPage`), the downloadable report and its name. |
| `generate_pdf.dfy` | `PdfExport` | `sanitize_text` and the request guard of `generate_pdf`. |

Operations that change state step by step are Dafny methods with loops. Each
one is proved equal to a specification function, and the properties are
proved about those functions. Concurrency is modelled sequentially. The order
in which `as_completed` hands back futures is a parameter: any permutation of
the submitted tasks is allowed. Properties that depend on that order are
stated as multisets.

In these places the code behaves in ways a reader might not expect; the model
follows the code:

- The workbook page tests the raw pattern for emptiness, not the trimmed one
  (`ExcelFiles.jsx:22`). A pattern of spaces therefore passes the guard,
  becomes `""` after trimming, and matches every row with a truthy cell. See
  `WorkbookSearch.BlankPatternMatchesEveryTruthyRow`.
- An exception thrown by the workbook decoder inside `reader.onload`
  (`ExcelFiles.jsx:38-72`) is not turned into a rejection. That promise never
  settles, so no record is added and the busy flag stays set. This is the
  `Stalled` outcome. It is not a cleared indicator.
- On the text page, `files.length` is read before the `try`
  (`TextFiles.jsx:14`). With no file list chosen this throws, and the busy
  flag stays set.
- The text page also tests the raw pattern (`TextFiles.jsx:14`) but posts
  `pattern.toLowerCase().trim()` (`TextFiles.jsx:22`). A pattern of spaces is
  therefore posted as `""`, which the server always refuses with status 400
  (`TextFiles.py:123-124`). The page then throws inside the `try`, adds no
  record and clears the busy flag: the history is unchanged. The server's
  reply is a parameter of `TextSearchPage.TextPage.HandleSearch`, so the model
  leaves it to the caller to pass that refusal for this request.
- A file with an unsupported extension reaches `jsonify` inside the worker
  process (`TextFiles.py:52`). When workers are started fresh (the spawn and
  forkserver start methods), there is no Flask application context there, so
  the call raises, the handler catches it and the file contributes `[]`. The
  model assumes this start method; the fork case is listed under "Left out".

## Model

| member | source | states |
|---|---|---|
| Highlighting.HighlightSpec | frontend/src/components/ExcelFiles.jsx:200-217 | The parts rejoin to the cell text. For a non-empty pattern with k occurrences there are 2k+1 parts, exactly the odd-position ones are flagged, each flagged part equals the pattern ignoring case, and no unflagged part contains it. For the empty pattern every character becomes its own part. |
| Highlighting.SplitRoundTrip | frontend/src/components/ExcelFiles.jsx:202-205 | For every pattern, concatenating the parts of the split gives back the text. |
| Highlighting.SplitShape | frontend/src/components/ExcelFiles.jsx:202-205 | For a non-empty pattern the split has 2k+1 parts, with the occurrences at odd positions and no occurrence inside the other parts. |
| Highlighting.HighlightIdempotent | frontend/src/components/ExcelFiles.jsx:200-217 | Highlighting the text rebuilt from a highlight gives the same parts again. |
| WorkbookSearch.CellMatches | frontend/src/components/ExcelFiles.jsx:56-60 | A matching cell is never empty, zero, `false` or the empty string. With the empty pattern a cell matches exactly when it is truthy. |
| WorkbookSearch.BoolCellMatches | frontend/src/components/ExcelFiles.jsx:56-60 | A boolean cell matches exactly when it is `true` and the pattern occurs in the text `true`. |
| WorkbookSearch.SheetMatchesSpec | frontend/src/components/ExcelFiles.jsx:55-68 | A match is reported iff it names this sheet, a 1-based row index and that row's data, and the row has a matching cell. |
| WorkbookSearch.SheetMatchesOrdered | frontend/src/components/ExcelFiles.jsx:55-68 | A sheet's matches have strictly increasing row indices within the sheet's rows. |
| WorkbookSearch.WorkbookMatchesAppend | frontend/src/components/ExcelFiles.jsx:46-69 | The matches of two runs of sheets are the first run's matches followed by the second's (sheet order). |
| WorkbookSearch.WorkbookMatchesSpec | frontend/src/components/ExcelFiles.jsx:46-69 | A match is reported iff it describes a matching row of one of the sheets. |
| WorkbookSearch.FirstHeaderSpec | frontend/src/components/ExcelFiles.jsx:44-52 | The header is absent iff no sheet has rows. Otherwise it is the first row of the first sheet that has rows. |
| WorkbookSearch.ScanSheet | frontend/src/components/ExcelFiles.jsx:55-68 | The row loop pushes exactly the sheet's matches. |
| WorkbookSearch.ScanWorkbook | frontend/src/components/ExcelFiles.jsx:43-69 | The sheet loop yields the first-header rule's header and the workbook's matches. |
| WorkbookSearch.SearchFile | frontend/src/components/ExcelFiles.jsx:30-78 | A file that is not of the two Excel types resolves at once with no header and no matches. A workbook resolves with its header and matches, rejects on a read error, and stays pending when decoding throws. |
| WorkbookSearch.AwaitAll | frontend/src/components/ExcelFiles.jsx:81-100 | `Promise.all` resolves iff every task resolved, and then to their results in order. It rejects iff some task rejected. |
| WorkbookSearch.FilterMatchedSpec | frontend/src/components/ExcelFiles.jsx:83-85 | The filter keeps exactly the results with at least one match. |
| WorkbookSearch.FilterMatchedAppend | frontend/src/components/ExcelFiles.jsx:83-85 | The filter keeps submission order. |
| WorkbookSearch.FilterMatchedPointwise | frontend/src/components/ExcelFiles.jsx:83-85 | Filtering a list gives the concatenation, in order, of filtering each element on its own. |
| WorkbookSearch.ResolvedShown | frontend/src/components/ExcelFiles.jsx:82-85 | When every file task resolves, the filtered results are, in submission order, the result of each Excel upload that decodes and has matches. |
| WorkbookSearch.ResolvedMembers | frontend/src/components/ExcelFiles.jsx:82-85 | When every file task resolves, a result is shown iff it is the result of some submitted workbook with matches. |
| WorkbookSearch.StartAll | frontend/src/components/ExcelFiles.jsx:30-79 | One task per file, in submission order. |
| WorkbookSearch.SearchSpec | frontend/src/components/ExcelFiles.jsx:18-100 | Without files or pattern nothing is searched. When every workbook decodes, a record with the trimmed pattern and all file names is produced. Its results are exactly, in submission order and once each, the results of the submitted workbooks that have matches. |
| WorkbookSearch.BlankPatternMatchesEveryTruthyRow | frontend/src/components/ExcelFiles.jsx:22-28 | A pattern of spaces passes the guard, lowercases and trims to `""`, and matches exactly the rows that have a truthy cell. |
| WorkbookSearch.RenderCell | frontend/src/components/ExcelFiles.jsx:200-217 | An empty cell renders nothing. Any other cell renders parts that rejoin to its string form. |
| WorkbookSearch.ExcelPage.constructor | frontend/src/components/ExcelFiles.jsx:13-16 | No files, empty pattern, empty history, not busy. |
| WorkbookSearch.ExcelPage.SetFiles | frontend/src/components/ExcelFiles.jsx:139 | The chosen file list replaces the old one. |
| WorkbookSearch.ExcelPage.SetPattern | frontend/src/components/ExcelFiles.jsx:127 | The typed pattern replaces the old one. |
| WorkbookSearch.ExcelPage.HandleSearch | frontend/src/components/ExcelFiles.jsx:18-101 | A successful search prepends its record and keeps older records. Every other path leaves the history as it was. The busy flag stays set exactly when a promise never settles. |
| WorkbookSearch.TwoSearches | frontend/src/components/ExcelFiles.jsx:87-94 | After two successful searches the newer record comes first. |
| Extraction.SentenceSplitSpec | backend/TextFiles.py:211 | The pieces interleaved with the removed whitespace runs give back the input. Every piece but the last ends with `.`. No piece holds a `.`-then-whitespace break. Later pieces do not start with whitespace. The first piece is empty only for empty input. |
| Extraction.SplitOfStripped | backend/TextFiles.py:242 | Splitting a non-empty stripped text gives non-empty stripped pieces. |
| Extraction.NoBreakUnsplit | backend/TextFiles.py:211 | A text without a break comes back as one piece. |
| Extraction.SplitAllAppend | backend/TextFiles.py:209-212 | Splitting a concatenation of line lists is concatenating their splits. |
| Extraction.SplitAllStripped | backend/TextFiles.py:209-212 | Non-empty stripped lines split into non-empty stripped pieces. |
| Extraction.SplitLines | backend/TextFiles.py:209-214 | The loop's `final_content` is the specification's sentence split of every line. |
| Extraction.NonEmptyStrippedSpec | backend/TextFiles.py:188-191 | The kept texts are non-empty and stripped, and there are no more of them than inputs. |
| Extraction.NonEmptyStrippedMember | backend/TextFiles.py:188-191 | A text is kept iff it is non-empty and is the strip of some input. |
| Extraction.JoinStripped | backend/TextFiles.py:193 | Joining non-empty stripped texts gives a non-empty stripped text that starts with the first and ends with the last. |
| Extraction.RowLineSpec | backend/TextFiles.py:186-193 | A row is dropped iff every cell strips to empty. Otherwise its line is stripped, starts with the first non-empty cell text and ends with the last. |
| Extraction.TableLinesStripped | backend/TextFiles.py:186-193 | Every line produced from a table is non-empty and stripped. |
| Extraction.TablesLinesStripped | backend/TextFiles.py:185-193 | The same, for all tables in order. |
| Extraction.DocxLinesSpec | backend/TextFiles.py:174-214 | A parsed document yields non-empty stripped pieces. An unreadable one yields the split of the single error line. |
| Extraction.CollectStripped | backend/TextFiles.py:188-191 | The cell loop keeps the non-empty stripped cell texts. |
| Extraction.TableText | backend/TextFiles.py:186-193 | The row loop yields the table's lines. |
| Extraction.TablesText | backend/TextFiles.py:185-193 | The table loop yields all tables' lines. |
| Extraction.ExtractionFromDocx | backend/TextFiles.py:174-214 | The extractor yields the specified lines, or the error line on a parse failure. |
| Extraction.LinesTextStripped | backend/TextFiles.py:229-238 | Every line text kept from a block is non-empty and stripped. |
| Extraction.BlocksTextStripped | backend/TextFiles.py:227-238 | Every kept line of the blocks is non-empty and stripped. |
| Extraction.PagesTextStripped | backend/TextFiles.py:224-238 | Across pages, every kept line is non-empty and stripped. |
| Extraction.PagesTextMissing | backend/TextFiles.py:225 | A page without blocks makes the whole extraction fail. |
| Extraction.LinesTextMember | backend/TextFiles.py:229-238 | A text is kept from a block's lines iff it is non-empty and is the joined text of one of the lines. |
| Extraction.BlocksTextMember | backend/TextFiles.py:227-238 | Only text blocks contribute: a text is kept iff it is kept from the lines of some block of type 0. |
| Extraction.PagesTextMember | backend/TextFiles.py:224-238 | When every page has blocks the pages give text, and a text is in it iff it is kept from the blocks of some page. |
| Extraction.PdfLinesSpec | backend/TextFiles.py:218-247 | An unreadable PDF or a page without blocks gives no lines (the error is raised). Otherwise the result is `[""]` or non-empty stripped sentences. |
| Extraction.LineText | backend/TextFiles.py:230-236 | The span loop builds the stripped non-empty span texts joined by single spaces. |
| Extraction.BlockText | backend/TextFiles.py:229-238 | The line loop keeps the non-empty line texts of a block. |
| Extraction.PageText | backend/TextFiles.py:227-238 | The block loop takes text blocks only. |
| Extraction.ExtractionFromPdfs | backend/TextFiles.py:218-247 | The extractor yields the specified sentences, or raises. |
| LineSearch.ProcessChunk | backend/TextFiles.py:11-27 | The loop reports the specified chunk matches. |
| LineSearch.ChunkMatchesSpec | backend/TextFiles.py:16-23 | A report exists iff some line at offset i contains the pattern ignoring case. It then carries line number `start_line + i`, the stripped line and the file name. |
| LineSearch.ChunkMatchesOrdered | backend/TextFiles.py:16-23 | Reports come in strictly increasing line order within the chunk's range. |
| LineSearch.ChunkMatchesAppend | backend/TextFiles.py:16-23 | Searching a + b from line s is searching a from s, then b from s + \|a\|. |
| LineSearch.ChunkMatchesEmpty | backend/TextFiles.py:16-23 | A chunk reports nothing iff none of its lines holds the pattern. |
| LineSearch.ChunksSpec | backend/TextFiles.py:31-33 | The chunks concatenate to the lines. All chunks but the last have the full size, and the last is non-empty and at most that size. There are no chunks iff there are no lines. |
| LineSearch.ChunkCount | backend/TextFiles.py:31-33 | Lines that fit in k chunks of the size give at most k chunks. |
| LineSearch.ChunkSizeSpec | backend/TextFiles.py:54-59 | The chunk size is at least 1 and covers all lines over the processors, so there are at most as many chunks as processors. |
| LineSearch.SubmitChunks | backend/TextFiles.py:61-68 | One submitted job per chunk. With `start_line` advancing by each chunk's length, the jobs' reports concatenate to a search of the whole file from line 1. |
| LineSearch.PermutedFlatten | backend/TextFiles.py:70-73 | Collecting the per-chunk results in any completion order gives the same multiset as collecting them in order. |
| LineSearch.CollectAsCompleted | backend/TextFiles.py:70-73 | The collection loop yields the multiset of all chunk reports. |
| LineSearch.LastIndexSpec | backend/TextFiles.py:42 | `rfind` gives a position holding the character when it finds one, and no later position holds it. |
| LineSearch.ExtensionIsSplitExt | backend/TextFiles.py:42 | The scan of the name agrees with `posixpath.splitext` on every name. The result is the text from the last dot when that dot lies in the last path component and a non-dot precedes it there, and empty otherwise. |
| LineSearch.ExtensionSpec | backend/TextFiles.py:42 | The extension is empty or a suffix of the name that starts with its only dot and holds no slash. |
| LineSearch.ReadFileLines | backend/TextFiles.py:42-52 | The extension dispatch yields the lines of a `.txt`, `.docx` or `.pdf` upload (case-insensitive extension). It yields nothing for any other extension or a failed decode. |
| LineSearch.FileLineMatchesSpec | backend/TextFiles.py:37-82 | Every report carries the file's name. A file reports something iff the processor count is known, its lines were extracted, and some line holds the pattern. |
| LineSearch.ParallelSearchInFileContent | backend/TextFiles.py:37-82 | For any completion order, one file's search reports the same multiset as a sequential search of all its lines. |
| LineSearch.SearchEachFile | backend/TextFiles.py:92-100 | One search per upload, in upload order. Each file's entry holds that file's reports in some order. |
| LineSearch.GroupsSpec | backend/TextFiles.py:102-108 | A group exists iff some file reported matches. It then holds those matches under the first match's file name. |
| LineSearch.GroupAsCompleted | backend/TextFiles.py:102-108 | Grouping in completion order yields the same multiset of groups. |
| LineSearch.GroupOfFile | backend/TextFiles.py:102-108 | Every group has matches and belongs to an uploaded file of the same name. |
| LineSearch.ParallelSearchInMultipleFiles | backend/TextFiles.py:86-114 | Every returned group is non-empty and belongs to an upload of that name, with the same multiset of matches as that file's search. The groups are, as a multiset, those of the per-file searches. |
| Research.RoundHalfEvenSpec | backend/ResearchFiles.py:120 | Python's `round` gives a nearest integer, the only one within less than a half, and the even one on a tie. |
| Research.FirstMissing | backend/ResearchFiles.py:17-24 | Names the first page without blocks, all earlier pages having them, or none when every page has them. |
| Research.MaxSize | backend/ResearchFiles.py:45-48 | The largest candidate size is attained and bounds every candidate. |
| Research.TextsOfSizeMember | backend/ResearchFiles.py:50-54 | A text is kept iff some candidate with that text has the given size. |
| Research.TitleOfSpec | backend/ResearchFiles.py:45-61 | Without candidates the title is "Unknown Title". Otherwise it is made of exactly the candidates no other candidate is larger than, and there is at least one. |
| Research.SpanCandidatesSpec | backend/ResearchFiles.py:31-43 | Every candidate is a stripped span text longer than five characters with no digit. |
| Research.SpanCandidatesMember | backend/ResearchFiles.py:34-43 | A candidate comes from a line iff it is the stripped text and size of one of its spans, and that text is longer than five characters with no digit. |
| Research.LineCandidatesMember | backend/ResearchFiles.py:33-43 | The candidates of some lines are exactly those of one of the lines. |
| Research.BlockCandidatesMember | backend/ResearchFiles.py:31-43 | Only text blocks give candidates: a candidate comes from the blocks iff it comes from the lines of some block of type 0. |
| Research.TitleSpec | backend/ResearchFiles.py:10-69 | The first page without blocks gives the error title naming that page. With all pages present, the title comes from the candidates. |
| Research.SpanTitles | backend/ResearchFiles.py:34-43 | The span loop appends exactly the specified candidates. |
| Research.LineTitles | backend/ResearchFiles.py:33-43 | The line loop appends the candidates of every line. |
| Research.GatherBlocks | backend/ResearchFiles.py:17-26 | The page loop stops at the first page without blocks. Otherwise it collects all blocks in order. |
| Research.BlockTitles | backend/ResearchFiles.py:29-43 | The block loop collects the candidates of the text blocks. |
| Research.LargestSize | backend/ResearchFiles.py:46-48 | Gives the size the descending sort puts first. |
| Research.LargestTitles | backend/ResearchFiles.py:50-54 | Keeps the texts of that size, in document order. |
| Research.ExtractTitle | backend/ResearchFiles.py:10-69 | `extract_title_from_pdf` returns the specified title or the error message. |
| Research.RunDone | backend/ResearchFiles.py:100-139 | Once the reader is in state 3, no later span changes anything. |
| Research.StopWhenDone | backend/ResearchFiles.py:100-114 | Spans after the reader is done are never read. |
| Research.RunForward | backend/ResearchFiles.py:116-145 | The state number never decreases and stays at most 3. |
| Research.StepCollected | backend/ResearchFiles.py:116-145 | One span either leaves the section alone or appends its stripped text, whose rounded size is the reference. Nothing is collected before state 2, and the reference is fixed only while nothing is collected. |
| Research.RunCollected | backend/ResearchFiles.py:116-139 | Every collected text is a non-empty stripped span text whose rounded size is the reference, and nothing is collected before the paragraph starts. |
| Research.NoHeadingNoParagraph | backend/ResearchFiles.py:142-145 | Without a span that starts with the heading, the reader never leaves its initial state. |
| Research.StepSpec | backend/ResearchFiles.py:116-145 | The transitions of one span: in state 0 a heading match moves to state 1; in state 1 an empty span is skipped and a non-empty one fixes size and colour and is collected; in state 2 a span that continues the paragraph is collected and any other one moves to state 3; state 3 is final. |
| Research.ReadSpec | backend/ResearchFiles.py:116-145 | With h the first heading span, f the first non-empty span after it and e the first later span that is empty or differs in rounded size or (upper case) colour, the section is exactly the stripped texts of spans f up to e, and the reader ends in state 3 iff such a span e exists. |
| Research.ReachText | backend/ResearchFiles.py:119-145 | The first non-empty span after the first heading span moves the reader to state 2 with that span's size and colour and its text as the section. |
| Research.Collect | backend/ResearchFiles.py:128-132 | Each following span that continues the paragraph is appended to the section. |
| Research.StopAt | backend/ResearchFiles.py:128-139 | A span that does not continue the paragraph ends the run with the section unchanged. |
| Research.HeadingWithoutText | backend/ResearchFiles.py:119-145 | A heading followed only by empty spans leaves the reader in state 1 with nothing collected. |
| Research.ParagraphSpec | backend/ResearchFiles.py:155 | The final strip never changes the joined texts. The paragraph is the collected texts joined by spaces, or the fallback message when none were collected. |
| Research.ReadSpans | backend/ResearchFiles.py:116-139 | The span loop, with its breaks, leaves the reader in the specified state. |
| Research.ReadLines | backend/ResearchFiles.py:112-139 | The line loop and its `count == 3` exit. |
| Research.ReadBlocks | backend/ResearchFiles.py:107-139 | The block loop, over text blocks only, and its exit. |
| Research.ReadPages | backend/ResearchFiles.py:98-145 | The page loop skips pages without blocks and exits once done. |
| Research.ExtractTextFromPdf | backend/ResearchFiles.py:79-165 | The result carries the file name, the title, the heading and the paragraph. An unreadable file gives title "Error" and the error paragraph. |
| TextSearchPage.SubmitSpec | frontend/src/components/TextFiles.jsx:12-25 | A request is posted iff a non-empty file list was chosen and the pattern is non-empty. The absent list throws. The pattern sent is the stored trimmed pattern lowercased and is stripped, and every file goes with it. |
| TextSearchPage.GroupLinesJoin | frontend/src/components/TextFiles.jsx:69-76 | A file's block is its heading line, its matched lines and two blank lines, joined by line breaks. |
| TextSearchPage.ReportAsLines | frontend/src/components/TextFiles.jsx:64-78 | The report is its line view joined by line breaks: the title, the file list, two blank lines, then each file's block. |
| TextSearchPage.ReportRoundTrip | frontend/src/components/TextFiles.jsx:64-78 | When no name or line holds a line break, splitting the report at line breaks gives back exactly that line view. |
| TextSearchPage.DownloadSpec | frontend/src/components/TextFiles.jsx:58-85 | A file is saved iff there is a record with results. Empty results save the header alone. The name is the pattern, a dash, the decimal file count and "files.txt". |
| TextSearchPage.LineViewSpec | frontend/src/components/TextFiles.jsx:167-180 | The parts of a shown match line rejoin to the line. A part is flagged iff it equals the stored pattern ignoring case. |
| TextSearchPage.TextPage.constructor | frontend/src/components/TextFiles.jsx:5-8 | No files, empty pattern, empty history, not busy. |
| TextSearchPage.TextPage.SetFiles | frontend/src/components/TextFiles.jsx:122 | The chosen file list replaces the old one. |
| TextSearchPage.TextPage.SetPattern | frontend/src/components/TextFiles.jsx:110 | The typed pattern replaces the old one. |
| TextSearchPage.TextPage.HandleSearch | frontend/src/components/TextFiles.jsx:10-56 | A request goes out exactly when the guard passes. A reply with a body prepends a record of the trimmed pattern, the names and the body, and keeps older records. Every other path leaves the history. The busy flag stays set only after the throw on a missing list. |
| PdfExport.SanitizeAscii | backend/GeneratePDF.py:6-8 | Only characters up to 0x7F remain. |
| PdfExport.SanitizeAppend | backend/GeneratePDF.py:8 | Sanitising distributes over concatenation. |
| PdfExport.SanitizeChar | backend/GeneratePDF.py:8 | A single character is kept iff it is ASCII. |
| PdfExport.SanitizeLength | backend/GeneratePDF.py:8 | Sanitising never lengthens a text. |
| PdfExport.SanitizeIdentity | backend/GeneratePDF.py:8 | A text is returned unchanged iff it is all ASCII. |
| PdfExport.SanitizeIdempotent | backend/GeneratePDF.py:8 | Sanitising twice is sanitising once. |
| PdfExport.CheckRequestSpec | backend/GeneratePDF.py:10-13 | The export goes on iff the body is an object whose `searchResults` is present and truthy. For a results array that means non-empty. A missing body or missing results is refused. |

## Left out

- Workbook, Word and PDF decoding (`XLSX.read`, `sheet_to_json`, python-docx, PyMuPDF, PyPDF2) are inputs. Decoded sheets, paragraphs, tables and pages are given values, and a decoding failure is a constructor of the input.
- `.txt` decoding and `splitlines` are an input too: the lines of the UTF-8 text, or a failure.
- Word inline shapes (`TextFiles.py:196-204`) are not modelled. The xpath walk over the shape XML is part of the parser.
- Concurrency (`Promise.all`, `ProcessPoolExecutor`, `as_completed`) runs sequentially. The completion order is a permutation parameter.
- The Flask handlers `text_files_searching` and `research_files_searching`, `jsonify`, status tuples, `app.py`, and the FPDF layout and file output of `generate_pdf` are HTTP plumbing. `ResearchFiles.jsx` is only network and download glue.
- `fetch`, `Blob`, object URLs and the DOM download link are browser I/O. The server reply is a parameter of `TextSearchPage.TextPage.HandleSearch`.
- `processId` (`os.getpid`) and the debug prints are runtime artefacts.
- Missing dictionary keys and their defaults (`span.get("size", 4)`, `block.get("lines", [])` and the like) are not modelled. Spans, lines and blocks always carry their fields. Only a page's missing `"blocks"` is modelled.
- The unused `font` variable of `extract_text_from_pdf` is not modelled. The initial colour `(0, 0, 0)` is an integer that is never compared before it is set.
- The no-op `handleDownload` of `ExcelFiles.jsx:103` does nothing and is not modelled.
- Rendering of the pages (JSX markup, themes, routing) and the other components are not modelled.
- `os.cpu_count()` returning `None` is modelled as a processor count of 0, which raises and gives `[]`.
- File extensions follow POSIX `os.path.splitext` (`/` as the only separator).
- Case mapping (`toLowerCase`, `toUpperCase`, `.lower()`, `isupper`) and `\d` are ASCII only.
- Strings are sequences of code points. JavaScript's UTF-16 code units are not modelled.
- Number-to-string conversion of non-integer workbook cells is not modelled. Cells are integers, strings, booleans or empty; date cells arrive from the decoder as serial numbers, and the model covers only integral ones of magnitude below 10^21.
- WorkbookSearch.CellString: an integral cell of magnitude 10^21 or more is printed in full decimal, while JavaScript's `toString` prints it in exponent form (`1e+21`). For such cells `CellMatches`, `SheetMatches`, `SearchSpec` and `RenderCell` can differ from the page, for example on the pattern `e+`. Integers that large are also not exact in JavaScript's floating-point numbers, which the model does not capture either.
- LineSearch.ParallelSearchInMultipleFiles: assumes workers start without the parent's Flask context (spawn or forkserver). Under the fork start method `jsonify` succeeds in the worker and returns a `(Response, 400)` tuple for an unsupported extension. Either that tuple fails to pickle or `matches[0]["fileName"]` (`TextFiles.py:106`) raises, and the handler at `TextFiles.py:112-114` then returns `[]` for the whole batch. That outcome is not modelled.
- LineSearch.ProcessChunk: `re.compile(pattern)` is modelled only for patterns without regular-expression metacharacters, where it is a literal search. The same `LiteralPattern` requirement therefore carries over to LineSearch.SubmitChunks, LineSearch.ParallelSearchInFileContent, LineSearch.SearchEachFile and LineSearch.ParallelSearchInMultipleFiles.
- Highlighting.HighlightSpec: `new RegExp("(" + pattern + ")", "gi")` is modelled only for patterns without metacharacters. The highlighters built on it, TextSearchPage.LineViewSpec, TextSearchPage.LineView and WorkbookSearch.RenderCell, carry the same `LiteralPattern` requirement.
- Research.ExtractTitle: the in-place sort by size is replaced by a scan for the largest size. The stable sort keeps equal sizes in document order, and so does the scan, so the title is the same.
- Research.ReadSpans: the four local variables `count`, `size`, `color` and `section_text` are held in one `Reader` value.
- Research.RoundHalfEvenSpec: font sizes are exact reals. Binary floating-point rounding of the sizes themselves is not modelled.
