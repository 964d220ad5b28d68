/** The in-browser workbook search of the Excel page: every cell of every row
    of every sheet of every uploaded workbook is tested against a
    case-insensitive substring; matching rows are reported per file with their
    sheet, their 1-based row number and the whole row; a search record is
    prepended to the page's history. The workbook decoder is external: each
    uploaded file arrives with what reading and decoding it gives. */
module WorkbookSearch {
  import opened Text
  import opened Highlighting

  // ------------------------------------------------------------ data model

  /** A decoded cell: a string, an integer, a boolean, or a hole in the row. */
  datatype Cell = Str(s: string) | Num(n: int) | Bool(b: bool) | Empty

  type Row = seq<Cell>

  datatype Sheet = Sheet(name: string, rows: seq<Row>)

  /** What the browser and the decoder make of one uploaded file. */
  datatype ReadOutcome =
    | Decoded(sheets: seq<Sheet>)  // the reader loaded it and the decoder returned these sheets
    | ReadError                    // the file reader reported an error
    | DecodeError                  // the decoder threw inside the reader's load callback

  datatype UploadedFile = UploadedFile(name: string, mimeType: string, read: ReadOutcome)

  datatype Match = Match(sheetName: string, rowIndex: int, rowData: Row)

  datatype FileResult = FileResult(fileName: string, headers: Option<Row>, matches: seq<Match>)

  datatype SearchRecord = SearchRecord(pattern: string, files: seq<string>, searchResults: seq<FileResult>)

  /** The promise built for one file: it resolves, rejects, or never settles
      (an exception thrown inside the load callback is not caught by the
      promise). */
  datatype FileTask = Resolved(result: FileResult) | Rejected | NeverSettles

  /** What one press of the search button does. */
  datatype SearchOutcome =
    | InputRejected          // no files or empty pattern: nothing is searched
    | Failed                 // some read failed: the error is logged, no record
    | Stalled                // some promise never settles: no record, still loading
    | Recorded(record: SearchRecord)

  const XLS_MIME: string := "application/vnd.ms-excel"
  const XLSX_MIME: string := "application/vnd.openxmlformats-officedocument.spreadsheetml.sheet"

  predicate IsExcelMime(m: string) {
    m == XLS_MIME || m == XLSX_MIME
  }

  // ------------------------------------------------------- cells and rows

  /** `cell.toString()`. */
  function CellString(c: Cell): string {
    match c
    case Str(s) => s
    case Num(n) => IntString(n)
    case Bool(b) => if b then "true" else "false"
    case Empty => ""
  }

  /** JavaScript truthiness of a cell. */
  predicate Truthy(c: Cell) {
    match c
    case Str(s) => s != ""
    case Num(n) => n != 0
    case Bool(b) => b
    case Empty => false
  }

  /** `cell && cell.toString().toLowerCase().includes(lowerPattern)`. An empty
      string, the number 0, `false` and a hole never match, whatever the
      pattern. */
  predicate CellMatches(c: Cell, lp: string)
    ensures CellMatches(c, lp) ==> c != Empty && c != Num(0) && c != Str("") && c != Bool(false)
    ensures lp == "" ==> (CellMatches(c, lp) <==> Truthy(c))
  {
    assert OccursAt(Lower(CellString(c)), lp, 0) <== lp == "";
    Truthy(c) && Contains(Lower(CellString(c)), lp)
  }

  /** A boolean cell matches only when it is `true`, and then exactly for the
      patterns that occur in "true". */
  lemma BoolCellMatches(b: bool, lp: string)
    ensures CellMatches(Bool(b), lp) <==> b && Contains("true", lp)
  {
    assert Lower("true") == "true";
  }

  /** `row.some(cell => ...)`. */
  predicate RowMatches(row: Row, lp: string) {
    exists i :: 0 <= i < |row| && CellMatches(row[i], lp)
  }

  // ------------------------------------------------------- specification

  /** Matches of one sheet, row by row (rows are numbered from 1, the header
      row included). */
  function SheetMatches(name: string, rows: seq<Row>, lp: string): seq<Match>
    decreases |rows|
  {
    if rows == [] then []
    else
      var n := |rows|;
      SheetMatches(name, rows[..n - 1], lp) +
      (if RowMatches(rows[n - 1], lp) then [Match(name, n, rows[n - 1])] else [])
  }

  /** Matches of a workbook: the sheets' matches in sheet order. */
  function WorkbookMatches(sheets: seq<Sheet>, lp: string): seq<Match>
    decreases |sheets|
  {
    if sheets == [] then []
    else
      var n := |sheets|;
      WorkbookMatches(sheets[..n - 1], lp) + SheetMatches(sheets[n - 1].name, sheets[n - 1].rows, lp)
  }

  /** The header: the first row of the first sheet that has a row; once set it
      is never replaced. */
  function FirstHeader(sheets: seq<Sheet>): Option<Row>
    decreases |sheets|
  {
    if sheets == [] then None
    else
      var n := |sheets|;
      var h := FirstHeader(sheets[..n - 1]);
      if h.Some? then h
      else if sheets[n - 1].rows != [] then Some(sheets[n - 1].rows[0])
      else None
  }

  /** A match describes a row of a sheet that matches, with its 1-based index. */
  predicate IsRowMatch(m: Match, name: string, rows: seq<Row>, lp: string) {
    m.sheetName == name && 1 <= m.rowIndex <= |rows| &&
    m.rowData == rows[m.rowIndex - 1] && RowMatches(m.rowData, lp)
  }

  /** A sheet reports a match iff it describes a matching row: every row is
      scanned and nothing else is reported. */
  lemma {:induction false} SheetMatchesSpec(name: string, rows: seq<Row>, lp: string, m: Match)
    ensures m in SheetMatches(name, rows, lp) <==> IsRowMatch(m, name, rows, lp)
    decreases |rows|
  {
    if rows != [] {
      var n := |rows|;
      var pre := rows[..n - 1];
      SheetMatchesSpec(name, pre, lp, m);
      if 1 <= m.rowIndex < n {
        assert pre[m.rowIndex - 1] == rows[m.rowIndex - 1];
      }
    }
  }

  /** A sheet's matches come in strictly increasing row order, within its rows. */
  lemma SheetMatchesOrdered(name: string, rows: seq<Row>, lp: string)
    ensures forall k :: 0 <= k < |SheetMatches(name, rows, lp)| ==>
              1 <= SheetMatches(name, rows, lp)[k].rowIndex <= |rows|
    ensures forall a, b :: 0 <= a < b < |SheetMatches(name, rows, lp)| ==>
              SheetMatches(name, rows, lp)[a].rowIndex < SheetMatches(name, rows, lp)[b].rowIndex
  {
    SheetMatchesBounded(name, rows, lp);
    SheetMatchesIncreasing(name, rows, lp);
  }

  lemma {:induction false} SheetMatchesBounded(name: string, rows: seq<Row>, lp: string)
    ensures forall k :: 0 <= k < |SheetMatches(name, rows, lp)| ==>
              1 <= SheetMatches(name, rows, lp)[k].rowIndex <= |rows|
    decreases |rows|
  {
    if rows != [] {
      var n := |rows|;
      SheetMatchesBounded(name, rows[..n - 1], lp);
      var pms := SheetMatches(name, rows[..n - 1], lp);
      var ms := SheetMatches(name, rows, lp);
      var tail := if RowMatches(rows[n - 1], lp) then [Match(name, n, rows[n - 1])] else [];
      assert ms == pms + tail;
      assert |rows[..n - 1]| == n - 1;
      forall k | 0 <= k < |ms| ensures 1 <= ms[k].rowIndex <= n {
        if k < |pms| {
          assert ms[k] == pms[k];
        } else {
          assert ms[k] == tail[k - |pms|];
        }
      }
    }
  }

  lemma {:induction false} SheetMatchesIncreasing(name: string, rows: seq<Row>, lp: string)
    ensures forall a, b :: 0 <= a < b < |SheetMatches(name, rows, lp)| ==>
              SheetMatches(name, rows, lp)[a].rowIndex < SheetMatches(name, rows, lp)[b].rowIndex
    decreases |rows|
  {
    if rows != [] {
      var n := |rows|;
      SheetMatchesIncreasing(name, rows[..n - 1], lp);
      SheetMatchesBounded(name, rows[..n - 1], lp);
      var pms := SheetMatches(name, rows[..n - 1], lp);
      var ms := SheetMatches(name, rows, lp);
      var tail := if RowMatches(rows[n - 1], lp) then [Match(name, n, rows[n - 1])] else [];
      assert ms == pms + tail;
      assert |rows[..n - 1]| == n - 1;
      forall a, b | 0 <= a < b < |ms| ensures ms[a].rowIndex < ms[b].rowIndex {
        assert ms[a] == pms[a];
        if b < |pms| {
          assert ms[b] == pms[b];
        } else {
          assert ms[b] == tail[b - |pms|];
        }
      }
    }
  }

  /** Sheet order: the matches of two runs of sheets are those of the first run
      followed by those of the second. */
  lemma {:induction false} WorkbookMatchesAppend(a: seq<Sheet>, b: seq<Sheet>, lp: string)
    ensures WorkbookMatches(a + b, lp) == WorkbookMatches(a, lp) + WorkbookMatches(b, lp)
    decreases |b|
  {
    if b == [] {
      assert a + b == a;
    } else {
      var n := |b|;
      var init := b[..n - 1];
      var last := b[n - 1];
      var tail := SheetMatches(last.name, last.rows, lp);
      assert WorkbookMatches(a + b, lp) == WorkbookMatches(a + init, lp) + tail by {
        assert (a + b)[..|a + b| - 1] == a + init;
        assert (a + b)[|a + b| - 1] == last;
      }
      assert WorkbookMatches(a + init, lp) == WorkbookMatches(a, lp) + WorkbookMatches(init, lp) by {
        WorkbookMatchesAppend(a, init, lp);
      }
      assert WorkbookMatches(b, lp) == WorkbookMatches(init, lp) + tail;
    }
  }

  /** A match is reported iff it is a matching row of some sheet: nothing
      else is reported and no matching row of any sheet is missed. */
  lemma WorkbookMatchesSpec(sheets: seq<Sheet>, lp: string, m: Match)
    ensures m in WorkbookMatches(sheets, lp) <==>
              exists s :: 0 <= s < |sheets| && IsRowMatch(m, sheets[s].name, sheets[s].rows, lp)
  {
    if m in WorkbookMatches(sheets, lp) {
      WorkbookMatchesSound(sheets, lp, m);
    }
    if s :| 0 <= s < |sheets| && IsRowMatch(m, sheets[s].name, sheets[s].rows, lp) {
      SheetMatchesSpec(sheets[s].name, sheets[s].rows, lp, m);
      WorkbookMatchesComplete(sheets, lp, m, s);
    }
  }

  /** Every reported match is a matching row of some sheet. */
  lemma {:induction false} WorkbookMatchesSound(sheets: seq<Sheet>, lp: string, m: Match)
    requires m in WorkbookMatches(sheets, lp)
    ensures exists s :: 0 <= s < |sheets| && IsRowMatch(m, sheets[s].name, sheets[s].rows, lp)
    decreases |sheets|
  {
    var n := |sheets|;
    var pre := sheets[..n - 1];
    var last := sheets[n - 1];
    assert WorkbookMatches(sheets, lp) == WorkbookMatches(pre, lp) + SheetMatches(last.name, last.rows, lp);
    if m in WorkbookMatches(pre, lp) {
      WorkbookMatchesSound(pre, lp, m);
      var s :| 0 <= s < |pre| && IsRowMatch(m, pre[s].name, pre[s].rows, lp);
      assert pre[s] == sheets[s];
    } else {
      SheetMatchesSpec(last.name, last.rows, lp, m);
      assert IsRowMatch(m, sheets[n - 1].name, sheets[n - 1].rows, lp);
    }
  }

  /** No match of any single sheet is missed. */
  lemma {:induction false} WorkbookMatchesComplete(sheets: seq<Sheet>, lp: string, m: Match, s: nat)
    requires s < |sheets| && m in SheetMatches(sheets[s].name, sheets[s].rows, lp)
    ensures m in WorkbookMatches(sheets, lp)
    decreases |sheets|
  {
    var n := |sheets|;
    var pre := sheets[..n - 1];
    var last := sheets[n - 1];
    if s < n - 1 {
      assert pre[s] == sheets[s];
      WorkbookMatchesComplete(pre, lp, m, s);
    }
    assert WorkbookMatches(sheets, lp) == WorkbookMatches(pre, lp) + SheetMatches(last.name, last.rows, lp);
  }

  /** The header is the first row of the first sheet with rows, and absent
      exactly when no sheet has a row. */
  lemma {:induction false} FirstHeaderSpec(sheets: seq<Sheet>)
    ensures FirstHeader(sheets).None? <==> forall s :: 0 <= s < |sheets| ==> sheets[s].rows == []
    ensures forall s ::
              (0 <= s < |sheets| && sheets[s].rows != [] && forall t :: 0 <= t < s ==> sheets[t].rows == [])
              ==> FirstHeader(sheets) == Some(sheets[s].rows[0])
    decreases |sheets|
  {
    if sheets != [] {
      var n := |sheets|;
      var pre := sheets[..n - 1];
      FirstHeaderSpec(pre);
      assert forall s :: 0 <= s < n - 1 ==> pre[s] == sheets[s];
    }
  }

  // ------------------------------------------------------------ the scan

  /** The inner `data.forEach`: each matching row is pushed with its 1-based
      index; every row is visited. */
  method ScanSheet(name: string, data: seq<Row>, lp: string) returns (matches: seq<Match>)
    ensures matches == SheetMatches(name, data, lp)
  {
    matches := [];
    var j := 0;
    while j < |data|
      invariant 0 <= j <= |data|
      invariant matches == SheetMatches(name, data[..j], lp)
    {
      assert data[..j + 1][..j] == data[..j];
      if RowMatches(data[j], lp) {
        matches := matches + [Match(name, j + 1, data[j])];
      }
      j := j + 1;
    }
    assert data[..j] == data;
  }

  /** The outer `sheetNames.forEach`: `headers` is set at the first sheet with
      a row and kept afterwards; each sheet's matches are appended in sheet
      order. */
  method ScanWorkbook(sheets: seq<Sheet>, lp: string) returns (headers: Option<Row>, matches: seq<Match>)
    ensures headers == FirstHeader(sheets)
    ensures matches == WorkbookMatches(sheets, lp)
  {
    headers := None;
    matches := [];
    var i := 0;
    while i < |sheets|
      invariant 0 <= i <= |sheets|
      invariant headers == FirstHeader(sheets[..i])
      invariant matches == WorkbookMatches(sheets[..i], lp)
    {
      var sheet := sheets[i];
      assert sheets[..i + 1][..i] == sheets[..i];
      assert sheets[..i + 1][i] == sheet;
      if |sheet.rows| > 0 && headers.None? {
        headers := Some(sheet.rows[0]);
      }
      var found := ScanSheet(sheet.name, sheet.rows, lp);
      matches := matches + found;
      i := i + 1;
    }
    assert sheets[..i] == sheets;
  }

  /** The promise for one file: a file of another type resolves at once to an
      empty result without being read; a workbook resolves to its header and
      matches, or rejects on a read error, or never settles when decoding
      throws. */
  method SearchFile(f: UploadedFile, lp: string) returns (task: FileTask)
    ensures task == FileTaskOf(f, lp)
    ensures !IsExcelMime(f.mimeType) ==> task == Resolved(FileResult(f.name, None, []))
    ensures IsExcelMime(f.mimeType) ==> task == match f.read
      case Decoded(sheets) => Resolved(FileResult(f.name, FirstHeader(sheets), WorkbookMatches(sheets, lp)))
      case ReadError => Rejected
      case DecodeError => NeverSettles
  {
    if !IsExcelMime(f.mimeType) {
      return Resolved(FileResult(f.name, None, []));
    }
    match f.read
    case Decoded(sheets) =>
      var headers, matches := ScanWorkbook(sheets, lp);
      task := Resolved(FileResult(f.name, headers, matches));
    case ReadError =>
      task := Rejected;
    case DecodeError =>
      task := NeverSettles;
  }

  /** The promise `SearchFile` builds, as a function. */
  function FileTaskOf(f: UploadedFile, lp: string): FileTask {
    if !IsExcelMime(f.mimeType) then Resolved(FileResult(f.name, None, []))
    else match f.read
      case Decoded(sheets) => Resolved(FileResult(f.name, FirstHeader(sheets), WorkbookMatches(sheets, lp)))
      case ReadError => Rejected
      case DecodeError => NeverSettles
  }

  // ------------------------------------------------------ gathering results

  datatype Gathered = AnyRejected | AnyPending | AllResolved(results: seq<FileResult>)

  /** `Promise.all`: rejects when any promise rejects, otherwise waits forever
      when any never settles, otherwise gives the results in submission order. */
  function AwaitAll(tasks: seq<FileTask>): (g: Gathered)
    ensures g.AllResolved? <==> forall i :: 0 <= i < |tasks| ==> tasks[i].Resolved?
    ensures g.AnyRejected? <==> exists i :: 0 <= i < |tasks| && tasks[i].Rejected?
    ensures g.AllResolved? ==>
              |g.results| == |tasks| && forall i :: 0 <= i < |tasks| ==> g.results[i] == tasks[i].result
  {
    if exists i :: 0 <= i < |tasks| && tasks[i].Rejected? then AnyRejected
    else if exists i :: 0 <= i < |tasks| && tasks[i].NeverSettles? then AnyPending
    else AllResolved(seq(|tasks|, i requires 0 <= i < |tasks| => tasks[i].result))
  }

  /** `results.filter(result => result.matches.length > 0)`. */
  function FilterMatched(results: seq<FileResult>): seq<FileResult>
    decreases |results|
  {
    if results == [] then []
    else (if |results[0].matches| > 0 then [results[0]] else []) + FilterMatched(results[1..])
  }

  /** The filter keeps exactly the results with a match, in their order. */
  lemma {:induction false} FilterMatchedSpec(results: seq<FileResult>)
    ensures forall r :: r in FilterMatched(results) <==> r in results && |r.matches| > 0
    decreases |results|
  {
    if results != [] {
      FilterMatchedSpec(results[1..]);
      assert results == [results[0]] + results[1..];
    }
  }

  /** The filter keeps the submission order. */
  lemma {:induction false} FilterMatchedAppend(xs: seq<FileResult>, ys: seq<FileResult>)
    ensures FilterMatched(xs + ys) == FilterMatched(xs) + FilterMatched(ys)
    decreases |xs|
  {
    if xs == [] {
      assert xs + ys == ys;
    } else {
      var head := if |xs[0].matches| > 0 then [xs[0]] else [];
      assert FilterMatched(xs + ys) == head + FilterMatched(xs[1..] + ys) by {
        assert (xs + ys)[0] == xs[0];
        assert (xs + ys)[1..] == xs[1..] + ys;
      }
      FilterMatchedAppend(xs[1..], ys);
      assert FilterMatched(xs) == head + FilterMatched(xs[1..]);
    }
  }

  function Names(files: seq<UploadedFile>): (r: seq<string>)
    ensures |r| == |files| && forall i :: 0 <= i < |files| ==> r[i] == files[i].name
  {
    seq(|files|, i requires 0 <= i < |files| => files[i].name)
  }

  /** `pattern.toLowerCase().trim()`. */
  function LowerPattern(pattern: string): string {
    Strip(JavaScript, Lower(pattern))
  }

  /** `Array.from(files).map(...)`: one promise per file, in submission order. */
  method StartAll(fs: seq<UploadedFile>, lp: string) returns (tasks: seq<FileTask>)
    ensures tasks == Tasks(fs, lp)
  {
    tasks := [];
    var i := 0;
    while i < |fs|
      invariant 0 <= i <= |fs|
      invariant |tasks| == i
      invariant forall k :: 0 <= k < i ==> tasks[k] == FileTaskOf(fs[k], lp)
    {
      var t := SearchFile(fs[i], lp);
      tasks := tasks + [t];
      i := i + 1;
    }
  }

  /** The guard: files chosen, at least one, and a non-empty raw pattern. */
  predicate GuardPasses(files: Option<seq<UploadedFile>>, pattern: string) {
    files.Some? && |files.value| > 0 && pattern != ""
  }

  /** `Array.from(files).map(...)`: one task per file, in submission order. */
  function Tasks(fs: seq<UploadedFile>, lp: string): (r: seq<FileTask>)
    ensures |r| == |fs| && forall i :: 0 <= i < |fs| ==> r[i] == FileTaskOf(fs[i], lp)
  {
    seq(|fs|, i requires 0 <= i < |fs| => FileTaskOf(fs[i], lp))
  }

  /** What pressing search produces, as a function of the form's state. */
  function Search(files: Option<seq<UploadedFile>>, pattern: string): SearchOutcome {
    if !GuardPasses(files, pattern) then InputRejected
    else
      var fs := files.value;
      var lp := LowerPattern(pattern);
      match AwaitAll(Tasks(fs, lp))
      case AnyRejected => Failed
      case AnyPending => Stalled
      case AllResolved(results) =>
        Recorded(SearchRecord(Strip(JavaScript, pattern), Names(fs), FilterMatched(results)))
  }

  /** A file's result as it is shown: it is a supported workbook that decoded,
      it carries the file's name, the workbook's header and all its matches,
      and it has at least one match. */
  predicate IsShownResult(r: FileResult, f: UploadedFile, lp: string) {
    IsExcelMime(f.mimeType) && f.read.Decoded? &&
    r == FileResult(f.name, FirstHeader(f.read.sheets), WorkbookMatches(f.read.sheets, lp)) &&
    |r.matches| > 0
  }

  /** The record of a search: nothing is searched without files or pattern; a
      record is made exactly when every workbook read and decoded; it keeps the
      trimmed pattern (case preserved) and every submitted name, and its results
      are exactly the decoded workbooks with a match (files of another type
      never appear), in submission order. */
  lemma SearchSpec(files: Option<seq<UploadedFile>>, pattern: string)
    ensures !GuardPasses(files, pattern) ==> Search(files, pattern) == InputRejected
    ensures GuardPasses(files, pattern) ==>
              (Search(files, pattern).Recorded? <==>
                 forall i :: 0 <= i < |files.value| && IsExcelMime(files.value[i].mimeType) ==>
                   files.value[i].read.Decoded?)
    ensures Search(files, pattern).Recorded? ==>
              var rec := Search(files, pattern).record;
              var fs := files.value;
              && rec.pattern == Strip(JavaScript, pattern)
              && rec.files == Names(fs)
              && (forall r :: r in rec.searchResults <==>
                    exists i :: 0 <= i < |fs| && IsShownResult(r, fs[i], LowerPattern(pattern)))
              && rec.searchResults == ShownResults(fs, LowerPattern(pattern))
  {
    if GuardPasses(files, pattern) {
      var fs := files.value;
      var lp := LowerPattern(pattern);
      var tasks := Tasks(fs, lp);
      var g := AwaitAll(tasks);
      if g.AllResolved? {
        ResolvedShown(fs, lp, g.results);
        ResolvedMembers(fs, lp, g.results);
      }
      if Search(files, pattern).Recorded? {
        forall i | 0 <= i < |fs| && IsExcelMime(fs[i].mimeType) ensures fs[i].read.Decoded? {
          assert tasks[i].Resolved?;
        }
      }
    }
  }

  /** The results shown for the uploads, file by file in submission order. */
  function ShownResults(fs: seq<UploadedFile>, lp: string): seq<FileResult> {
    Flatten(seq(|fs|, i requires 0 <= i < |fs| => ShownOf(fs[i], lp)))
  }

  /** What one upload contributes to the shown results: a decoded workbook
      with a match contributes its name, header and matches; nothing else
      contributes. */
  function ShownOf(f: UploadedFile, lp: string): seq<FileResult> {
    if IsExcelMime(f.mimeType) && f.read.Decoded? && |WorkbookMatches(f.read.sheets, lp)| > 0
    then [FileResult(f.name, FirstHeader(f.read.sheets), WorkbookMatches(f.read.sheets, lp))]
    else []
  }

  /** Filtering is done result by result: when each result alone filters to
      its part, the whole filters to the parts joined in order. */
  lemma {:induction false} FilterMatchedPointwise(results: seq<FileResult>, parts: seq<seq<FileResult>>)
    requires |parts| == |results|
    requires forall i :: 0 <= i < |results| ==> FilterMatched([results[i]]) == parts[i]
    ensures FilterMatched(results) == Flatten(parts)
    decreases |results|
  {
    if results != [] {
      assert forall i :: 0 <= i < |results| - 1 ==> results[1..][i] == results[i + 1] && parts[1..][i] == parts[i + 1];
      FilterMatchedPointwise(results[1..], parts[1..]);
      assert results == [results[0]] + results[1..];
      FilterMatchedAppend([results[0]], results[1..]);
    }
  }

  /** One resolved result passes the filter exactly when its upload is shown. */
  lemma FilterMatchedOne(f: UploadedFile, lp: string, r: FileResult)
    requires FileTaskOf(f, lp) == Resolved(r)
    ensures FilterMatched([r]) == ShownOf(f, lp)
  {
    assert [r][1..] == [];
  }

  lemma ResolvedShown(fs: seq<UploadedFile>, lp: string, results: seq<FileResult>)
    requires AwaitAll(Tasks(fs, lp)) == AllResolved(results)
    ensures FilterMatched(results) == ShownResults(fs, lp)
  {
    var tasks := Tasks(fs, lp);
    var parts := seq(|fs|, i requires 0 <= i < |fs| => ShownOf(fs[i], lp));
    forall i | 0 <= i < |fs| ensures FilterMatched([results[i]]) == parts[i] {
      assert tasks[i].Resolved? && results[i] == tasks[i].result;
      FilterMatchedOne(fs[i], lp, results[i]);
    }
    FilterMatchedPointwise(results, parts);
  }

  lemma ResolvedMembers(fs: seq<UploadedFile>, lp: string, results: seq<FileResult>)
    requires AwaitAll(Tasks(fs, lp)) == AllResolved(results)
    ensures forall r :: r in FilterMatched(results) <==> exists i :: 0 <= i < |fs| && IsShownResult(r, fs[i], lp)
  {
    var tasks := Tasks(fs, lp);
    FilterMatchedSpec(results);
    forall r ensures r in FilterMatched(results) <==> exists i :: 0 <= i < |fs| && IsShownResult(r, fs[i], lp) {
      if r in FilterMatched(results) {
        var i :| 0 <= i < |results| && results[i] == r;
        assert tasks[i] == FileTaskOf(fs[i], lp);
        assert IsShownResult(r, fs[i], lp);
      }
      if i :| 0 <= i < |fs| && IsShownResult(r, fs[i], lp) {
        assert results[i] == tasks[i].result;
        assert r in results;
      }
    }
  }

  /** The guard tests the raw pattern, so a pattern of spaces passes it, its
      lowered and trimmed form is empty, and every row with a truthy cell
      matches. */
  lemma BlankPatternMatchesEveryTruthyRow(pattern: string, row: Row)
    requires pattern != [] && forall i :: 0 <= i < |pattern| ==> pattern[i] == ' '
    ensures LowerPattern(pattern) == ""
    ensures RowMatches(row, LowerPattern(pattern)) <==> exists i :: 0 <= i < |row| && Truthy(row[i])
  {
    var lowered := Lower(pattern);
    DropLeadingSpec(JavaScript, lowered);
  }

  // -------------------------------------------------------------- rendering

  /** One cell of a result row as rendered: a hole renders nothing (`map`
      skips it); any other cell is its string, split and highlighted with the
      record's pattern; the pieces put back together are the cell's string. */
  function RenderCell(c: Cell, pattern: string): (r: Option<seq<Segment>>)
    requires LiteralPattern(pattern)
    ensures r.None? <==> c == Empty
    ensures r.Some? ==> Flatten(Texts(r.value)) == CellString(c)
  {
    HighlightSpec(CellString(c), pattern);
    if c == Empty then None else Some(Highlight(CellString(c), pattern))
  }

  // --------------------------------------------------------------- the page

  /** The page's state: the chosen files, the typed pattern, the history of
      search records (newest first) and the busy flag. */
  class ExcelPage {
    var files: Option<seq<UploadedFile>>
    var pattern: string
    var data: seq<SearchRecord>
    var loading: bool

    constructor ()
      ensures files == None && pattern == "" && data == [] && !loading
    {
      files := None;
      pattern := "";
      data := [];
      loading := false;
    }

    /** The file input's change handler. */
    method SetFiles(fs: seq<UploadedFile>)
      modifies this`files
      ensures files == Some(fs)
    {
      files := Some(fs);
    }

    /** The pattern box's change handler. */
    method SetPattern(p: string)
      modifies this`pattern
      ensures pattern == p
    {
      pattern := p;
    }

    /** `handleSearch`: a new record is prepended and older records are kept
        as they were; otherwise the history is unchanged. The busy flag is left
        set only when some promise never settles. */
    method HandleSearch()
      modifies this`data, this`loading
      ensures Search(files, pattern).Recorded? ==> data == [Search(files, pattern).record] + old(data)
      ensures !Search(files, pattern).Recorded? ==> data == old(data)
      ensures loading <==> Search(files, pattern).Stalled?
    {
      loading := true;
      if files.None? || |files.value| == 0 || pattern == "" {
        loading := false;
        return;
      }
      var fs := files.value;
      var tasks := StartAll(fs, LowerPattern(pattern));
      match AwaitAll(tasks)
      case AnyRejected =>
        loading := false;
      case AnyPending =>
      case AllResolved(results) =>
        var searchResults := FilterMatched(results);
        data := [SearchRecord(Strip(JavaScript, pattern), Names(fs), searchResults)] + data;
        loading := false;
    }
  }

  /** Two searches in a row leave the newer record first. */
  method TwoSearches(page: ExcelPage, fs: seq<UploadedFile>, a: string, b: string)
    requires Search(Some(fs), a).Recorded? && Search(Some(fs), b).Recorded?
    modifies page
    ensures page.data == [Search(Some(fs), b).record, Search(Some(fs), a).record] + old(page.data)
  {
    page.SetFiles(fs);
    page.SetPattern(a);
    page.HandleSearch();
    page.SetPattern(b);
    page.HandleSearch();
  }
}
