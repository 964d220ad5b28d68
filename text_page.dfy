/** The text-file search page of the front end
    (frontend/src/components/TextFiles.jsx): the submit guard, the pattern
    sent to the server, the history of searches, the plain-text report the
    download button saves, and the highlight of a matched line. The server
    reply is a parameter; its groups are those of LineSearch. */
module TextSearchPage {
  import opened Text
  import opened Highlighting
  import opened LineSearch

  /** The form data posted to the search endpoint: the pattern and the
      submitted files, named here by their file names. */
  datatype Request = Request(pattern: string, files: seq<string>)

  /** What `handleSearch` does before any reply: it throws on a file list that
      was never chosen (`files` is still `null`), stops on an empty list or an
      empty pattern, or posts a request. */
  datatype Submit = Crashed | Skipped | Sent(request: Request)

  /** The server's answer: the parsed JSON body (`None` for `null`), a status
      other than OK, or a failure of `fetch` or of the JSON parse. */
  datatype Reply = Replied(body: Option<seq<FileGroup>>) | HttpError(statusText: string) | NetworkError

  /** One entry of the search history. */
  datatype Record = Record(pattern: string, files: seq<string>, searchResults: Option<seq<FileGroup>>)

  /** A file the download button saves. */
  datatype Download = Download(name: string, text: string)

  function SubmitOf(files: Option<seq<string>>, pattern: string): Submit {
    if files.None? then Crashed
    else if |files.value| == 0 || pattern == "" then Skipped
    else Sent(Request(Strip(JavaScript, Lower(pattern)), files.value))
  }

  /** A request goes out exactly when a file list was chosen, it is not empty
      and the pattern is not empty. The pattern sent is the trimmed pattern
      (what the history stores) lower-cased, and every submitted file goes with it. */
  lemma SubmitSpec(files: Option<seq<string>>, pattern: string)
    ensures SubmitOf(files, pattern).Crashed? <==> files.None?
    ensures SubmitOf(files, pattern).Sent? <==> files.Some? && |files.value| > 0 && pattern != ""
    ensures SubmitOf(files, pattern).Sent? ==>
              var r := SubmitOf(files, pattern).request;
              && r.pattern == Lower(Strip(JavaScript, pattern))
              && IsStripped(JavaScript, r.pattern)
              && r.files == files.value
  {
    StripLower(JavaScript, pattern);
    StripSpec(JavaScript, Lower(pattern));
  }

  // --------------------------------------------------------------- report

  function MatchLines(matches: seq<LineMatch>): (r: seq<string>)
    ensures |r| == |matches| && forall i :: 0 <= i < |matches| ==> r[i] == matches[i].line
  {
    seq(|matches|, i requires 0 <= i < |matches| => matches[i].line)
  }

  function Header(pattern: string, files: seq<string>): string {
    "SEARCH RESULTS FOR \"" + Upper(pattern) + "\"\nFrom Files: " + Join(files, ", ") + "\n\n\n"
  }

  /** The text of one file's results. */
  function BlockText(g: FileGroup): string {
    "Results for: " + g.fileName + "\n" + Join(MatchLines(g.matches), "\n") + "\n\n"
  }

  function BlockTexts(gs: seq<FileGroup>): (r: seq<string>)
    ensures |r| == |gs| && forall i :: 0 <= i < |gs| ==> r[i] == BlockText(gs[i])
  {
    seq(|gs|, i requires 0 <= i < |gs| => BlockText(gs[i]))
  }

  function ReportText(pattern: string, files: seq<string>, gs: seq<FileGroup>): string {
    Header(pattern, files) + Join(BlockTexts(gs), "\n")
  }

  /** `${pattern}-${files.length}files.txt`. */
  function DownloadName(rec: Record): string {
    rec.pattern + "-" + IntString(|rec.files|) + "files.txt"
  }

  /** `handleDownload`: nothing without a record or without its results. */
  function DownloadOf(rec: Option<Record>): Option<Download> {
    if rec.None? || rec.value.searchResults.None? then None
    else
      var r := rec.value;
      Some(Download(DownloadName(r), ReportText(r.pattern, r.files, r.searchResults.value)))
  }

  /** The report read line by line: a title line, the file list, two blank
      lines, then for each file its heading, its matched lines (one blank line
      when it has none) and two blank lines; without any file a third blank line. */
  function GroupLines(g: FileGroup): seq<string> {
    ["Results for: " + g.fileName] + (if g.matches == [] then [""] else MatchLines(g.matches)) + ["", ""]
  }

  function GroupsLines(gs: seq<FileGroup>): (r: seq<seq<string>>)
    ensures |r| == |gs| && forall i :: 0 <= i < |gs| ==> r[i] == GroupLines(gs[i])
  {
    seq(|gs|, i requires 0 <= i < |gs| => GroupLines(gs[i]))
  }

  function ReportLines(pattern: string, files: seq<string>, gs: seq<FileGroup>): seq<string> {
    HeadLines(pattern, files) + RestLines(gs)
  }

  lemma GroupLinesJoin(g: FileGroup)
    ensures Join(GroupLines(g), "\n") == BlockText(g)
  {
    var head := ["Results for: " + g.fileName];
    var body := if g.matches == [] then [""] else MatchLines(g.matches);
    assert Join(body, "\n") == Join(MatchLines(g.matches), "\n");
    JoinAppend(head, body, "\n");
    JoinAppend(head + body, ["", ""], "\n");
    assert Join(["", ""], "\n") == "\n";
    assert GroupLines(g) == (head + body) + ["", ""];
  }

  lemma GroupsLinesJoin(gs: seq<FileGroup>)
    requires gs != []
    ensures Join(Flatten(GroupsLines(gs)), "\n") == Join(BlockTexts(gs), "\n")
  {
    var gl := GroupsLines(gs);
    JoinFlatten(gl, "\n");
    forall i | 0 <= i < |gs| ensures JoinEach(gl, "\n")[i] == BlockTexts(gs)[i] {
      GroupLinesJoin(gs[i]);
    }
    assert JoinEach(gl, "\n") == BlockTexts(gs);
  }

  function HeadLines(pattern: string, files: seq<string>): seq<string> {
    ["SEARCH RESULTS FOR \"" + Upper(pattern) + "\"", "From Files: " + Join(files, ", "), "", ""]
  }

  function RestLines(gs: seq<FileGroup>): seq<string> {
    if gs == [] then [""] else Flatten(GroupsLines(gs))
  }

  lemma HeaderAsLines(pattern: string, files: seq<string>)
    ensures Header(pattern, files) == Join(HeadLines(pattern, files), "\n") + "\n"
  {
    var a := "SEARCH RESULTS FOR \"" + Upper(pattern) + "\"";
    var b := "From Files: " + Join(files, ", ");
    JoinTwoBlank(a, b);
    assert Header(pattern, files) == a + "\n" + b + "\n\n\n";
  }

  /** Two lines followed by two blank ones, joined, and a final newline. */
  lemma JoinTwoBlank(a: string, b: string)
    ensures Join([a, b, "", ""], "\n") + "\n" == a + "\n" + b + "\n\n\n"
  {
    var head := [a, b, "", ""];
    assert head[1..] == [b, "", ""];
    assert head[1..][1..] == ["", ""];
    assert Join(["", ""], "\n") == "\n";
  }

  lemma RestAsLines(gs: seq<FileGroup>)
    ensures RestLines(gs) != []
    ensures Join(RestLines(gs), "\n") == Join(BlockTexts(gs), "\n")
  {
    if gs != [] {
      GroupsLinesJoin(gs);
      var gl := GroupsLines(gs);
      assert Flatten(gl) == gl[0] + Flatten(gl[1..]);
    }
  }

  /** The report is its lines joined by newlines. */
  lemma ReportAsLines(pattern: string, files: seq<string>, gs: seq<FileGroup>)
    ensures ReportText(pattern, files, gs) == Join(ReportLines(pattern, files, gs), "\n")
  {
    HeaderAsLines(pattern, files);
    RestAsLines(gs);
    assert ReportLines(pattern, files, gs) == HeadLines(pattern, files) + RestLines(gs);
    JoinAppend(HeadLines(pattern, files), RestLines(gs), "\n");
  }

  /** No line of the report holds a line break. */
  predicate SingleLines(pattern: string, files: seq<string>, gs: seq<FileGroup>) {
    && '\n' !in pattern
    && (forall i :: 0 <= i < |files| ==> '\n' !in files[i])
    && (forall i :: 0 <= i < |gs| ==> '\n' !in gs[i].fileName)
    && (forall i, j :: 0 <= i < |gs| && 0 <= j < |gs[i].matches| ==> '\n' !in gs[i].matches[j].line)
  }

  lemma GroupsLinesSingle(gs: seq<FileGroup>)
    requires forall i :: 0 <= i < |gs| ==> '\n' !in gs[i].fileName
    requires forall i, j :: 0 <= i < |gs| && 0 <= j < |gs[i].matches| ==> '\n' !in gs[i].matches[j].line
    ensures forall x :: x in Flatten(GroupsLines(gs)) ==> '\n' !in x
  {
    forall x | x in Flatten(GroupsLines(gs)) ensures '\n' !in x {
      FlattenMember(GroupsLines(gs), x);
      var i :| 0 <= i < |gs| && x in GroupsLines(gs)[i];
      GroupLineSingle(gs[i], x);
    }
  }

  lemma GroupLineSingle(g: FileGroup, x: string)
    requires '\n' !in g.fileName
    requires forall j :: 0 <= j < |g.matches| ==> '\n' !in g.matches[j].line
    requires x in GroupLines(g)
    ensures '\n' !in x
  {
    if g.matches != [] && x in MatchLines(g.matches) {
      var j :| 0 <= j < |g.matches| && MatchLines(g.matches)[j] == x;
      assert x == g.matches[j].line;
    }
  }

  /** When no name or matched line holds a line break, splitting the saved report
      at line breaks gives back exactly its lines. */
  lemma ReportRoundTrip(pattern: string, files: seq<string>, gs: seq<FileGroup>)
    requires SingleLines(pattern, files, gs)
    ensures SplitOn(ReportText(pattern, files, gs), '\n') == ReportLines(pattern, files, gs)
  {
    ReportAsLines(pattern, files, gs);
    ReportLinesSingle(pattern, files, gs);
    assert "\n" == ['\n'];
    SplitJoin(ReportLines(pattern, files, gs), '\n');
  }

  /** No line of the report holds a line break when no name or matched line does. */
  lemma ReportLinesSingle(pattern: string, files: seq<string>, gs: seq<FileGroup>)
    requires SingleLines(pattern, files, gs)
    ensures forall k :: 0 <= k < |ReportLines(pattern, files, gs)| ==> '\n' !in ReportLines(pattern, files, gs)[k]
  {
    HeadLinesSingle(pattern, files);
    RestLinesSingle(gs);
    NoBreakAppend(HeadLines(pattern, files), RestLines(gs));
    assert ReportLines(pattern, files, gs) == HeadLines(pattern, files) + RestLines(gs);
  }

  lemma HeadLinesSingle(pattern: string, files: seq<string>)
    requires '\n' !in pattern
    requires forall i :: 0 <= i < |files| ==> '\n' !in files[i]
    ensures forall k :: 0 <= k < |HeadLines(pattern, files)| ==> '\n' !in HeadLines(pattern, files)[k]
  {
    JoinWithout(files, ", ", '\n');
    assert '\n' !in Upper(pattern);
  }

  lemma RestLinesSingle(gs: seq<FileGroup>)
    requires forall i :: 0 <= i < |gs| ==> '\n' !in gs[i].fileName
    requires forall i, j :: 0 <= i < |gs| && 0 <= j < |gs[i].matches| ==> '\n' !in gs[i].matches[j].line
    ensures forall k :: 0 <= k < |RestLines(gs)| ==> '\n' !in RestLines(gs)[k]
  {
    if gs != [] {
      GroupsLinesSingle(gs);
      forall k | 0 <= k < |RestLines(gs)| ensures '\n' !in RestLines(gs)[k] {
        assert RestLines(gs)[k] in Flatten(GroupsLines(gs));
      }
    }
  }

  lemma NoBreakAppend(xs: seq<string>, ys: seq<string>)
    requires forall k :: 0 <= k < |xs| ==> '\n' !in xs[k]
    requires forall k :: 0 <= k < |ys| ==> '\n' !in ys[k]
    ensures forall k :: 0 <= k < |xs + ys| ==> '\n' !in (xs + ys)[k]
  {
    forall k | 0 <= k < |xs + ys| ensures '\n' !in (xs + ys)[k] {
      if k < |xs| {
        assert (xs + ys)[k] == xs[k];
      } else {
        assert (xs + ys)[k] == ys[k - |xs|];
      }
    }
  }

  /** Download produces a file exactly when there is a record with results; an
      empty result list still yields the header. The name is the pattern, a
      dash, the decimal number of files and "files.txt". */
  lemma DownloadSpec(rec: Option<Record>)
    ensures DownloadOf(rec).Some? <==> rec.Some? && rec.value.searchResults.Some?
    ensures DownloadOf(rec).Some? && rec.value.searchResults.value == [] ==>
              DownloadOf(rec).value.text == Header(rec.value.pattern, rec.value.files)
    ensures DownloadOf(rec).Some? ==>
              var name := DownloadOf(rec).value.name;
              var p := rec.value.pattern;
              exists d: string ::
                && name == p + "-" + d + "files.txt"
                && (forall k :: 0 <= k < |d| ==> IsAsciiDigit(d[k]))
                && DecimalValue(d) == |rec.value.files|
  {
    if DownloadOf(rec).Some? {
      var d := DecimalString(|rec.value.files|);
      DecimalRoundTrip(|rec.value.files|);
      assert DownloadOf(rec).value.name == rec.value.pattern + "-" + d + "files.txt";
    }
  }

  // ------------------------------------------------------------ highlight

  /** A matched line as the history shows it. */
  function LineView(rec: Record, m: LineMatch): seq<Segment>
    requires LiteralPattern(rec.pattern)
  {
    Highlight(m.line, rec.pattern)
  }

  /** The shown parts put back together are the line, and a part is flagged
      exactly when it equals the stored pattern ignoring case. */
  lemma LineViewSpec(rec: Record, m: LineMatch)
    requires LiteralPattern(rec.pattern)
    ensures Flatten(Texts(LineView(rec, m))) == m.line
    ensures forall i :: 0 <= i < |LineView(rec, m)| ==>
              (LineView(rec, m)[i].isMatch <==> EqualIgnoringCase(LineView(rec, m)[i].text, rec.pattern))
  {
    HighlightSpec(m.line, rec.pattern);
    forall i | 0 <= i < |LineView(rec, m)|
      ensures LineView(rec, m)[i].isMatch <==> EqualIgnoringCase(LineView(rec, m)[i].text, rec.pattern)
    {
      EqualIgnoringCaseIsLowerEquality(LineView(rec, m)[i].text, rec.pattern);
    }
  }

  // ----------------------------------------------------------------- page

  /** The page's React state. */
  class TextPage {
    var files: Option<seq<string>>
    var pattern: string
    var data: seq<Record>
    var loading: bool

    constructor ()
      ensures files == None && pattern == "" && data == [] && !loading
    {
      files := None;
      pattern := "";
      data := [];
      loading := false;
    }

    /** The file input's change handler. */
    method SetFiles(fs: seq<string>)
      modifies this`files
      ensures files == Some(fs)
    {
      files := Some(fs);
    }

    /** The pattern box's change handler. */
    method SetPattern(p: string)
      modifies this`pattern
      ensures pattern == p
    {
      pattern := p;
    }

    /** `handleSearch`, given what the server answers to the request it posts.
        A reply with a body prepends a record of the trimmed pattern, the
        submitted names and the body; every other path keeps the history. The
        busy flag stays set only after the throw on a missing file list. */
    method HandleSearch(reply: Reply) returns (sent: Option<Request>)
      modifies this`data, this`loading
      ensures SubmitOf(files, pattern).Sent? <==> sent.Some?
      ensures sent.Some? ==> sent.value == SubmitOf(files, pattern).request
      ensures sent.Some? && reply.Replied? ==>
                data == [Record(Strip(JavaScript, pattern), files.value, reply.body)] + old(data)
      ensures !(sent.Some? && reply.Replied?) ==> data == old(data)
      ensures loading <==> files.None?
    {
      loading := true;
      if files.None? {
        return None;
      }
      if |files.value| == 0 || pattern == "" {
        loading := false;
        return None;
      }
      sent := Some(Request(Strip(JavaScript, Lower(pattern)), files.value));
      match reply
      case Replied(searchResults) =>
        data := [Record(Strip(JavaScript, pattern), files.value, searchResults)] + data;
        loading := false;
      case HttpError(_) =>
        loading := false;
      case NetworkError =>
        loading := false;
    }
  }
}
