/** The backend line search of backend/TextFiles.py: every line of every
    uploaded file is tested for the pattern, case-insensitively; a file's lines
    are cut into at most one chunk per processor, each chunk is searched on its
    own with the line number it starts at, and the per-file results are grouped
    by file. The process pools are modelled sequentially; the order in which
    futures complete is a parameter, and results collected in completion order
    are stated as multisets. */
module LineSearch {
  import opened Text
  import opened Extraction

  /** One reported line (the process id is left out). */
  datatype LineMatch = LineMatch(lineNumber: int, line: string, fileName: string)

  /** `re.compile(pattern, re.IGNORECASE).search(line)` for a literal pattern. */
  predicate LineHasPattern(line: string, pattern: string) {
    Contains(Lower(line), Lower(pattern))
  }

  // ----------------------------------------------------------- one chunk

  /** What `process_chunk(chunk, startLine, pattern, fileName)` returns. */
  function ChunkMatches(chunk: seq<string>, startLine: int, pattern: string, fileName: string): seq<LineMatch> {
    if chunk == [] then []
    else
      var i := |chunk| - 1;
      ChunkMatches(chunk[..i], startLine, pattern, fileName) +
      (if LineHasPattern(chunk[i], pattern)
       then [LineMatch(startLine + i, Strip(Python, chunk[i]), fileName)] else [])
  }

  /** `process_chunk`. */
  method ProcessChunk(chunk: seq<string>, startLine: int, pattern: string, fileName: string)
    returns (matches: seq<LineMatch>)
    requires LiteralPattern(pattern)
    ensures matches == ChunkMatches(chunk, startLine, pattern, fileName)
  {
    matches := [];
    var i := 0;
    while i < |chunk|
      invariant 0 <= i <= |chunk|
      invariant matches == ChunkMatches(chunk[..i], startLine, pattern, fileName)
    {
      assert chunk[..i + 1][..i] == chunk[..i];
      if LineHasPattern(chunk[i], pattern) {
        matches := matches + [LineMatch(startLine + i, Strip(Python, chunk[i]), fileName)];
      }
      i := i + 1;
    }
    assert chunk[..i] == chunk;
  }

  /** Line `i` of the chunk holds the pattern and `m` is its report. */
  predicate ReportOf(chunk: seq<string>, startLine: int, pattern: string, fileName: string, i: int, m: LineMatch) {
    0 <= i < |chunk| && LineHasPattern(chunk[i], pattern) &&
    m == LineMatch(startLine + i, Strip(Python, chunk[i]), fileName)
  }

  /** A chunk reports exactly its lines that hold the pattern, each with its
      offset from `startLine`, its stripped text and the file's name. */
  lemma {:induction false} ChunkMatchesSpec(chunk: seq<string>, startLine: int, pattern: string, fileName: string, m: LineMatch)
    ensures m in ChunkMatches(chunk, startLine, pattern, fileName) <==>
              exists i :: ReportOf(chunk, startLine, pattern, fileName, i, m)
  {
    if chunk != [] {
      var n := |chunk| - 1;
      var init := chunk[..n];
      var tail := if LineHasPattern(chunk[n], pattern)
                  then [LineMatch(startLine + n, Strip(Python, chunk[n]), fileName)] else [];
      assert ChunkMatches(chunk, startLine, pattern, fileName) ==
             ChunkMatches(init, startLine, pattern, fileName) + tail;
      ChunkMatchesSpec(init, startLine, pattern, fileName, m);
      if exists i :: ReportOf(chunk, startLine, pattern, fileName, i, m) {
        var i :| ReportOf(chunk, startLine, pattern, fileName, i, m);
        if i < n {
          assert init[i] == chunk[i];
          assert ReportOf(init, startLine, pattern, fileName, i, m);
        } else {
          assert i == n && LineHasPattern(chunk[n], pattern);
          assert tail == [m];
        }
      }
      if m in ChunkMatches(init, startLine, pattern, fileName) {
        var i :| ReportOf(init, startLine, pattern, fileName, i, m);
        assert init[i] == chunk[i];
        assert ReportOf(chunk, startLine, pattern, fileName, i, m);
      }
      if m in tail {
        assert ReportOf(chunk, startLine, pattern, fileName, n, m);
      }
    }
  }

  /** Reports come in line order: their numbers rise strictly and stay within
      the chunk's lines. */
  lemma {:induction false} ChunkMatchesOrdered(chunk: seq<string>, startLine: int, pattern: string, fileName: string)
    ensures forall k :: 0 <= k < |ChunkMatches(chunk, startLine, pattern, fileName)| ==>
              startLine <= ChunkMatches(chunk, startLine, pattern, fileName)[k].lineNumber < startLine + |chunk|
    ensures forall j, k :: 0 <= j < k < |ChunkMatches(chunk, startLine, pattern, fileName)| ==>
              ChunkMatches(chunk, startLine, pattern, fileName)[j].lineNumber <
              ChunkMatches(chunk, startLine, pattern, fileName)[k].lineNumber
  {
    if chunk != [] {
      ChunkMatchesOrdered(chunk[..|chunk| - 1], startLine, pattern, fileName);
    }
  }

  /** Searching two consecutive pieces, the second starting where the first
      ends, is searching their concatenation. */
  lemma {:induction false} ChunkMatchesAppend(a: seq<string>, b: seq<string>, startLine: int, pattern: string, fileName: string)
    ensures ChunkMatches(a + b, startLine, pattern, fileName) ==
            ChunkMatches(a, startLine, pattern, fileName) + ChunkMatches(b, startLine + |a|, pattern, fileName)
    decreases |b|
  {
    if b == [] {
      assert a + b == a;
    } else {
      var n := |b| - 1;
      assert (a + b)[..|a + b| - 1] == a + b[..n];
      assert (a + b)[|a + b| - 1] == b[n];
      ChunkMatchesAppend(a, b[..n], startLine, pattern, fileName);
    }
  }

  // --------------------------------------------------------------- chunks

  /** `divide_into_chunks(lines, size)`: `lines[i:i + size]` for `i` in
      `range(0, len(lines), size)`. */
  function Chunks(lines: seq<string>, size: nat): seq<seq<string>>
    requires size >= 1
    decreases |lines|
  {
    if lines == [] then []
    else if |lines| <= size then [lines]
    else [lines[..size]] + Chunks(lines[size..], size)
  }

  /** The chunks are consecutive: put together they give the lines; all are
      `size` long except the last, which holds between 1 and `size` lines; and
      there are none exactly when there are no lines. */
  lemma {:induction false} ChunksSpec(lines: seq<string>, size: nat)
    requires size >= 1
    ensures Flatten(Chunks(lines, size)) == lines
    ensures Chunks(lines, size) == [] <==> lines == []
    ensures forall k :: 0 <= k < |Chunks(lines, size)| - 1 ==> |Chunks(lines, size)[k]| == size
    ensures Chunks(lines, size) != [] ==> 1 <= |Chunks(lines, size)[|Chunks(lines, size)| - 1]| <= size
  {
    ChunksFlatten(lines, size);
    ChunksSizes(lines, size);
  }

  lemma {:induction false} ChunksFlatten(lines: seq<string>, size: nat)
    requires size >= 1
    ensures Flatten(Chunks(lines, size)) == lines
    decreases |lines|
  {
    if |lines| > size {
      var rest := Chunks(lines[size..], size);
      ChunksFlatten(lines[size..], size);
      assert Chunks(lines, size) == [lines[..size]] + rest;
      assert Flatten(Chunks(lines, size)) == lines[..size] + Flatten(rest);
      assert lines == lines[..size] + lines[size..];
    } else if lines != [] {
      assert Flatten([lines]) == lines + Flatten([lines][1..]);
    }
  }

  lemma {:induction false} ChunksSizes(lines: seq<string>, size: nat)
    requires size >= 1
    ensures Chunks(lines, size) == [] <==> lines == []
    ensures forall k :: 0 <= k < |Chunks(lines, size)| - 1 ==> |Chunks(lines, size)[k]| == size
    ensures Chunks(lines, size) != [] ==> 1 <= |Chunks(lines, size)[|Chunks(lines, size)| - 1]| <= size
    decreases |lines|
  {
    if |lines| > size {
      var rest := Chunks(lines[size..], size);
      ChunksSizes(lines[size..], size);
      assert Chunks(lines, size) == [lines[..size]] + rest;
      forall k | 1 <= k < |Chunks(lines, size)| ensures Chunks(lines, size)[k] == rest[k - 1] { }
    }
  }

  /** At most `k` chunks come out of at most `k * size` lines. */
  lemma {:induction false} ChunkCount(lines: seq<string>, size: nat, k: nat)
    requires size >= 1 && |lines| <= k * size
    ensures |Chunks(lines, size)| <= k
    decreases |lines|
  {
    if |lines| > size {
      assert k * size - size == (k - 1) * size;
      ChunkCount(lines[size..], size, k - 1);
    } else if lines != [] {
      assert k != 0;
    }
  }

  /** The chunk size of `parallel_search_in_file_content`:
      `max(1, total // cores)`, plus one when `cores` does not divide `total`. */
  function ChunkSize(total: nat, cores: nat): nat
    requires cores >= 1
  {
    var size := if total / cores >= 1 then total / cores else 1;
    if total % cores != 0 then size + 1 else size
  }

  /** The chunk size is positive and large enough that `cores` chunks cover
      every line, so no more chunks than processors are made. */
  lemma ChunkSizeSpec(lines: seq<string>, cores: nat)
    requires cores >= 1
    ensures ChunkSize(|lines|, cores) >= 1
    ensures ChunkSize(|lines|, cores) * cores >= |lines|
    ensures |Chunks(lines, ChunkSize(|lines|, cores))| <= cores
  {
    ChunkSizeCovers(|lines|, cores);
    ChunkCount(lines, ChunkSize(|lines|, cores), cores);
  }

  lemma ChunkSizeCovers(total: nat, cores: nat)
    requires cores >= 1
    ensures ChunkSize(total, cores) >= 1
    ensures ChunkSize(total, cores) * cores >= total
  {
    var q := total / cores;
    var r := total % cores;
    var size := ChunkSize(total, cores);
    assert total == q * cores + r;
    if q >= 1 {
      if r != 0 {
        assert size * cores == q * cores + cores;
      }
    } else {
      assert total == r;
      assert size * cores >= cores;
    }
  }

  /** The submission loop: chunk after chunk is searched from `start_line`,
      which starts at 1 and grows by each chunk's length. The result for each
      chunk is what its future yields. */
  method SubmitChunks(lines: seq<string>, chunkSize: nat, pattern: string, fileName: string)
    returns (perChunk: seq<seq<LineMatch>>)
    requires chunkSize >= 1 && LiteralPattern(pattern)
    ensures |perChunk| == |Chunks(lines, chunkSize)|
    ensures Flatten(perChunk) == ChunkMatches(lines, 1, pattern, fileName)
  {
    var chunks := Chunks(lines, chunkSize);
    perChunk := [];
    var startLine := 1;
    var i := 0;
    while i < |chunks|
      invariant 0 <= i <= |chunks| && |perChunk| == i
      invariant startLine == 1 + |Flatten(chunks[..i])|
      invariant Flatten(perChunk) == ChunkMatches(Flatten(chunks[..i]), 1, pattern, fileName)
    {
      var matches := ProcessChunk(chunks[i], startLine, pattern, fileName);
      assert chunks[..i + 1] == chunks[..i] + [chunks[i]];
      FlattenSnoc(chunks[..i], chunks[i]);
      FlattenSnoc(perChunk, matches);
      ChunkMatchesAppend(Flatten(chunks[..i]), chunks[i], 1, pattern, fileName);
      perChunk := perChunk + [matches];
      startLine := startLine + |chunks[i]|;
      i := i + 1;
    }
    assert chunks[..i] == chunks;
    ChunksSpec(lines, chunkSize);
  }

  // ------------------------------------------------------ completion order

  /** `0, 1, ..., n - 1`. */
  function Range(n: nat): (r: seq<nat>)
    ensures |r| == n && forall i :: 0 <= i < n ==> r[i] == i
  {
    seq(n, i requires 0 <= i < n => i)
  }

  /** `order` lists each of `n` futures once: the order they complete in. */
  predicate IsOrder(order: seq<nat>, n: nat) {
    multiset(order) == multiset(Range(n))
  }

  lemma OrderBounds(order: seq<nat>, n: nat)
    requires IsOrder(order, n)
    ensures |order| == n
    ensures forall k :: 0 <= k < |order| ==> order[k] < n
  {
    assert |multiset(order)| == |multiset(Range(n))|;
    forall k | 0 <= k < |order| ensures order[k] < n {
      assert order[k] in multiset(order);
      assert order[k] in Range(n);
    }
  }

  /** The items in the order given. */
  function Pick<T>(xs: seq<T>, order: seq<nat>): (r: seq<T>)
    requires forall k :: 0 <= k < |order| ==> order[k] < |xs|
    ensures |r| == |order| && forall k :: 0 <= k < |order| ==> r[k] == xs[order[k]]
  {
    seq(|order|, k requires 0 <= k < |order| => xs[order[k]])
  }

  lemma PickAppend<T>(xs: seq<T>, a: seq<nat>, b: seq<nat>)
    requires forall k :: 0 <= k < |a| ==> a[k] < |xs|
    requires forall k :: 0 <= k < |b| ==> b[k] < |xs|
    ensures Pick(xs, a + b) == Pick(xs, a) + Pick(xs, b)
  {
  }

  lemma PickInit<T>(xs: seq<T>, order: seq<nat>)
    requires xs != []
    requires forall k :: 0 <= k < |order| ==> order[k] < |xs| - 1
    ensures Pick(xs, order) == Pick(xs[..|xs| - 1], order)
  {
  }

  lemma RangeSnoc(n: nat)
    requires n > 0
    ensures multiset(Range(n)) == multiset(Range(n - 1)) + multiset{(n - 1) as nat}
  {
    assert Range(n) == Range(n - 1) + [(n - 1) as nat];
  }

  lemma MultisetCancel<T>(a: multiset<T>, b: multiset<T>, x: T)
    requires a + multiset{x} == b + multiset{x}
    ensures a == b
  {
    assert a == (a + multiset{x}) - multiset{x};
    assert b == (b + multiset{x}) - multiset{x};
  }

  /** The last future's position in a completion order, and the order of the
      others around it. */
  lemma SplitAtLast(order: seq<nat>, n: nat) returns (o1: seq<nat>, o2: seq<nat>)
    requires n > 0 && IsOrder(order, n)
    ensures order == o1 + [n - 1] + o2
    ensures IsOrder(o1 + o2, n - 1)
  {
    var last: nat := n - 1;
    RangeSnoc(n);
    assert last in multiset(order);
    var j :| 0 <= j < |order| && order[j] == last;
    o1 := order[..j];
    o2 := order[j + 1..];
    assert order == o1 + [last] + o2;
    assert multiset(order) == multiset(o1 + o2) + multiset{last};
    MultisetCancel(multiset(o1 + o2), multiset(Range(n - 1)), last);
  }

  /** Taking one future's results out of the middle of a completion order. */
  lemma PickAround<T>(xss: seq<seq<T>>, o1: seq<nat>, j: nat, o2: seq<nat>)
    requires j < |xss|
    requires forall k :: 0 <= k < |o1| ==> o1[k] < |xss|
    requires forall k :: 0 <= k < |o2| ==> o2[k] < |xss|
    ensures multiset(Flatten(Pick(xss, o1 + [j] + o2))) ==
            multiset(Flatten(Pick(xss, o1 + o2))) + multiset(xss[j])
  {
    var p1 := Pick(xss, o1);
    var p2 := Pick(xss, o2);
    var mid: seq<nat> := [j];
    assert Pick(xss, mid) == [xss[j]];
    PickAppend(xss, o1, mid);
    PickAppend(xss, o1 + mid, o2);
    PickAppend(xss, o1, o2);
    FlattenAppend(p1 + [xss[j]], p2);
    FlattenSnoc(p1, xss[j]);
    FlattenAppend(p1, p2);
  }

  /** Taking the futures' results in any completion order and concatenating
      them gives the same multiset as taking them in submission order. */
  lemma {:induction false} PermutedFlatten<T>(xss: seq<seq<T>>, order: seq<nat>)
    requires IsOrder(order, |xss|)
    ensures (forall k :: 0 <= k < |order| ==> order[k] < |xss|) &&
            multiset(Flatten(Pick(xss, order))) == multiset(Flatten(xss))
    decreases |xss|
  {
    OrderBounds(order, |xss|);
    var n := |xss|;
    if n == 0 {
      assert Pick(xss, order) == [];
    } else {
      var init := xss[..n - 1];
      var o1, o2 := SplitAtLast(order, n);
      assert multiset(Flatten(Pick(xss, o1 + o2))) == multiset(Flatten(init)) by {
        OrderBounds(o1 + o2, n - 1);
        PermutedFlatten(init, o1 + o2);
        PickInit(xss, o1 + o2);
      }
      ConcatBounds(o1, o2, n);
      PickAround(xss, o1, n - 1, o2);
      FlattenLast(xss);
    }
  }

  lemma ConcatBounds(o1: seq<nat>, o2: seq<nat>, n: nat)
    requires n >= 1 && IsOrder(o1 + o2, n - 1)
    ensures forall k :: 0 <= k < |o1| ==> o1[k] < n
    ensures forall k :: 0 <= k < |o2| ==> o2[k] < n
  {
    OrderBounds(o1 + o2, n - 1);
    assert forall k :: 0 <= k < |o1| ==> o1[k] == (o1 + o2)[k];
    assert forall k :: 0 <= k < |o2| ==> o2[k] == (o1 + o2)[|o1| + k];
  }

  /** `for future in as_completed(futures): if matches: results.extend(matches)`. */
  method CollectAsCompleted(perChunk: seq<seq<LineMatch>>, order: seq<nat>) returns (results: seq<LineMatch>)
    requires IsOrder(order, |perChunk|)
    ensures multiset(results) == multiset(Flatten(perChunk))
  {
    OrderBounds(order, |perChunk|);
    var picked := Pick(perChunk, order);
    results := [];
    var k := 0;
    while k < |order|
      invariant 0 <= k <= |order|
      invariant Flatten(picked[..k]) == results
    {
      var matches := perChunk[order[k]];
      assert picked[..k + 1] == picked[..k] + [matches];
      FlattenSnoc(picked[..k], matches);
      if matches != [] {
        results := results + matches;
      }
      k := k + 1;
    }
    assert picked[..k] == picked;
    PermutedFlatten(perChunk, order);
  }

  // ------------------------------------------------------------ one file

  /** An uploaded file as the three decoders would see it: the lines of its
      UTF-8 text (`None` when decoding fails), the Word parser's and the PDF
      parser's view of it. */
  datatype Upload = Upload(filename: string, asText: Option<seq<string>>, asDocx: DocxSource, asPdf: PdfSource)

  /** Last position of `c` in `s`, or -1 (`str.rfind`). */
  function LastIndex(s: string, c: char): (r: int)
    ensures -1 <= r < |s|
  {
    if s == [] then -1
    else if s[|s| - 1] == c then |s| - 1
    else LastIndex(s[..|s| - 1], c)
  }

  /** `rfind`: the last position holding `c`, or -1 when there is none. */
  lemma {:induction false} LastIndexSpec(s: string, c: char)
    ensures LastIndex(s, c) >= 0 ==> s[LastIndex(s, c)] == c
    ensures forall k :: LastIndex(s, c) < k < |s| ==> s[k] != c
  {
    if s != [] && s[|s| - 1] != c {
      LastIndexSpec(s[..|s| - 1], c);
    }
  }

  /** Every character is a dot. */
  predicate DotsOnly(s: string) {
    s == [] || (s[0] == '.' && DotsOnly(s[1..]))
  }

  /** `os.path.splitext(name)[1]` with `/` as the separator, as `posixpath`
      computes it: from the last dot on, when that dot lies in the last path
      component and something other than a dot comes before it there. */
  function SplitExt(name: string): string {
    var sep := LastIndex(name, '/');
    var dot := LastIndex(name, '.');
    if dot > sep && !DotsOnly(name[sep + 1..dot]) then name[dot..] else ""
  }

  /** The last path component of `s` holds a character other than a dot. */
  predicate BaseHasNonDot(s: string) {
    s != [] && s[|s| - 1] != '/' && (s[|s| - 1] != '.' || BaseHasNonDot(s[..|s| - 1]))
  }

  /** The extension, computed one character at a time from the end of the
      name; `ExtensionIsSplitExt` shows it is `SplitExt`. */
  function Extension(name: string): (e: string)
    ensures |e| <= |name|
  {
    if name == [] then ""
    else
      var init := name[..|name| - 1];
      var c := name[|name| - 1];
      if c == '/' then ""
      else if c == '.' then (if BaseHasNonDot(init) then "." else "")
      else if Extension(init) == "" then "" else Extension(init) + [c]
  }

  lemma {:induction false} DotsOnlySnoc(s: string, c: char)
    ensures DotsOnly(s + [c]) <==> DotsOnly(s) && c == '.'
  {
    if s != [] {
      assert (s + [c])[1..] == s[1..] + [c];
      DotsOnlySnoc(s[1..], c);
    }
  }

  lemma {:induction false} LastIndexSnoc(s: string, c: char, x: char)
    requires c != x
    ensures LastIndex(s + [c], x) == LastIndex(s, x)
  {
    assert (s + [c])[..|s|] == s;
  }

  lemma {:induction false} BaseHasNonDotSpec(s: string)
    ensures BaseHasNonDot(s) <==> !DotsOnly(s[LastIndex(s, '/') + 1..])
  {
    if s != [] {
      var init := s[..|s| - 1];
      var c := s[|s| - 1];
      assert s == init + [c];
      if c != '/' {
        LastIndexSnoc(init, c, '/');
        var p := LastIndex(init, '/');
        assert s[p + 1..] == init[p + 1..] + [c];
        DotsOnlySnoc(init[p + 1..], c);
        if c == '.' {
          BaseHasNonDotSpec(init);
        }
      }
    }
  }

  /** The character-by-character extension is `posixpath.splitext`'s. */
  lemma {:induction false} ExtensionIsSplitExt(name: string)
    ensures Extension(name) == SplitExt(name)
  {
    if name != [] {
      var init := name[..|name| - 1];
      var c := name[|name| - 1];
      assert name == init + [c];
      if c == '/' {
        LastIndexSnoc(init, c, '.');
      } else if c == '.' {
        LastIndexSnoc(init, c, '/');
        var sep := LastIndex(init, '/');
        assert name[sep + 1..|name| - 1] == init[sep + 1..];
        BaseHasNonDotSpec(init);
      } else {
        LastIndexSnoc(init, c, '/');
        LastIndexSnoc(init, c, '.');
        ExtensionIsSplitExt(init);
        var sep := LastIndex(init, '/');
        var dot := LastIndex(init, '.');
        if dot > sep {
          assert name[sep + 1..dot] == init[sep + 1..dot];
          assert name[dot..] == init[dot..] + [c];
        }
      }
    }
  }

  /** `e` is a suffix of `name` that starts with its only dot and holds no
      slash. */
  predicate ExtensionShape(name: string, e: string) {
    e != [] && |e| <= |name| && e == name[|name| - |e|..] && e[0] == '.' && '.' !in e[1..] && '/' !in e
  }

  lemma ExtensionShapeSnoc(init: string, e: string, c: char)
    requires ExtensionShape(init, e) && c != '.' && c != '/'
    ensures ExtensionShape(init + [c], e + [c])
  {
    assert (e + [c])[1..] == e[1..] + [c];
    assert (init + [c])[|init| + 1 - |e| - 1..] == init[|init| - |e|..] + [c];
  }

  /** An extension is empty, or a suffix of the name that starts with its only
      dot and holds no slash. */
  lemma {:induction false} ExtensionSpec(name: string)
    ensures Extension(name) == [] || ExtensionShape(name, Extension(name))
  {
    if name != [] {
      var init := name[..|name| - 1];
      var c := name[|name| - 1];
      assert name == init + [c];
      if c != '/' && c != '.' && Extension(init) != [] {
        ExtensionSpec(init);
        ExtensionShapeSnoc(init, Extension(init), c);
      }
    }
  }

  /** The lines `parallel_search_in_file_content` searches, or `None` when it
      raises before searching or meets an unsupported extension. */
  function FileLines(u: Upload): Option<seq<string>> {
    var ext := Lower(Extension(u.filename));
    if ext == ".txt" then u.asText
    else if ext == ".docx" then Some(DocxLines(u.asDocx))
    else if ext == ".pdf" then PdfLines(u.asPdf)
    else None
  }

  /** What one file's search reports, in line order. A processor count of 0
      stands for one `os.cpu_count()` cannot give, and raises. */
  function FileLineMatches(u: Upload, pattern: string, cpuCount: nat): seq<LineMatch> {
    match FileLines(u)
    case None => []
    case Some(lines) => if cpuCount == 0 then [] else ChunkMatches(lines, 1, pattern, u.filename)
  }

  /** A chunk reports nothing exactly when none of its lines holds the pattern. */
  lemma {:induction false} ChunkMatchesEmpty(chunk: seq<string>, startLine: int, pattern: string, fileName: string)
    ensures ChunkMatches(chunk, startLine, pattern, fileName) == [] <==>
              forall i :: 0 <= i < |chunk| ==> !LineHasPattern(chunk[i], pattern)
  {
    if chunk != [] {
      var n := |chunk| - 1;
      ChunkMatchesEmpty(chunk[..n], startLine, pattern, fileName);
      if forall i :: 0 <= i < n ==> !LineHasPattern(chunk[..n][i], pattern) {
        assert forall i :: 0 <= i < n ==> chunk[..n][i] == chunk[i];
      }
    }
  }

  /** Everything a file reports carries its name; only a file whose lines
      hold the pattern reports anything. */
  lemma FileLineMatchesSpec(u: Upload, pattern: string, cpuCount: nat)
    ensures forall m :: m in FileLineMatches(u, pattern, cpuCount) ==> m.fileName == u.filename
    ensures FileLineMatches(u, pattern, cpuCount) != [] <==>
              cpuCount > 0 && FileLines(u).Some? &&
              exists i :: 0 <= i < |FileLines(u).value| && LineHasPattern(FileLines(u).value[i], pattern)
  {
    if FileLines(u).Some? && cpuCount > 0 {
      var lines := FileLines(u).value;
      forall m | m in ChunkMatches(lines, 1, pattern, u.filename) ensures m.fileName == u.filename {
        ChunkMatchesSpec(lines, 1, pattern, u.filename, m);
      }
      ChunkMatchesEmpty(lines, 1, pattern, u.filename);
    }
  }

  /** The completion order fits the number of chunks the file is cut into. */
  predicate OrderFits(u: Upload, cpuCount: nat, order: seq<nat>) {
    match FileLines(u)
    case None => true
    case Some(lines) => cpuCount == 0 || IsOrder(order, |Chunks(lines, ChunkSize(|lines|, cpuCount))|)
  }

  /** The extension dispatch of `parallel_search_in_file_content`: the
      extracted lines, or `None` when it raises or meets an unsupported
      extension. */
  method ReadFileLines(u: Upload) returns (lines: Option<seq<string>>)
    ensures lines == FileLines(u)
  {
    var ext := Lower(Extension(u.filename));
    if ext == ".txt" {
      lines := u.asText;
    } else if ext == ".docx" {
      var extracted := ExtractionFromDocx(u.asDocx);
      lines := Some(extracted);
    } else if ext == ".pdf" {
      lines := ExtractionFromPdfs(u.asPdf);
    } else {
      lines := None;
    }
  }

  /** `parallel_search_in_file_content`, with the futures completing in `order`:
      the same reports as searching the whole file at once, in some order. */
  method ParallelSearchInFileContent(u: Upload, pattern: string, cpuCount: nat, order: seq<nat>)
    returns (results: seq<LineMatch>)
    requires LiteralPattern(pattern)
    requires OrderFits(u, cpuCount, order)
    ensures multiset(results) == multiset(FileLineMatches(u, pattern, cpuCount))
  {
    var extracted := ReadFileLines(u);
    if extracted.None? || cpuCount == 0 {
      return [];
    }
    var lines := extracted.value;
    var chunkSize := ChunkSize(|lines|, cpuCount);
    var perChunk := SubmitChunks(lines, chunkSize, pattern, u.filename);
    results := CollectAsCompleted(perChunk, order);
  }

  // ----------------------------------------------------------- many files

  /** One entry of `parallel_search_in_multiple_files`. */
  datatype FileGroup = FileGroup(fileName: string, matches: seq<LineMatch>)

  /** The entry a file's results make: none when there are no results. */
  function GroupOf(matches: seq<LineMatch>): seq<FileGroup> {
    if matches == [] then [] else [FileGroup(matches[0].fileName, matches)]
  }

  function GroupsEach(perFile: seq<seq<LineMatch>>): (r: seq<seq<FileGroup>>)
    ensures |r| == |perFile| && forall i :: 0 <= i < |perFile| ==> r[i] == GroupOf(perFile[i])
  {
    seq(|perFile|, i requires 0 <= i < |perFile| => GroupOf(perFile[i]))
  }

  /** The entries, in submission order. */
  function Groups(perFile: seq<seq<LineMatch>>): seq<FileGroup> {
    Flatten(GroupsEach(perFile))
  }

  /** Files without results are left out; each other file gives one entry with
      all its results, named after its first result. */
  lemma GroupsSpec(perFile: seq<seq<LineMatch>>, g: FileGroup)
    ensures g in Groups(perFile) <==>
              exists i :: 0 <= i < |perFile| && perFile[i] != [] && g == FileGroup(perFile[i][0].fileName, perFile[i])
  {
    FlattenMember(GroupsEach(perFile), g);
    if g in Groups(perFile) {
      var i :| 0 <= i < |perFile| && g in GroupsEach(perFile)[i];
      assert perFile[i] != [] && g == FileGroup(perFile[i][0].fileName, perFile[i]);
    }
    if exists i :: 0 <= i < |perFile| && perFile[i] != [] && g == FileGroup(perFile[i][0].fileName, perFile[i]) {
      var i :| 0 <= i < |perFile| && perFile[i] != [] && g == FileGroup(perFile[i][0].fileName, perFile[i]);
      assert g in GroupsEach(perFile)[i];
    }
  }

  /** `for future in as_completed(futures): if matches: results.append(...)`. */
  method GroupAsCompleted(perFile: seq<seq<LineMatch>>, order: seq<nat>) returns (groups: seq<FileGroup>)
    requires IsOrder(order, |perFile|)
    ensures multiset(groups) == multiset(Groups(perFile))
  {
    OrderBounds(order, |perFile|);
    var picked := Pick(GroupsEach(perFile), order);
    groups := [];
    var k := 0;
    while k < |order|
      invariant 0 <= k <= |order|
      invariant Flatten(picked[..k]) == groups
    {
      var matches := perFile[order[k]];
      assert picked[..k + 1] == picked[..k] + [GroupOf(matches)];
      FlattenSnoc(picked[..k], GroupOf(matches));
      if matches != [] {
        groups := groups + [FileGroup(matches[0].fileName, matches)];
      }
      k := k + 1;
    }
    assert picked[..k] == picked;
    PermutedFlatten(GroupsEach(perFile), order);
  }

  /** `perFile[i]` holds, in some order, exactly the reports of file `i`. */
  predicate ReorderedReports(uploads: seq<Upload>, pattern: string, cpuCount: nat, perFile: seq<seq<LineMatch>>) {
    && |perFile| == |uploads|
    && forall i :: 0 <= i < |uploads| ==>
         multiset(perFile[i]) == multiset(FileLineMatches(uploads[i], pattern, cpuCount))
  }

  /** `g` is the entry of an uploaded file with reports: named after it and
      holding that file's reports in some order. */
  predicate IsFileEntry(uploads: seq<Upload>, pattern: string, cpuCount: nat, g: FileGroup) {
    && g.matches != []
    && exists i :: 0 <= i < |uploads| && g.fileName == uploads[i].filename &&
                   multiset(g.matches) == multiset(FileLineMatches(uploads[i], pattern, cpuCount))
  }

  /** An entry made from results that are, file by file, a reordering of the
      files' reports is a file with reports, named after it, holding them. */
  lemma GroupOfFile(uploads: seq<Upload>, pattern: string, cpuCount: nat, perFile: seq<seq<LineMatch>>, g: FileGroup)
    requires ReorderedReports(uploads, pattern, cpuCount, perFile)
    requires g in Groups(perFile)
    ensures g.matches != []
    ensures exists i :: 0 <= i < |uploads| && g.fileName == uploads[i].filename &&
                        multiset(g.matches) == multiset(FileLineMatches(uploads[i], pattern, cpuCount))
  {
    GroupsSpec(perFile, g);
    var j :| 0 <= j < |perFile| && perFile[j] != [] && g == FileGroup(perFile[j][0].fileName, perFile[j]);
    assert perFile[j][0] in multiset(perFile[j]);
    FileLineMatchesSpec(uploads[j], pattern, cpuCount);
  }

  /** `f` applied to every element, in order. */
  function MapSeq<T, U>(xs: seq<T>, f: T -> U): (r: seq<U>)
    ensures |r| == |xs|
  {
    if xs == [] then [] else MapSeq(xs[..|xs| - 1], f) + [f(xs[|xs| - 1])]
  }

  lemma {:induction false} MapSeqAt<T, U>(xs: seq<T>, f: T -> U, i: nat)
    requires i < |xs|
    ensures MapSeq(xs, f)[i] == f(xs[i])
  {
    var n := |xs| - 1;
    if i < n {
      MapSeqAt(xs[..n], f, i);
    }
  }

  /** Each file's reports, in submission order. */
  function EachFile(uploads: seq<Upload>, pattern: string, cpuCount: nat): seq<seq<LineMatch>> {
    MapSeq(uploads, u => FileLineMatches(u, pattern, cpuCount))
  }

  lemma EachFileReordered(uploads: seq<Upload>, pattern: string, cpuCount: nat, perFile: seq<seq<LineMatch>>)
    requires |perFile| == |uploads|
    requires forall j :: 0 <= j < |uploads| ==> multiset(perFile[j]) == multiset(EachFile(uploads, pattern, cpuCount)[j])
    ensures ReorderedReports(uploads, pattern, cpuCount, perFile)
  {
    forall j | 0 <= j < |uploads|
      ensures multiset(perFile[j]) == multiset(FileLineMatches(uploads[j], pattern, cpuCount))
    {
      MapSeqAt(uploads, u => FileLineMatches(u, pattern, cpuCount), j);
    }
  }

  /** The loop submitting one future per file, each file's chunks completing
      in `chunkOrders[i]`. */
  method SearchEachFile(uploads: seq<Upload>, pattern: string, cpuCount: nat, chunkOrders: seq<seq<nat>>)
    returns (perFile: seq<seq<LineMatch>>)
    requires LiteralPattern(pattern)
    requires |chunkOrders| == |uploads|
    requires forall i :: 0 <= i < |uploads| ==> OrderFits(uploads[i], cpuCount, chunkOrders[i])
    ensures ReorderedReports(uploads, pattern, cpuCount, perFile)
  {
    perFile := [];
    var i := 0;
    while i < |uploads|
      invariant 0 <= i <= |uploads| && |perFile| == i
      invariant forall j :: 0 <= j < i ==> multiset(perFile[j]) == multiset(EachFile(uploads, pattern, cpuCount)[j])
    {
      var results := ParallelSearchInFileContent(uploads[i], pattern, cpuCount, chunkOrders[i]);
      MapSeqAt(uploads, u => FileLineMatches(u, pattern, cpuCount), i);
      perFile := perFile + [results];
      i := i + 1;
    }
    EachFileReordered(uploads, pattern, cpuCount, perFile);
  }

  /** `parallel_search_in_multiple_files`: file `i`'s chunks complete in
      `chunkOrders[i]`, the files in `fileOrder`. Every entry is a file with
      results, named after it, holding that file's reports in some order; and
      up to the order of the entries and of each entry's reports, the entries
      are those of the files' results in submission order. */
  method ParallelSearchInMultipleFiles(uploads: seq<Upload>, pattern: string, cpuCount: nat,
                                       chunkOrders: seq<seq<nat>>, fileOrder: seq<nat>)
    returns (groups: seq<FileGroup>)
    requires LiteralPattern(pattern)
    requires |chunkOrders| == |uploads|
    requires forall i :: 0 <= i < |uploads| ==> OrderFits(uploads[i], cpuCount, chunkOrders[i])
    requires IsOrder(fileOrder, |uploads|)
    ensures forall g :: g in groups ==> IsFileEntry(uploads, pattern, cpuCount, g)
    ensures exists perFile: seq<seq<LineMatch>> ::
              ReorderedReports(uploads, pattern, cpuCount, perFile) &&
              multiset(groups) == multiset(Groups(perFile))
  {
    var perFile := SearchEachFile(uploads, pattern, cpuCount, chunkOrders);
    groups := GroupAsCompleted(perFile, fileOrder);
    forall g | g in groups
      ensures IsFileEntry(uploads, pattern, cpuCount, g)
    {
      assert g in multiset(groups);
      GroupOfFile(uploads, pattern, cpuCount, perFile, g);
    }
  }
}
