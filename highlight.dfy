/** The highlight splitter of the result views: a cell or line is split with
    `text.split(new RegExp("(" + pattern + ")", "gi"))` and each part is flagged
    when it equals the pattern ignoring case. The pattern is taken literally,
    which is what the unescaped regular expression means when the pattern holds
    no metacharacter. The split follows the ECMAScript `RegExp.prototype[@@split]`
    algorithm step by step, including its handling of an empty match. */
module Highlighting {
  import opened Text

  /** One rendered piece of a highlighted string. */
  datatype Segment = Segment(text: string, isMatch: bool)

  /** The case-insensitive literal `pat` matches `s` starting at `q`. */
  predicate MatchAt(s: string, pat: string, q: int) {
    0 <= q && q + |pat| <= |s| &&
    forall k :: 0 <= k < |pat| ==> LowerChar(s[q + k]) == LowerChar(pat[k])
  }

  /** Some position of `t` starts a case-insensitive occurrence of `pat`. */
  predicate ContainsIgnoringCase(t: string, pat: string) {
    exists j :: 0 <= j <= |t| && MatchAt(t, pat, j)
  }

  /** The split loop: `p` is the start of the current unmatched piece, `q` the
      position where the sticky match is tried next. A match that ends where the
      piece starts is skipped (this only happens for the empty pattern). */
  function SplitScan(s: string, pat: string, p: nat, q: nat): seq<string>
    requires p <= q <= |s|
    decreases |s| - q, q - p
  {
    if q == |s| then [s[p..]]
    else if !MatchAt(s, pat, q) then SplitScan(s, pat, p, q + 1)
    else if q + |pat| == p then SplitScan(s, pat, p, q + 1)
    else [s[p..q], s[q..q + |pat|]] + SplitScan(s, pat, q + |pat|, q + |pat|)
  }

  /** `s.split(/(pat)/gi)`: the pieces between matches, each match kept as its
      own piece (the captured group). An empty string gives no piece when the
      pattern matches it and one empty piece otherwise. */
  function Split(s: string, pat: string): seq<string> {
    if |s| == 0 then (if MatchAt(s, pat, 0) then [] else [s])
    else SplitScan(s, pat, 0, 0)
  }

  function Texts(segs: seq<Segment>): (r: seq<string>)
    ensures |r| == |segs|
    ensures forall i :: 0 <= i < |segs| ==> r[i] == segs[i].text
  {
    seq(|segs|, i requires 0 <= i < |segs| => segs[i].text)
  }

  /** Number of leftmost, non-overlapping case-insensitive occurrences of a
      non-empty `pat` in `s` from position `q` on. */
  function CountFrom(s: string, pat: string, q: nat): nat
    requires |pat| > 0 && q <= |s|
    decreases |s| - q
  {
    if q == |s| then 0
    else if MatchAt(s, pat, q) then 1 + CountFrom(s, pat, q + |pat|)
    else CountFrom(s, pat, q + 1)
  }

  function Occurrences(s: string, pat: string): nat
    requires |pat| > 0
  {
    CountFrom(s, pat, 0)
  }

  /** The rendered highlight: split the text, flag each part that equals the
      pattern ignoring case (`part.toLowerCase() === pattern.toLowerCase()`). */
  function Highlight(s: string, pat: string): seq<Segment>
    requires LiteralPattern(pat)
  {
    var parts := Split(s, pat);
    seq(|parts|, i requires 0 <= i < |parts| => Segment(parts[i], Lower(parts[i]) == Lower(pat)))
  }

  /** What the highlight promises:
      - the parts put back together are the text;
      - for a non-empty pattern with k occurrences there are 2k+1 parts, exactly
        the odd-position parts are flagged, they are the occurrences, and no
        unflagged part contains an occurrence;
      - for the empty pattern (a whitespace-only search) every character of a
        non-empty text becomes its own unflagged part, separated by flagged
        empty parts. */
  lemma HighlightSpec(s: string, pat: string)
    requires LiteralPattern(pat)
    ensures Flatten(Texts(Highlight(s, pat))) == s
    ensures |pat| > 0 ==> |Highlight(s, pat)| == 2 * Occurrences(s, pat) + 1
    ensures |pat| > 0 ==> var r := Highlight(s, pat); forall i :: 0 <= i < |r| ==>
              (r[i].isMatch <==> i % 2 == 1) &&
              (i % 2 == 1 ==> EqualIgnoringCase(r[i].text, pat)) &&
              (i % 2 == 0 ==> !ContainsIgnoringCase(r[i].text, pat))
    ensures |pat| == 0 && |s| > 0 ==> var r := Highlight(s, pat);
              |r| == 2 * |s| - 1 && forall i :: 0 <= i < |r| ==>
              r[i] == if i % 2 == 0 then Segment([s[i / 2]], false) else Segment([], true)
  {
    var parts := Split(s, pat);
    var r := Highlight(s, pat);
    assert Texts(r) == parts;
    SplitRoundTrip(s, pat);
    if |pat| > 0 {
      SplitShape(s, pat);
      forall i | 0 <= i < |r| ensures r[i].isMatch <==> i % 2 == 1 {
        EqualIgnoringCaseIsLowerEquality(parts[i], pat);
        if i % 2 == 0 && EqualIgnoringCase(parts[i], pat) {
          assert MatchAt(parts[i], pat, 0);
        }
      }
    } else if |s| > 0 {
      SplitEmptyPattern(s, pat, 0);
    }
  }

  // ------------------------------------------------------------ round trip

  lemma {:induction false} SplitScanConcat(s: string, pat: string, p: nat, q: nat)
    requires p <= q <= |s|
    ensures Flatten(SplitScan(s, pat, p, q)) == s[p..]
    decreases |s| - q, q - p
  {
    if q == |s| {
      assert Flatten([s[p..]]) == s[p..] + Flatten([]);
    } else if !MatchAt(s, pat, q) || q + |pat| == p {
      SplitScanConcat(s, pat, p, q + 1);
    } else {
      SplitScanConcat(s, pat, q + |pat|, q + |pat|);
      MatchStepConcat(s, pat, p, q);
    }
  }

  /** The step at a match: the parts before and at the match go in front of
      the parts of the rest. */
  lemma MatchStepConcat(s: string, pat: string, p: nat, q: nat)
    requires p <= q < |s| && MatchAt(s, pat, q) && q + |pat| != p
    requires Flatten(SplitScan(s, pat, q + |pat|, q + |pat|)) == s[q + |pat|..]
    ensures Flatten(SplitScan(s, pat, p, q)) == s[p..]
  {
    var e := q + |pat|;
    assert SplitScan(s, pat, p, q) == [s[p..q], s[q..e]] + SplitScan(s, pat, e, e);
    MatchPieceConcat(s[p..q], s[q..e], SplitScan(s, pat, e, e));
    assert s[p..] == s[p..q] + s[q..e] + s[e..];
  }

  /** A piece and its match in front of the rest flatten to the three joined. */
  lemma MatchPieceConcat(piece: string, m: string, rest: seq<string>)
    ensures Flatten([piece, m] + rest) == piece + m + Flatten(rest)
  {
    FlattenAppend([piece, m], rest);
    assert Flatten([piece, m]) == piece + m + Flatten([]) by {
      assert [piece, m][1..] == [m];
      assert [m][1..] == [];
    }
  }

  /** Concatenating the parts gives back the text, for every pattern. */
  lemma SplitRoundTrip(s: string, pat: string)
    ensures Flatten(Split(s, pat)) == s
  {
    if |s| > 0 {
      SplitScanConcat(s, pat, 0, 0);
    }
  }

  /** Re-running the highlight on its own reconstructed text gives the same parts. */
  lemma HighlightIdempotent(s: string, pat: string)
    requires LiteralPattern(pat)
    ensures Highlight(Flatten(Texts(Highlight(s, pat))), pat) == Highlight(s, pat)
  {
    HighlightSpec(s, pat);
  }

  // ------------------------------------------------- shape for a non-empty pattern

  lemma MatchInSlice(s: string, pat: string, a: nat, b: nat, j: nat)
    requires a <= b <= |s|
    requires MatchAt(s[a..b], pat, j)
    ensures MatchAt(s, pat, a + j) && a + j + |pat| <= b
  {
    forall k | 0 <= k < |pat| ensures LowerChar(s[a + j + k]) == LowerChar(pat[k]) {
      assert s[a..b][j + k] == s[a + j + k];
    }
  }

  /** A piece `s[p..b]` in front of which no match was found contains no occurrence. */
  lemma NoOccurrenceInPiece(s: string, pat: string, p: nat, b: nat)
    requires |pat| > 0 && p <= b <= |s|
    requires forall j :: p <= j < b ==> !MatchAt(s, pat, j)
    ensures !ContainsIgnoringCase(s[p..b], pat)
  {
    if ContainsIgnoringCase(s[p..b], pat) {
      var j :| 0 <= j <= |s[p..b]| && MatchAt(s[p..b], pat, j);
      MatchInSlice(s, pat, p, b, j);
      assert false;
    }
  }

  predicate PartsShape(parts: seq<string>, pat: string) {
    forall i :: 0 <= i < |parts| ==>
      (i % 2 == 1 ==> EqualIgnoringCase(parts[i], pat)) &&
      (i % 2 == 0 ==> !ContainsIgnoringCase(parts[i], pat))
  }

  lemma {:induction false} SplitScanShape(s: string, pat: string, p: nat, q: nat)
    requires |pat| > 0 && p <= q <= |s|
    requires forall j :: p <= j < q ==> !MatchAt(s, pat, j)
    ensures |SplitScan(s, pat, p, q)| == 2 * CountFrom(s, pat, q) + 1
    ensures PartsShape(SplitScan(s, pat, p, q), pat)
    decreases |s| - q
  {
    if q == |s| {
      NoOccurrenceInPiece(s, pat, p, |s|);
      assert s[p..] == s[p..|s|];
    } else if !MatchAt(s, pat, q) {
      SplitScanShape(s, pat, p, q + 1);
    } else {
      SplitScanShape(s, pat, q + |pat|, q + |pat|);
      MatchStepShape(s, pat, p, q);
    }
  }

  /** The step at a match: a piece with no occurrence and the occurrence
      itself go in front of parts that already have the shape. */
  lemma MatchStepShape(s: string, pat: string, p: nat, q: nat)
    requires |pat| > 0 && p <= q < |s| && MatchAt(s, pat, q)
    requires forall j :: p <= j < q ==> !MatchAt(s, pat, j)
    requires |SplitScan(s, pat, q + |pat|, q + |pat|)| == 2 * CountFrom(s, pat, q + |pat|) + 1
    requires PartsShape(SplitScan(s, pat, q + |pat|, q + |pat|), pat)
    ensures |SplitScan(s, pat, p, q)| == 2 * CountFrom(s, pat, q) + 1
    ensures PartsShape(SplitScan(s, pat, p, q), pat)
  {
    var e := q + |pat|;
    NoOccurrenceInPiece(s, pat, p, q);
    assert EqualIgnoringCase(s[q..e], pat);
    assert SplitScan(s, pat, p, q) == [s[p..q], s[q..e]] + SplitScan(s, pat, e, e);
    PartsShapeCons(s[p..q], s[q..e], SplitScan(s, pat, e, e), pat);
  }

  lemma PartsShapeCons(piece: string, m: string, rest: seq<string>, pat: string)
    requires !ContainsIgnoringCase(piece, pat) && EqualIgnoringCase(m, pat)
    requires PartsShape(rest, pat)
    ensures PartsShape([piece, m] + rest, pat)
  {
    var r := [piece, m] + rest;
    forall i | 2 <= i < |r| ensures r[i] == rest[i - 2] && (i % 2 == (i - 2) % 2) { }
  }

  /** For a non-empty pattern: 2k+1 parts, delimiters at odd positions. */
  lemma SplitShape(s: string, pat: string)
    requires |pat| > 0
    ensures |Split(s, pat)| == 2 * Occurrences(s, pat) + 1
    ensures PartsShape(Split(s, pat), pat)
  {
    if |s| == 0 {
      assert !MatchAt(s, pat, 0);
      assert !ContainsIgnoringCase(s, pat);
    } else {
      SplitScanShape(s, pat, 0, 0);
    }
  }

  // ------------------------------------------------------ the empty pattern

  lemma {:induction false} SplitEmptyPattern(s: string, pat: string, p: nat)
    requires |pat| == 0 && p < |s|
    ensures var r := SplitScan(s, pat, p, p);
            |r| == 2 * (|s| - p) - 1 &&
            forall i :: 0 <= i < |r| ==> r[i] == if i % 2 == 0 then [s[p + i / 2]] else []
    decreases |s| - p
  {
    assert MatchAt(s, pat, p);
    assert SplitScan(s, pat, p, p) == SplitScan(s, pat, p, p + 1);
    if p + 1 < |s| {
      assert MatchAt(s, pat, p + 1);
      var rest := SplitScan(s, pat, p + 1, p + 1);
      SplitEmptyPattern(s, pat, p + 1);
      assert SplitScan(s, pat, p, p + 1) == [s[p..p + 1], s[p + 1..p + 1]] + rest;
      var r := [s[p..p + 1], s[p + 1..p + 1]] + rest;
      forall i | 2 <= i < |r| ensures r[i] == if i % 2 == 0 then [s[p + i / 2]] else [] {
        assert r[i] == rest[i - 2];
      }
    }
  }
}
