/** The PDF export of backend/GeneratePDF.py: the text sanitiser that keeps
    only ASCII characters, and the guard that rejects a request without search
    results. The page layout written with FPDF is outside the model. */
module PdfExport {
  import opened Text

  /** `re.sub(r'[^\x00-\x7F]+', '', text)`: every run of non-ASCII characters
      is removed. */
  function SanitizeText(s: string): string {
    if s == [] then []
    else SanitizeText(s[..|s| - 1]) + (if IsAscii(s[|s| - 1]) then [s[|s| - 1]] else [])
  }

  /** Only ASCII characters are left. */
  lemma {:induction false} SanitizeAscii(s: string)
    ensures forall k :: 0 <= k < |SanitizeText(s)| ==> IsAscii(SanitizeText(s)[k])
  {
    if s != [] {
      SanitizeAscii(s[..|s| - 1]);
    }
  }

  /** Sanitising works character by character: it distributes over
      concatenation and keeps a single character exactly when it is ASCII.
      Together these say the result is the input with its non-ASCII
      characters removed and the others kept in order. */
  lemma {:induction false} SanitizeAppend(a: string, b: string)
    ensures SanitizeText(a + b) == SanitizeText(a) + SanitizeText(b)
    decreases |b|
  {
    if b == [] {
      assert a + b == a;
    } else {
      assert (a + b)[..|a + b| - 1] == a + b[..|b| - 1];
      SanitizeAppend(a, b[..|b| - 1]);
    }
  }

  lemma SanitizeChar(c: char)
    ensures SanitizeText([c]) == if IsAscii(c) then [c] else []
  {
    assert [c][..0] == [];
  }

  /** Input is returned unchanged exactly when it is all ASCII. */
  lemma {:induction false} SanitizeIdentity(s: string)
    ensures SanitizeText(s) == s <==> forall k :: 0 <= k < |s| ==> IsAscii(s[k])
  {
    if s != [] {
      var n := |s| - 1;
      SanitizeIdentity(s[..n]);
      SanitizeLength(s[..n]);
      if SanitizeText(s) == s {
        assert IsAscii(s[n]);
        assert SanitizeText(s[..n]) == s[..n];
      }
      if forall k :: 0 <= k < |s| ==> IsAscii(s[k]) {
        assert forall k :: 0 <= k < n ==> IsAscii(s[..n][k]);
        assert s[..n] + [s[n]] == s;
      }
    }
  }

  lemma {:induction false} SanitizeLength(s: string)
    ensures |SanitizeText(s)| <= |s|
  {
    if s != [] {
      SanitizeLength(s[..|s| - 1]);
    }
  }

  /** Sanitising twice is sanitising once. */
  lemma SanitizeIdempotent(s: string)
    ensures SanitizeText(SanitizeText(s)) == SanitizeText(s)
  {
    SanitizeAscii(s);
    SanitizeIdentity(SanitizeText(s));
  }

  /** A JSON value as Flask parses a request body. */
  datatype Json =
    | JNull
    | JBool(b: bool)
    | JNumber(n: int)
    | JString(s: string)
    | JArray(items: seq<Json>)
    | JObject(fields: map<string, Json>)

  /** Python truthiness of the parsed value. */
  predicate Truthy(j: Json) {
    match j
    case JNull => false
    case JBool(b) => b
    case JNumber(n) => n != 0
    case JString(s) => s != []
    case JArray(items) => items != []
    case JObject(fields) => fields != map[]
  }

  /** What `generate_pdf` does with the body before writing any page: the
      400 reply, going on to the export, or the `AttributeError` a non-empty
      body that is not an object raises at `.get`. */
  datatype Verdict = Rejected | Accepted | Raises

  function CheckRequest(body: Option<Json>): Verdict {
    if body.None? || !Truthy(body.value) then Rejected
    else if !body.value.JObject? then Raises
    else if "searchResults" !in body.value.fields || !Truthy(body.value.fields["searchResults"]) then Rejected
    else Accepted
  }

  /** The export goes on exactly for an object whose results are present and
      truthy; for a results array that means non-empty, so a search that found
      nothing is refused. */
  lemma CheckRequestSpec(body: Option<Json>)
    ensures CheckRequest(body) == Accepted <==>
              body.Some? && body.value.JObject? && "searchResults" in body.value.fields &&
              Truthy(body.value.fields["searchResults"])
    ensures body.Some? && body.value.JObject? && "searchResults" in body.value.fields &&
            body.value.fields["searchResults"].JArray? ==>
              (CheckRequest(body) == Accepted <==> body.value.fields["searchResults"].items != [])
    ensures body.None? || (body.value.JObject? && "searchResults" !in body.value.fields) ==>
              CheckRequest(body) == Rejected
  {
    if body.Some? && body.value.JObject? && "searchResults" in body.value.fields {
      assert body.value.fields != map[];
    }
  }
}
