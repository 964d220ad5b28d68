/** String primitives shared by the frontend and backend models: ASCII case
    mapping, the whitespace classes of Python and JavaScript, stripping,
    substring tests, joining, splitting on a character and decimal rendering. */
module Text {

  /** An optional value: `null`/`None` or a present one. */
  datatype Option<T> = None | Some(value: T)

  // ---------------------------------------------------------------- case

  function LowerChar(c: char): char {
    if 'A' <= c <= 'Z' then (c as int + 32) as char else c
  }

  function UpperChar(c: char): char {
    if 'a' <= c <= 'z' then (c as int - 32) as char else c
  }

  /** `toLowerCase()` / `.lower()` restricted to ASCII letters. */
  function Lower(s: string): (r: string)
    ensures |r| == |s|
    ensures forall i :: 0 <= i < |s| ==> r[i] == LowerChar(s[i])
  {
    seq(|s|, i requires 0 <= i < |s| => LowerChar(s[i]))
  }

  /** `toUpperCase()` / `.upper()` restricted to ASCII letters. */
  function Upper(s: string): (r: string)
    ensures |r| == |s|
    ensures forall i :: 0 <= i < |s| ==> r[i] == UpperChar(s[i])
  {
    seq(|s|, i requires 0 <= i < |s| => UpperChar(s[i]))
  }

  predicate IsAsciiLetter(c: char) {
    'A' <= c <= 'Z' || 'a' <= c <= 'z'
  }

  predicate IsAsciiDigit(c: char) {
    '0' <= c <= '9'
  }

  /** Two strings are equal once both are lower-cased. */
  predicate EqualIgnoringCase(a: string, b: string) {
    |a| == |b| && forall k :: 0 <= k < |a| ==> LowerChar(a[k]) == LowerChar(b[k])
  }

  lemma EqualIgnoringCaseIsLowerEquality(a: string, b: string)
    ensures EqualIgnoringCase(a, b) <==> Lower(a) == Lower(b)
  {
    if Lower(a) == Lower(b) {
      forall k | 0 <= k < |a| ensures LowerChar(a[k]) == LowerChar(b[k]) {
        assert Lower(a)[k] == Lower(b)[k];
      }
    }
  }

  // ---------------------------------------------------------- whitespace

  /** Which language's notion of whitespace a strip uses. */
  datatype Whitespace = Python | JavaScript

  /** Python's `str.isspace()` (also what `\s` matches in a `str` regex). */
  predicate IsPySpace(c: char) {
    var n := c as int;
    (0x09 <= n <= 0x0D) || (0x1C <= n <= 0x20) || n == 0x85 || n == 0xA0 ||
    n == 0x1680 || (0x2000 <= n <= 0x200A) || n == 0x2028 || n == 0x2029 ||
    n == 0x202F || n == 0x205F || n == 0x3000
  }

  /** ECMAScript WhiteSpace and LineTerminator, removed by `String.prototype.trim`. */
  predicate IsJsSpace(c: char) {
    var n := c as int;
    (0x09 <= n <= 0x0D) || n == 0x20 || n == 0xA0 || n == 0x1680 ||
    (0x2000 <= n <= 0x200A) || n == 0x2028 || n == 0x2029 ||
    n == 0x202F || n == 0x205F || n == 0x3000 || n == 0xFEFF
  }

  predicate IsSpace(w: Whitespace, c: char) {
    match w
    case Python => IsPySpace(c)
    case JavaScript => IsJsSpace(c)
  }

  function DropLeading(w: Whitespace, s: string): (r: string)
    ensures |r| <= |s|
  {
    if s != [] && IsSpace(w, s[0]) then DropLeading(w, s[1..]) else s
  }

  function DropTrailing(w: Whitespace, s: string): (r: string)
    ensures |r| <= |s|
  {
    if s != [] && IsSpace(w, s[|s| - 1]) then DropTrailing(w, s[..|s| - 1]) else s
  }

  /** `DropLeading` removes a whitespace prefix and stops at the first
      non-whitespace character. */
  lemma {:induction false} DropLeadingSpec(w: Whitespace, s: string)
    ensures var r := DropLeading(w, s);
            && r == s[|s| - |r|..]
            && (forall i :: 0 <= i < |s| - |r| ==> IsSpace(w, s[i]))
            && (r != [] ==> !IsSpace(w, r[0]))
  {
    if s != [] && IsSpace(w, s[0]) {
      DropLeadingSpec(w, s[1..]);
    }
  }

  /** `DropTrailing` removes a whitespace suffix and stops at the last
      non-whitespace character. */
  lemma {:induction false} DropTrailingSpec(w: Whitespace, s: string)
    ensures var r := DropTrailing(w, s);
            && r == s[..|r|]
            && (forall i :: |r| <= i < |s| ==> IsSpace(w, s[i]))
            && (r != [] ==> !IsSpace(w, r[|r| - 1]))
  {
    if s != [] && IsSpace(w, s[|s| - 1]) {
      DropTrailingSpec(w, s[..|s| - 1]);
    }
  }

  /** Python `str.strip()` / JavaScript `trim()`. */
  function Strip(w: Whitespace, s: string): string {
    DropTrailing(w, DropLeading(w, s))
  }

  /** The stripped string is the part of `s` between a whitespace prefix and a
      whitespace suffix, and it neither starts nor ends with whitespace. */
  lemma StripSpec(w: Whitespace, s: string)
    ensures var r := Strip(w, s); var i := LeadingSpaces(w, s);
            && i + |r| <= |s| && r == s[i..i + |r|]
            && (forall k :: 0 <= k < i ==> IsSpace(w, s[k]))
            && (forall k :: i + |r| <= k < |s| ==> IsSpace(w, s[k]))
            && IsStripped(w, r)
  {
    StripSlice(w, s);
    DropLeadingSpec(w, s);
    TrailingOfSuffix(w, s, DropLeading(w, s));
    StripStripped(w, s);
  }

  lemma StripSlice(w: Whitespace, s: string)
    ensures LeadingSpaces(w, s) + |Strip(w, s)| <= |s|
    ensures Strip(w, s) == s[LeadingSpaces(w, s)..LeadingSpaces(w, s) + |Strip(w, s)|]
  {
    var t := DropLeading(w, s);
    DropLeadingSpec(w, s);
    DropTrailingSpec(w, t);
    assert t == s[|s| - |t|..];
  }

  lemma StripStripped(w: Whitespace, s: string)
    ensures IsStripped(w, Strip(w, s))
  {
    var t := DropLeading(w, s);
    DropLeadingSpec(w, s);
    DropTrailingSpec(w, t);
    var r := DropTrailing(w, t);
    if r != [] {
      assert r[0] == t[0];
    }
  }

  lemma TrailingOfSuffix(w: Whitespace, s: string, t: string)
    requires |t| <= |s| && t == s[|s| - |t|..]
    ensures forall k :: |s| - |t| + |DropTrailing(w, t)| <= k < |s| ==> IsSpace(w, s[k])
  {
    var i := |s| - |t|;
    DropTrailingSpec(w, t);
    forall k | i + |DropTrailing(w, t)| <= k < |s|
      ensures IsSpace(w, s[k])
    {
      assert s[k] == t[k - i];
    }
  }

  /** How many whitespace characters `Strip` removes at the front. */
  function LeadingSpaces(w: Whitespace, s: string): (i: nat)
    ensures i <= |s|
  {
    |s| - |DropLeading(w, s)|
  }

  predicate IsStripped(w: Whitespace, s: string) {
    s == [] || (!IsSpace(w, s[0]) && !IsSpace(w, s[|s| - 1]))
  }

  /** Stripping is the identity on a stripped string, so it is idempotent. */
  lemma StripOfStripped(w: Whitespace, s: string)
    requires IsStripped(w, s)
    ensures Strip(w, s) == s
  {
  }

  lemma StripIdempotent(w: Whitespace, s: string)
    ensures Strip(w, Strip(w, s)) == Strip(w, s)
  {
    StripSpec(w, s);
    StripOfStripped(w, Strip(w, s));
  }

  /** Lower-casing touches only letters, never whitespace, so it commutes
      with stripping. */
  lemma {:induction false} DropLeadingLower(w: Whitespace, s: string)
    ensures DropLeading(w, Lower(s)) == Lower(DropLeading(w, s))
  {
    if s != [] {
      assert Lower(s)[1..] == Lower(s[1..]);
      DropLeadingLower(w, s[1..]);
    }
  }

  lemma {:induction false} DropTrailingLower(w: Whitespace, s: string)
    ensures DropTrailing(w, Lower(s)) == Lower(DropTrailing(w, s))
  {
    if s != [] {
      assert Lower(s)[..|s| - 1] == Lower(s[..|s| - 1]);
      DropTrailingLower(w, s[..|s| - 1]);
    }
  }

  lemma StripLower(w: Whitespace, s: string)
    ensures Strip(w, Lower(s)) == Lower(Strip(w, s))
  {
    DropLeadingLower(w, s);
    DropTrailingLower(w, DropLeading(w, s));
  }

  // ----------------------------------------------------------- substrings

  /** `pat` occurs in `s` at position `i`, comparing characters exactly. */
  predicate OccursAt(s: string, pat: string, i: int) {
    0 <= i && i + |pat| <= |s| && s[i..i + |pat|] == pat
  }

  /** JavaScript `includes` / Python `in`. */
  predicate Contains(s: string, pat: string) {
    exists i :: 0 <= i <= |s| && OccursAt(s, pat, i)
  }

  /** JavaScript `startsWith` / Python `startswith`. */
  predicate StartsWith(s: string, pre: string) {
    |pre| <= |s| && s[..|pre|] == pre
  }

  predicate EndsWith(s: string, suf: string) {
    |suf| <= |s| && s[|s| - |suf|..] == suf
  }

  // ------------------------------------------------------------------ join

  /** Python `sep.join(xs)` / JavaScript `xs.join(sep)`. */
  function Join(xs: seq<string>, sep: string): (r: string)
    ensures xs == [] ==> r == []
    ensures |xs| == 1 ==> r == xs[0]
  {
    if |xs| == 0 then [] else if |xs| == 1 then xs[0] else xs[0] + sep + Join(xs[1..], sep)
  }

  lemma {:induction false} JoinSnoc(xs: seq<string>, x: string, sep: string)
    requires xs != []
    ensures Join(xs + [x], sep) == Join(xs, sep) + sep + x
  {
    if |xs| == 1 {
      assert xs + [x] == [xs[0], x];
      assert ([xs[0], x])[1..] == [x];
    } else {
      assert (xs + [x])[1..] == xs[1..] + [x];
      JoinSnoc(xs[1..], x, sep);
    }
  }

  lemma {:induction false} JoinAppend(a: seq<string>, b: seq<string>, sep: string)
    requires a != [] && b != []
    ensures Join(a + b, sep) == Join(a, sep) + sep + Join(b, sep)
  {
    if |a| == 1 {
      assert (a + b)[1..] == b;
    } else {
      assert (a + b)[1..] == a[1..] + b;
      JoinAppend(a[1..], b, sep);
    }
  }

  /** A character in neither the pieces nor the separator is not in the join. */
  lemma {:induction false} JoinWithout(xs: seq<string>, sep: string, c: char)
    requires c !in sep
    requires forall i :: 0 <= i < |xs| ==> c !in xs[i]
    ensures c !in Join(xs, sep)
  {
    if |xs| > 1 {
      JoinWithout(xs[1..], sep, c);
    }
  }

  // --------------------------------------------------- split on a character

  /** JavaScript `s.split(c)` / Python `s.split(c)` for a one-character
      separator: the maximal pieces between occurrences of `c`. */
  function SplitOn(s: string, c: char): (r: seq<string>)
    ensures |r| >= 1
    ensures forall i :: 0 <= i < |r| ==> c !in r[i]
  {
    if c !in s then [s]
    else
      var k := FirstIndex(s, c);
      [s[..k]] + SplitOn(s[k + 1..], c)
  }

  function FirstIndex(s: string, c: char): (k: nat)
    requires c in s
    ensures k < |s| && s[k] == c && c !in s[..k]
  {
    if s[0] == c then 0 else 1 + FirstIndex(s[1..], c)
  }

  /** Splitting on a character undoes joining with it, when no piece holds it. */
  lemma {:induction false} SplitJoin(xs: seq<string>, c: char)
    requires xs != []
    requires forall i :: 0 <= i < |xs| ==> c !in xs[i]
    ensures SplitOn(Join(xs, [c]), c) == xs
  {
    if |xs| > 1 {
      var s := Join(xs, [c]);
      assert s == xs[0] + [c] + Join(xs[1..], [c]);
      assert s[|xs[0]|] == c;
      assert c in s;
      var k := FirstIndex(s, c);
      assert s[..|xs[0]|] == xs[0];
      assert k == |xs[0]|;
      assert s[k + 1..] == Join(xs[1..], [c]);
      SplitJoin(xs[1..], c);
    }
  }

  // ------------------------------------------------------------ sequences

  /** Concatenation of a sequence of sequences. */
  function Flatten<T>(xss: seq<seq<T>>): seq<T> {
    if xss == [] then [] else xss[0] + Flatten(xss[1..])
  }

  lemma {:induction false} FlattenAppend<T>(a: seq<seq<T>>, b: seq<seq<T>>)
    ensures Flatten(a + b) == Flatten(a) + Flatten(b)
  {
    if a == [] {
      assert a + b == b;
    } else {
      assert (a + b)[1..] == a[1..] + b;
      FlattenAppend(a[1..], b);
    }
  }

  lemma FlattenSnoc<T>(xss: seq<seq<T>>, xs: seq<T>)
    ensures Flatten(xss + [xs]) == Flatten(xss) + xs
  {
    FlattenAppend(xss, [xs]);
    assert Flatten([xs]) == xs + Flatten([xs][1..]);
    assert [xs][1..] == [];
  }

  lemma FlattenLast<T>(xss: seq<seq<T>>)
    requires xss != []
    ensures Flatten(xss) == Flatten(xss[..|xss| - 1]) + xss[|xss| - 1]
  {
    assert xss == xss[..|xss| - 1] + [xss[|xss| - 1]];
    FlattenSnoc(xss[..|xss| - 1], xss[|xss| - 1]);
  }

  lemma {:induction false} FlattenMember<T>(xss: seq<seq<T>>, x: T)
    ensures x in Flatten(xss) <==> exists i :: 0 <= i < |xss| && x in xss[i]
  {
    if xss != [] {
      FlattenMember(xss[1..], x);
      if exists i :: 0 <= i < |xss| && x in xss[i] {
        var i :| 0 <= i < |xss| && x in xss[i];
        if i > 0 {
          assert xss[1..][i - 1] == xss[i];
        }
      }
      if x in Flatten(xss[1..]) {
        var i :| 0 <= i < |xss[1..]| && x in xss[1..][i];
        assert xss[i + 1] == xss[1..][i];
      }
    }
  }

  /** Each group joined on its own. */
  function JoinEach(xss: seq<seq<string>>, sep: string): (r: seq<string>)
    ensures |r| == |xss| && forall i :: 0 <= i < |xss| ==> r[i] == Join(xss[i], sep)
  {
    seq(|xss|, i requires 0 <= i < |xss| => Join(xss[i], sep))
  }

  /** Joining all pieces of non-empty groups is joining the groups' joins. */
  lemma {:induction false} JoinFlatten(xss: seq<seq<string>>, sep: string)
    requires forall i :: 0 <= i < |xss| ==> xss[i] != []
    ensures Join(Flatten(xss), sep) == Join(JoinEach(xss, sep), sep)
  {
    if |xss| == 1 {
      assert Flatten(xss) == xss[0] + Flatten(xss[1..]);
      assert Flatten(xss[1..]) == [];
      assert Flatten(xss) == xss[0];
    } else if |xss| > 1 {
      var rest := xss[1..];
      assert Flatten(rest) == rest[0] + Flatten(rest[1..]);
      JoinAppend(xss[0], Flatten(rest), sep);
      JoinFlatten(rest, sep);
      assert JoinEach(xss, sep)[1..] == JoinEach(rest, sep);
    }
  }

  // ------------------------------------------------------ decimal numbers

  function DigitChar(d: nat): (c: char)
    requires d < 10
    ensures IsAsciiDigit(c)
  {
    ('0' as int + d) as char
  }

  /** Decimal rendering of a natural number, as `toString()` / `str()` give it. */
  function DecimalString(n: nat): (r: string)
    ensures r != []
    ensures forall i :: 0 <= i < |r| ==> IsAsciiDigit(r[i])
    ensures n > 0 ==> r[0] != '0'
    decreases n
  {
    if n < 10 then [DigitChar(n)] else DecimalString(n / 10) + [DigitChar(n % 10)]
  }

  function DigitValue(c: char): nat
    requires IsAsciiDigit(c)
  {
    c as int - '0' as int
  }

  /** Reading the digits back gives the number. */
  function DecimalValue(s: string): nat
    requires forall i :: 0 <= i < |s| ==> IsAsciiDigit(s[i])
  {
    if s == [] then 0 else 10 * DecimalValue(s[..|s| - 1]) + DigitValue(s[|s| - 1])
  }

  lemma {:induction false} DecimalRoundTrip(n: nat)
    ensures DecimalValue(DecimalString(n)) == n
    decreases n
  {
    if n >= 10 {
      var s := DecimalString(n);
      assert s[..|s| - 1] == DecimalString(n / 10);
      DecimalRoundTrip(n / 10);
    }
  }

  /** `String(n)` / `str(n)` for an integer. */
  function IntString(n: int): (r: string)
    ensures r != []
    ensures n < 0 <==> r[0] == '-'
  {
    if n < 0 then "-" + DecimalString(-n) else DecimalString(n)
  }

  // ---------------------------------------------------- regular expressions

  /** Characters with a meaning in a JavaScript or Python regular expression. */
  predicate IsRegexMeta(c: char) {
    c in "\\^$.|?*+()[]{}"
  }

  /** A pattern that an unescaped regular expression reads literally. */
  predicate LiteralPattern(pat: string) {
    forall i :: 0 <= i < |pat| ==> !IsRegexMeta(pat[i])
  }

  // ------------------------------------------------------------------ ascii

  predicate IsAscii(c: char) {
    c as int <= 0x7F
  }
}
