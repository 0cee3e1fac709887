/** The JavaScript and SQLite string built-ins that the core relies on:
    `String.prototype.trim`, `toLowerCase`, `endsWith`, `replace(/c/g, ...)`,
    `String(n)`, `parseInt(s, 10)`, and the pattern `LIKE '%term%'`. */
module Strings {
  import opened Wrappers

  /** The characters `trim` removes: WhiteSpace and LineTerminator of ECMAScript
      (tab, VT, FF, space, NBSP, BOM, the Unicode space separators, LF, CR, LS, PS). */
  predicate IsJsWhitespace(c: char) {
    || c == '\t' || c == '\U{B}' || c == '\U{C}' || c == ' '
    || c == '\U{A0}' || c == '\U{FEFF}' || c == '\U{1680}'
    || ('\U{2000}' <= c <= '\U{200A}')
    || c == '\U{202F}' || c == '\U{205F}' || c == '\U{3000}'
    || c == '\n' || c == '\r' || c == '\U{2028}' || c == '\U{2029}'
  }

  predicate AllWhitespace(s: string) {
    forall i :: 0 <= i < |s| ==> IsJsWhitespace(s[i])
  }

  /** The number of whitespace characters `s` starts with. */
  function LeadingWs(s: string): (n: nat)
    ensures n <= |s| && AllWhitespace(s[..n])
    ensures n < |s| ==> !IsJsWhitespace(s[n])
  {
    if s == [] || !IsJsWhitespace(s[0]) then 0
    else
      var n := LeadingWs(s[1..]);
      assert s[..n + 1] == [s[0]] + s[1..][..n];
      n + 1
  }

  /** `s` with its leading whitespace removed. */
  function TrimStart(s: string): (r: string)
    ensures r == [] || !IsJsWhitespace(r[0])
    ensures AllWhitespace(s) ==> r == []
  {
    s[LeadingWs(s)..]
  }

  /** `String.prototype.trim`: whitespace removed from both ends. */
  function Trim(s: string): (r: string)
    ensures r == [] <==> AllWhitespace(s)
    ensures r != [] ==> !IsJsWhitespace(r[0]) && !IsJsWhitespace(r[|r| - 1])
    ensures |r| <= |s|
    decreases |s|
  {
    if s == [] then []
    else if IsJsWhitespace(s[0]) then
      var r := Trim(s[1..]);
      assert AllWhitespace(s) <==> AllWhitespace(s[1..]) by {
        assert forall k :: 1 <= k < |s| ==> s[k] == s[1..][k - 1];
      }
      r
    else if IsJsWhitespace(s[|s| - 1]) then
      var r := Trim(s[..|s| - 1]);
      assert !AllWhitespace(s) && !AllWhitespace(s[..|s| - 1]) by {
        assert s[..|s| - 1][0] == s[0];
      }
      r
    else s
  }

  /** Trimming twice is trimming once. */
  lemma TrimIdempotent(s: string)
    ensures Trim(Trim(s)) == Trim(s)
  {
    var t := Trim(s);
    if t != [] {
      assert !IsJsWhitespace(t[0]) && !IsJsWhitespace(t[|t| - 1]);
    }
  }

  /** The number of whitespace characters `s` ends with. */
  function TrailingWs(s: string): (n: nat)
    ensures n <= |s| && AllWhitespace(s[|s| - n..])
    ensures n < |s| ==> !IsJsWhitespace(s[|s| - n - 1])
  {
    if s == [] || !IsJsWhitespace(s[|s| - 1]) then 0
    else
      var p := s[..|s| - 1];
      var n := TrailingWs(p);
      assert s[|s| - (n + 1)..] == p[|p| - n..] + [s[|s| - 1]];
      n + 1
  }

  /** A count with the two properties of `TrailingWs` is `TrailingWs`. */
  lemma TrailingWsUnique(s: string, m: nat)
    requires m <= |s| && AllWhitespace(s[|s| - m..])
    requires m < |s| ==> !IsJsWhitespace(s[|s| - m - 1])
    ensures TrailingWs(s) == m
  {
  }

  /** Trailing whitespace is not changed by dropping a leading character, when
      something non-whitespace is left. */
  lemma TrailingWsDropFirst(s: string)
    requires s != [] && !AllWhitespace(s[1..])
    ensures TrailingWs(s) == TrailingWs(s[1..])
  {
    var t := s[1..];
    var m := TrailingWs(t);
    assert s[|s| - m..] == t[|t| - m..];
    assert m < |t|;
    assert s[|s| - m - 1] == t[|t| - m - 1];
    TrailingWsUnique(s, m);
  }

  /** The characterisation `TrimIsSlice` proves, for one string. */
  predicate TrimmedSlice(s: string) {
    && LeadingWs(s) + TrailingWs(s) < |s|
    && Trim(s) == s[LeadingWs(s)..|s| - TrailingWs(s)]
  }

  /** `TrimIsSlice` when `s` starts with whitespace. */
  lemma TrimSliceDropFirst(s: string)
    requires s != [] && IsJsWhitespace(s[0]) && !AllWhitespace(s[1..])
    requires TrimmedSlice(s[1..])
    ensures TrimmedSlice(s)
  {
    var t := s[1..];
    var l, n := LeadingWs(t), TrailingWs(t);
    TrailingWsDropFirst(s);
    TrimDropFirst(s);
    TrimSliceOfTail(s, t, l, n);
  }

  /** The last step of `TrimSliceDropFirst`, on named values. */
  lemma TrimSliceOfTail(s: string, t: string, l: nat, n: nat)
    requires s != [] && t == s[1..] && l + n < |t|
    requires Trim(s) == t[l..|t| - n] && LeadingWs(s) == l + 1 && TrailingWs(s) == n
    ensures TrimmedSlice(s)
  {
    SliceOfTail(s, l, n);
  }

  /** A leading whitespace character changes neither `trim` nor, but for one, the count
      of leading whitespace. */
  lemma TrimDropFirst(s: string)
    requires s != [] && IsJsWhitespace(s[0])
    ensures Trim(s) == Trim(s[1..]) && LeadingWs(s) == LeadingWs(s[1..]) + 1
  {
  }

  lemma SliceOfTail(s: string, l: nat, n: nat)
    requires s != [] && l + n < |s| - 1
    ensures s[1..][l..|s| - 1 - n] == s[l + 1..|s| - n]
  {
  }

  /** `TrimIsSlice` when `s` ends with whitespace and does not start with it. */
  lemma TrimSliceDropLast(s: string)
    requires s != [] && !IsJsWhitespace(s[0]) && IsJsWhitespace(s[|s| - 1])
    requires TrimmedSlice(s[..|s| - 1])
    ensures TrimmedSlice(s)
  {
    var p := s[..|s| - 1];
    assert Trim(s) == Trim(p);
    assert p[0] == s[0];
    assert LeadingWs(s) == 0 && LeadingWs(p) == 0;
    assert TrailingWs(s) == TrailingWs(p) + 1;
  }

  /** Dropping a leading whitespace character keeps whether a string is all whitespace. */
  lemma AllWhitespaceDropFirst(s: string)
    requires s != [] && IsJsWhitespace(s[0])
    ensures AllWhitespace(s) <==> AllWhitespace(s[1..])
  {
    assert forall k :: 1 <= k < |s| ==> s[k] == s[1..][k - 1];
  }

  /** `TrimIsSlice` when `s` has whitespace at neither end. */
  lemma TrimSliceWhole(s: string)
    requires s != [] && !IsJsWhitespace(s[0]) && !IsJsWhitespace(s[|s| - 1])
    ensures TrimmedSlice(s)
  {
    assert s[0..|s|] == s;
  }

  /** `trim` removes exactly the whitespace at both ends: unless the input is all
      whitespace, what is left runs from its first non-whitespace character to its last. */
  lemma {:induction false} TrimIsSlice(s: string)
    ensures AllWhitespace(s) ==> Trim(s) == []
    ensures !AllWhitespace(s) ==> TrimmedSlice(s)
    decreases |s|
  {
    if s != [] && !AllWhitespace(s) {
      if IsJsWhitespace(s[0]) {
        AllWhitespaceDropFirst(s);
        TrimIsSlice(s[1..]);
        TrimSliceDropFirst(s);
      } else if IsJsWhitespace(s[|s| - 1]) {
        assert s[..|s| - 1][0] == s[0];
        TrimIsSlice(s[..|s| - 1]);
        TrimSliceDropLast(s);
      } else {
        TrimSliceWhole(s);
      }
    }
  }

  /** An optional string (a form field, a query parameter) that JavaScript finds truthy:
      present and not empty. */
  predicate Truthy(o: Option<string>) {
    o.Some? && o.value != ""
  }

  /** `s.endsWith(suffix)`. */
  predicate EndsWith(s: string, suffix: string) {
    |suffix| <= |s| && s[|s| - |suffix|..] == suffix
  }

  /** `term` occurs in `s` as a contiguous block. */
  predicate Contains(s: string, term: string) {
    exists i :: 0 <= i <= |s| - |term| && OccursAt(s, term, i)
  }

  predicate OccursAt(s: string, term: string, i: int) {
    0 <= i <= |s| - |term| && s[i..i + |term|] == term
  }

  // ---------- case mapping ----------

  /** SQLite's built-in case folding for LIKE: only ASCII letters. */
  function AsciiLowerChar(c: char): char {
    if 'A' <= c <= 'Z' then (c as int + 32) as char else c
  }

  function AsciiLower(s: string): (r: string)
    ensures |r| == |s|
    ensures forall i :: 0 <= i < |s| ==> r[i] == AsciiLowerChar(s[i])
  {
    seq(|s|, i requires 0 <= i < |s| => AsciiLowerChar(s[i]))
  }

  /** `toLowerCase` on ASCII and Latin-1 letters (A-Z, and U+00C0 to U+00DE without the
      multiplication sign); every other character is taken to map to itself. */
  function JsLowerChar(c: char): char {
    if 'A' <= c <= 'Z' || ('\U{C0}' <= c <= '\U{DE}' && c != '\U{D7}')
    then (c as int + 32) as char else c
  }

  function JsToLowerCase(s: string): (r: string)
    ensures |r| == |s|
    ensures forall i :: 0 <= i < |s| ==> r[i] == JsLowerChar(s[i])
  {
    seq(|s|, i requires 0 <= i < |s| => JsLowerChar(s[i]))
  }

  /** `a.toLowerCase() === b.toLowerCase()`. */
  predicate EqualsIgnoringCase(a: string, b: string) {
    JsToLowerCase(a) == JsToLowerCase(b)
  }

  /** `SELECT ... WHERE text LIKE '%term%'`, with SQLite's ASCII case folding. */
  predicate LikeContains(text: Option<string>, term: string) {
    text.Some? && Contains(AsciiLower(text.value), AsciiLower(term))
  }

  /** SQLite's folding changes exactly the upper-case ASCII letters, and leaves none. */
  lemma AsciiLowerChanges(s: string)
    ensures forall i :: 0 <= i < |s| ==> (AsciiLower(s)[i] != s[i] <==> 'A' <= s[i] <= 'Z')
    ensures forall i :: 0 <= i < |s| ==> !('A' <= AsciiLower(s)[i] <= 'Z')
  {
  }

  /** Folding a folded string changes nothing. */
  lemma AsciiLowerIdempotent(s: string)
    ensures AsciiLower(AsciiLower(s)) == AsciiLower(s)
  {
    var r := AsciiLower(s);
    assert forall i :: 0 <= i < |r| ==> AsciiLowerChar(r[i]) == r[i];
  }

  /** `toLowerCase` of a lower-cased string changes nothing. */
  lemma JsToLowerCaseIdempotent(s: string)
    ensures JsToLowerCase(JsToLowerCase(s)) == JsToLowerCase(s)
  {
    var r := JsToLowerCase(s);
    assert forall i :: 0 <= i < |r| ==> JsLowerChar(r[i]) == r[i];
  }

  /** The catalogue search ignores the ASCII case of both the term and the text. */
  lemma LikeIgnoresCase(text: Option<string>, term: string)
    ensures LikeContains(text, term) == LikeContains(text, AsciiLower(term))
    ensures text.Some? ==> LikeContains(text, term) == LikeContains(Some(AsciiLower(text.value)), term)
  {
    AsciiLowerIdempotent(term);
    if text.Some? {
      AsciiLowerIdempotent(text.value);
    }
  }

  /** Comparing ignoring case is an equivalence, with every string equal to its lower
      case, and it only relates strings of the same length. */
  lemma EqualsIgnoringCaseEquivalence(a: string, b: string, c: string)
    ensures EqualsIgnoringCase(a, a)
    ensures EqualsIgnoringCase(a, b) ==> EqualsIgnoringCase(b, a)
    ensures EqualsIgnoringCase(a, b) && EqualsIgnoringCase(b, c) ==> EqualsIgnoringCase(a, c)
    ensures EqualsIgnoringCase(a, JsToLowerCase(a))
    ensures EqualsIgnoringCase(a, b) ==> |a| == |b|
  {
    JsToLowerCaseIdempotent(a);
  }

  // ---------- replace(/c/g, e) ----------

  /** `s.replace(/c/g, e)`: every occurrence of `c` replaced by `e`. */
  function ReplaceAll(s: string, c: char, e: string): (r: string)
  {
    if s == [] then []
    else (if s[0] == c then e else [s[0]]) + ReplaceAll(s[1..], c, e)
  }

  lemma {:induction false} ReplaceAllAppend(a: string, b: string, c: char, e: string)
    ensures ReplaceAll(a + b, c, e) == ReplaceAll(a, c, e) + ReplaceAll(b, c, e)
  {
    if a != [] {
      assert (a + b)[0] == a[0];
      assert (a + b)[1..] == a[1..] + b;
      assert ReplaceAll(a + b, c, e) == (if a[0] == c then e else [a[0]]) + ReplaceAll(a[1..] + b, c, e);
      ReplaceAllAppend(a[1..], b, c, e);
    } else {
      assert a + b == b;
    }
  }

  lemma {:induction false} ReplaceAllAbsent(s: string, c: char, e: string)
    requires c !in s
    ensures ReplaceAll(s, c, e) == s
  {
    if s != [] {
      ReplaceAllAbsent(s[1..], c, e);
    }
  }

  /** After replacing, `c` is gone, provided `e` does not contain it. */
  lemma {:induction false} ReplaceAllRemoves(s: string, c: char, e: string)
    requires c !in e
    ensures c !in ReplaceAll(s, c, e)
  {
    if s != [] {
      ReplaceAllRemoves(s[1..], c, e);
    }
  }

  // ---------- decimal numbers ----------

  predicate IsDigit(c: char) {
    '0' <= c <= '9'
  }

  function DigitValue(c: char): (d: nat)
    requires IsDigit(c)
    ensures d < 10
  {
    c as int - '0' as int
  }

  function DigitChar(d: nat): (c: char)
    requires d < 10
    ensures IsDigit(c) && DigitValue(c) == d
  {
    ('0' as int + d) as char
  }

  /** `String(n)` for a non-negative integer: its decimal digits, no leading zeros. */
  function NatToDecimal(n: nat): (r: string)
    ensures |r| >= 1 && forall i :: 0 <= i < |r| ==> IsDigit(r[i])
    ensures r[0] == '0' ==> n == 0
  {
    if n < 10 then [DigitChar(n)] else NatToDecimal(n / 10) + [DigitChar(n % 10)]
  }

  /** The value of a string of decimal digits. */
  function DigitsValue(ds: string): nat
    requires forall i :: 0 <= i < |ds| ==> IsDigit(ds[i])
  {
    if ds == [] then 0
    else DigitsValue(ds[..|ds| - 1]) * 10 + DigitValue(ds[|ds| - 1])
  }

  lemma {:induction false} DigitsValueOfDecimal(n: nat)
    ensures DigitsValue(NatToDecimal(n)) == n
  {
    if n >= 10 {
      var r := NatToDecimal(n);
      assert r[..|r| - 1] == NatToDecimal(n / 10);
      DigitsValueOfDecimal(n / 10);
    }
  }

  /** The longest prefix of `s` made of decimal digits. */
  function DigitPrefix(s: string): (r: string)
    ensures |r| <= |s| && r == s[..|r|]
    ensures forall i :: 0 <= i < |r| ==> IsDigit(r[i])
    ensures |r| < |s| ==> !IsDigit(s[|r|])
  {
    if s == [] || !IsDigit(s[0]) then [] else [s[0]] + DigitPrefix(s[1..])
  }

  lemma {:induction false} DigitPrefixOfDigits(s: string)
    requires forall i :: 0 <= i < |s| ==> IsDigit(s[i])
    ensures DigitPrefix(s) == s
  {
    if s != [] {
      DigitPrefixOfDigits(s[1..]);
    }
  }

  /** `parseInt(s, 10)`: leading whitespace skipped, an optional sign, then the longest
      run of decimal digits; `None` stands for NaN (no digit at that point). */
  function ParseInt(s: string): (r: Option<int>)
    ensures r.Some? ==> exists k :: 0 <= k < |s| && IsDigit(s[k])
  {
    var t := TrimStart(s);
    var negative := t != [] && t[0] == '-';
    var u := if t != [] && (t[0] == '-' || t[0] == '+') then t[1..] else t;
    var ds := DigitPrefix(u);
    if ds == [] then None
    else
      assert IsDigit(s[|s| - |u|]) by { assert u[0] == s[|s| - |u|] by { assert t == s[LeadingWs(s)..]; } }
      var v: int := DigitsValue(ds);
      Some(if negative then -v else v)
  }

  /** `parseInt(String(n), 10) === n`. */
  lemma ParseIntOfDecimal(n: nat)
    ensures ParseInt(NatToDecimal(n)) == Some(n)
  {
    var s := NatToDecimal(n);
    assert !IsJsWhitespace(s[0]);
    assert TrimStart(s) == s;
    assert s[0] != '-' && s[0] != '+';
    DigitPrefixOfDigits(s);
    DigitsValueOfDecimal(n);
  }
}
