/**
 The string primitives the clip presentation and the menu filters rely on:
 JavaScript's `String.prototype.trim`, the regular-expression replacement of
 line breaks by spaces, and the case mappings used for case-insensitive
 comparison. Strings are `seq<char>`, one `char` per Unicode scalar value.
 */
module Text {

  function Min(a: int, b: int): int {
    if a <= b then a else b
  }

  /** Line feed or carriage return: the two characters `/\n|\r/g` matches. */
  predicate IsLineBreak(c: char) {
    c == '\n' || c == '\r'
  }

  predicate NoLineBreaks(s: string) {
    forall k :: 0 <= k < |s| ==> !IsLineBreak(s[k])
  }

  /**
   The characters `trim` strips: ECMAScript's WhiteSpace (tab, vertical tab,
   form feed, zero-width no-break space and every space separator) and
   LineTerminator (line feed, carriage return, line and paragraph separator),
   sections 12.2 and 12.3 of ECMA-262.
   */
  predicate IsWhitespace(c: char) {
    || c == '\t' || c == '\U{000B}' || c == '\U{000C}' || c == ' '
    || c == '\U{00A0}' || c == '\U{FEFF}' || c == '\U{1680}'
    || ('\U{2000}' <= c <= '\U{200A}')
    || c == '\U{202F}' || c == '\U{205F}' || c == '\U{3000}'
    || c == '\n' || c == '\r' || c == '\U{2028}' || c == '\U{2029}'
  }

  /** The character `/\n|\r/g` with replacement `' '` leaves in place of `c`. */
  function Flatten(c: char): char {
    if IsLineBreak(c) then ' ' else c
  }

  /**
   Every line feed and every carriage return replaced by one space each, so a
   "\r\n" pair becomes two spaces; nothing else changes.
   */
  function FlattenLines(s: string): (r: string)
    ensures |r| == |s|
    ensures forall k :: 0 <= k < |s| ==> r[k] == Flatten(s[k])
    ensures NoLineBreaks(r)
  {
    if s == [] then [] else [Flatten(s[0])] + FlattenLines(s[1..])
  }

  lemma FlattenLinesKeepsPlainText(s: string)
    requires NoLineBreaks(s)
    ensures FlattenLines(s) == s
  {
    var r := FlattenLines(s);
    assert forall k :: 0 <= k < |s| ==> r[k] == s[k];
  }

  /** Every character of `s` at positions `lo` up to (not including) `hi` is whitespace. */
  predicate BlankBetween(s: string, lo: int, hi: int)
    requires 0 <= lo <= hi <= |s|
  {
    forall k :: lo <= k < hi ==> IsWhitespace(s[k])
  }

  /**
   `s[i..j]` is what trimming `s` yields: only whitespace before `i` and from
   `j` on, and, unless the piece is empty, no whitespace at either end of it.
   */
  predicate TrimBounds(s: string, i: int, j: int) {
    && 0 <= i <= j <= |s|
    && BlankBetween(s, 0, i) && BlankBetween(s, j, |s|)
    && (i < j ==> !IsWhitespace(s[i]) && !IsWhitespace(s[j - 1]))
  }

  ghost predicate IsTrimOf(r: string, s: string) {
    exists i, j :: TrimBounds(s, i, j) && r == s[i..j]
  }

  /** The first position from `from` on that is not whitespace, or `|s|`. */
  function SkipBlanks(s: string, from: nat): (n: nat)
    requires from <= |s|
    ensures from <= n <= |s| && BlankBetween(s, from, n)
    ensures n < |s| ==> !IsWhitespace(s[n])
    decreases |s| - from
  {
    if from < |s| && IsWhitespace(s[from]) then SkipBlanks(s, from + 1) else from
  }

  /**
   Walking back from `hi`, but not below `lo`: the end of the last
   non-whitespace character, or `lo`.
   */
  function BackOverBlanks(s: string, lo: nat, hi: nat): (n: nat)
    requires lo <= hi <= |s|
    ensures lo <= n <= hi && BlankBetween(s, n, hi)
    ensures lo < n ==> !IsWhitespace(s[n - 1])
    decreases hi
  {
    if lo < hi && IsWhitespace(s[hi - 1]) then BackOverBlanks(s, lo, hi - 1) else hi
  }

  /** JavaScript's `trim`: drop the leading whitespace, then the trailing whitespace. */
  function Trim(s: string): (r: string)
    ensures IsTrimOf(r, s)
    ensures |r| <= |s|
    ensures NoLineBreaks(s) ==> NoLineBreaks(r)
  {
    var i := SkipBlanks(s, 0);
    var j := BackOverBlanks(s, i, |s|);
    assert TrimBounds(s, i, j);
    assert forall k :: 0 <= k < j - i ==> s[i..j][k] == s[i + k];
    s[i..j]
  }

  /** Trimming is a function of its input: `IsTrimOf` pins down one string. */
  lemma TrimIsUnique(s: string, r1: string, r2: string)
    requires IsTrimOf(r1, s) && IsTrimOf(r2, s)
    ensures r1 == r2
  {
    var i1, j1 :| TrimBounds(s, i1, j1) && r1 == s[i1..j1];
    var i2, j2 :| TrimBounds(s, i2, j2) && r2 == s[i2..j2];
    if i1 < j1 && i2 < j2 {
      TrimBoundsAgree(s, i1, j1, i2, j2);
      TrimBoundsAgree(s, i2, j2, i1, j1);
    } else if i1 < j1 {
      TrimBoundsAgree(s, i1, j1, i2, j2);
    } else if i2 < j2 {
      TrimBoundsAgree(s, i2, j2, i1, j1);
    }
  }

  /**
   A non-empty trimmed piece starts at the first and ends after the last
   non-whitespace character, so any other trimming bounds lie no wider apart
   and are not empty.
   */
  lemma TrimBoundsAgree(s: string, i1: int, j1: int, i2: int, j2: int)
    requires TrimBounds(s, i1, j1) && TrimBounds(s, i2, j2) && i1 < j1
    ensures i2 < j2 && i2 <= i1 && j1 <= j2
  {
    assert !IsWhitespace(s[i1]) && !IsWhitespace(s[j1 - 1]);
  }

  predicate IsAsciiLower(c: char) {
    'a' <= c <= 'z'
  }

  predicate IsAsciiUpper(c: char) {
    'A' <= c <= 'Z'
  }

  function UpperChar(c: char): char {
    if IsAsciiLower(c) then (c as int - 32) as char else c
  }

  function LowerChar(c: char): char {
    if IsAsciiUpper(c) then (c as int + 32) as char else c
  }

  /**
   `toUpperCase`, restricted to the ASCII letters: no lower-case letter is
   left, and every position is the input's character up to case.
   */
  function ToUpper(s: string): (r: string)
    ensures |r| == |s|
    ensures forall k :: 0 <= k < |r| ==> !IsAsciiLower(r[k])
    ensures forall k :: 0 <= k < |s| ==> LowerChar(r[k]) == LowerChar(s[k])
  {
    seq(|s|, k requires 0 <= k < |s| => UpperChar(s[k]))
  }

  /**
   `toLocaleLowerCase`, restricted to the ASCII letters: no upper-case letter
   is left, and every position is the input's character up to case.
   */
  function ToLower(s: string): (r: string)
    ensures |r| == |s|
    ensures forall k :: 0 <= k < |r| ==> !IsAsciiUpper(r[k])
    ensures forall k :: 0 <= k < |s| ==> UpperChar(r[k]) == UpperChar(s[k])
  {
    seq(|s|, k requires 0 <= k < |s| => LowerChar(s[k]))
  }

  /** `a.toLocaleLowerCase() == b.toLocaleLowerCase()`. */
  predicate SameIgnoringCase(a: string, b: string) {
    ToLower(a) == ToLower(b)
  }

  /**
   Comparing lower-cased copies is comparing letter by letter with case
   ignored: same length, and every position equal up to case.
   */
  lemma SameIgnoringCaseIsPointwise(a: string, b: string)
    ensures SameIgnoringCase(a, b) <==>
      |a| == |b| && forall k :: 0 <= k < |a| ==> LowerChar(a[k]) == LowerChar(b[k])
  {
    if |a| == |b| && forall k :: 0 <= k < |a| ==> LowerChar(a[k]) == LowerChar(b[k]) {
      assert forall k :: 0 <= k < |a| ==> ToLower(a)[k] == ToLower(b)[k];
    }
  }

  /** Upper-casing keeps a string equal to the original up to case. */
  lemma UpperIsSameIgnoringCase(s: string)
    ensures SameIgnoringCase(ToUpper(s), s)
  {
    var u := ToUpper(s);
    assert forall k :: 0 <= k < |s| ==> ToLower(u)[k] == ToLower(s)[k];
  }
}
