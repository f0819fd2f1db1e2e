/**
  Character-level predicates used by the row classifier: the CJK test of
  `is_chinese` and Python's `str.strip()` with no arguments.

  Python strings are sequences of Unicode code points; Dafny's `char` ranges
  over Unicode scalar values, which are the code points other than the
  surrogates U+D800..U+DFFF. A Python `str` without lone surrogates is
  modelled as a Dafny `string` character for character; one with them has no
  counterpart here.
 */
module Text {

  /** A code point of the CJK Unified Ideographs block, U+4E00..U+9FFF inclusive
      (the character class `[一-鿿]`). */
  predicate IsCjkIdeograph(c: char) {
    '\U{4E00}' <= c <= '\U{9FFF}'
  }

  /** `is_chinese`: `re.search` scans the text for one character of the class.
      The text is Chinese exactly when some character lies in the block; in
      particular the empty text is never Chinese. */
  function IsChinese(s: string): (b: bool)
    ensures b <==> exists i :: 0 <= i < |s| && IsCjkIdeograph(s[i])
    ensures s == [] ==> !b
  {
    if s == [] then false
    else if IsCjkIdeograph(s[0]) then true
    else
      var rest := IsChinese(s[1..]);
      assert forall i :: 1 <= i < |s| ==> s[i] == s[1..][i - 1];
      rest
  }

  /** A code point for which CPython's `str.isspace()` holds: the characters
      `str.strip()` removes when called without arguments. */
  predicate IsSpace(c: char) {
    || c == ' '
    || ('\t' <= c <= '\r')                   // \t \n \v \f \r
    || ('\U{1C}' <= c <= '\U{1F}')           // file, group, record and unit separators
    || c == '\U{85}' || c == '\U{A0}' || c == '\U{1680}'
    || ('\U{2000}' <= c <= '\U{200A}')
    || c == '\U{2028}' || c == '\U{2029}' || c == '\U{202F}' || c == '\U{205F}'
    || c == '\U{3000}'
  }

  /** Every character of `s` is whitespace (vacuously so for the empty text). */
  predicate AllSpace(s: string) {
    forall i :: 0 <= i < |s| ==> IsSpace(s[i])
  }

  /** The left scan of CPython's `strip()`: starting at `i`, skip whitespace.
      The result is the first position at or after `i` that holds a
      non-whitespace character, or `|s|` if there is none. */
  function SkipLeft(s: string, i: nat): (a: nat)
    requires i <= |s|
    ensures i <= a <= |s|
    ensures forall k :: i <= k < a ==> IsSpace(s[k])
    ensures a < |s| ==> !IsSpace(s[a])
    decreases |s| - i
  {
    if i < |s| && IsSpace(s[i]) then SkipLeft(s, i + 1) else i
  }

  /** The right scan of CPython's `strip()`: moving the end `j` down, never
      below `lo`, skip whitespace. The result is the end of the last
      non-whitespace character in `s[lo..j]`, or `lo` if there is none. */
  function SkipRight(s: string, lo: nat, j: nat): (b: nat)
    requires lo <= j <= |s|
    ensures lo <= b <= j
    ensures forall k :: b <= k < j ==> IsSpace(s[k])
    ensures b > lo ==> !IsSpace(s[b - 1])
    decreases j
  {
    if j > lo && IsSpace(s[j - 1]) then SkipRight(s, lo, j - 1) else j
  }

  /** `s.strip()`: `s` with leading and trailing whitespace removed. The
      result is empty exactly when `s` is all whitespace (so "non-empty after
      strip" means "has a non-whitespace character"), and otherwise it starts
      and ends with a non-whitespace character. */
  function Strip(s: string): (r: string)
    ensures r == [] <==> AllSpace(s)
    ensures r != [] ==> !IsSpace(r[0]) && !IsSpace(r[|r| - 1])
  {
    var a := SkipLeft(s, 0);
    var b := SkipRight(s, a, |s|);
    assert b == a ==> AllSpace(s) by {
      if b == a {
        assert forall k :: 0 <= k < |s| ==> (k < a || a <= k) && IsSpace(s[k]);
      }
    }
    s[a..b]
  }

  /** What `strip()` keeps is one contiguous piece `s[i..i + |Strip(s)|]`, and
      what it cuts away on either side is whitespace. */
  lemma StripTrims(s: string) returns (i: nat)
    ensures i + |Strip(s)| <= |s|
    ensures Strip(s) == s[i..i + |Strip(s)|]
    ensures AllSpace(s[..i]) && AllSpace(s[i + |Strip(s)|..])
  {
    i := SkipLeft(s, 0);
    var b := SkipRight(s, i, |s|);
    assert Strip(s) == s[i..b];
    forall p | 0 <= p < |s| - b
      ensures IsSpace(s[b..][p])
    {
      assert s[b..][p] == s[b + p];
    }
  }
}
