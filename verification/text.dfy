/** Strings and `String.prototype.trim`. A string is a sequence of Unicode
    scalar values; its length is the number of scalar values. */
module Text {

  /** The characters `trim` strips: the ECMAScript WhiteSpace set (tab,
      vertical tab, form feed, zero-width no-break space and every Unicode
      space separator) and the LineTerminator set (LF, CR, U+2028, U+2029). */
  predicate IsWhitespace(c: char) {
    || c == '\t' || c == '\n' || c == '\U{000B}' || c == '\U{000C}' || c == '\r'
    || c == ' ' || c == '\U{00A0}' || c == '\U{1680}'
    || ('\U{2000}' <= c <= '\U{200A}')
    || c == '\U{2028}' || c == '\U{2029}' || c == '\U{202F}' || c == '\U{205F}'
    || c == '\U{3000}' || c == '\U{FEFF}'
  }

  /** True when `s[lo..hi]` consists of whitespace only. */
  predicate WhitespaceBetween(s: string, lo: nat, hi: nat)
    requires lo <= hi <= |s|
  {
    forall k :: lo <= k < hi ==> IsWhitespace(s[k])
  }

  predicate AllWhitespace(s: string) {
    WhitespaceBetween(s, 0, |s|)
  }

  /** True when `s` neither starts nor ends with whitespace. */
  predicate IsTrimmed(s: string) {
    |s| > 0 ==> !IsWhitespace(s[0]) && !IsWhitespace(s[|s| - 1])
  }

  /** The first index at or after `i` that does not hold whitespace, or `|s|`. */
  function SkipLeading(s: string, i: nat): (j: nat)
    requires i <= |s|
    ensures i <= j <= |s|
    ensures WhitespaceBetween(s, i, j)
    ensures j < |s| ==> !IsWhitespace(s[j])
    decreases |s| - i
  {
    if i < |s| && IsWhitespace(s[i]) then SkipLeading(s, i + 1) else i
  }

  /** The end of `s[lo..hi]` once its trailing whitespace is dropped. */
  function SkipTrailing(s: string, lo: nat, hi: nat): (j: nat)
    requires lo <= hi <= |s|
    ensures lo <= j <= hi
    ensures WhitespaceBetween(s, j, hi)
    ensures lo < j ==> !IsWhitespace(s[j - 1])
    decreases hi
  {
    if lo < hi && IsWhitespace(s[hi - 1]) then SkipTrailing(s, lo, hi - 1) else hi
  }

  /** `String.prototype.trim`: the infix of `s` left once all leading and all
      trailing whitespace is dropped. */
  function Trim(s: string): (r: string)
    ensures IsTrimmed(r)
    ensures |r| <= |s|
    ensures exists i, j :: 0 <= i <= j <= |s|
                        && r == s[i..j]
                        && WhitespaceBetween(s, 0, i)
                        && WhitespaceBetween(s, j, |s|)
    ensures r == [] <==> AllWhitespace(s)
  {
    var i := SkipLeading(s, 0);
    var j := SkipTrailing(s, i, |s|);
    assert i == j ==> AllWhitespace(s) by {
      if i == j {
        assert forall k :: 0 <= k < |s| ==> IsWhitespace(s[k]) by {
          assert WhitespaceBetween(s, 0, i) && WhitespaceBetween(s, j, |s|);
        }
      }
    }
    s[i..j]
  }

  /** Trimming a string that has no surrounding whitespace leaves it as is. */
  lemma TrimOfTrimmed(s: string)
    requires IsTrimmed(s)
    ensures Trim(s) == s
  {
  }

  /** Trimming is idempotent. */
  lemma TrimIdempotent(s: string)
    ensures Trim(Trim(s)) == Trim(s)
  {
    TrimOfTrimmed(Trim(s));
  }
}
