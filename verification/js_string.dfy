/** The part of ECMAScript's `String.prototype.trim` that the card relies
    on: strip white space and line terminators from both ends. */
module JsString {

  /** The WhiteSpace and LineTerminator code points of ECMAScript
      (sections 12.2 and 12.3 of ECMA-262): TAB, VT, FF, ZWNBSP, the
      Unicode space separators (category Zs), LF, CR, LS and PS. */
  predicate IsWhitespace(c: char) {
    c == '\t' || c == '\n' || c == '\U{000B}' || c == '\U{000C}' || c == '\r' ||
    c == ' ' || c == '\U{00A0}' || c == '\U{1680}' ||
    ('\U{2000}' <= c <= '\U{200A}') ||
    c == '\U{2028}' || c == '\U{2029}' || c == '\U{202F}' || c == '\U{205F}' ||
    c == '\U{3000}' || c == '\U{FEFF}'
  }

  predicate AllWhitespace(s: string) {
    forall i :: 0 <= i < |s| ==> IsWhitespace(s[i])
  }

  /** The index of the first character at or after `i` that is not white
      space, or `|s|` when there is none. */
  function SkipForward(s: string, i: nat): (k: nat)
    requires i <= |s|
    ensures i <= k <= |s| && (k == |s| || !IsWhitespace(s[k]))
    ensures forall m :: i <= m < k ==> IsWhitespace(s[m])
    decreases |s| - i
  {
    if i == |s| || !IsWhitespace(s[i]) then i else SkipForward(s, i + 1)
  }

  /** The end of the non-white part of `s[lo..j]`: the least `k >= lo` such
      that `s[k..j]` is all white space. */
  function SkipBackward(s: string, lo: nat, j: nat): (k: nat)
    requires lo <= j <= |s|
    ensures lo <= k <= j && (k == lo || !IsWhitespace(s[k - 1]))
    ensures forall m :: k <= m < j ==> IsWhitespace(s[m])
    decreases j
  {
    if j == lo || !IsWhitespace(s[j - 1]) then j else SkipBackward(s, lo, j - 1)
  }

  /** Neither end of `s` is white space. */
  predicate Trimmed(s: string) {
    s == [] || (!IsWhitespace(s[0]) && !IsWhitespace(s[|s| - 1]))
  }

  /** `s.trim()`: the slice of `s` from its first to its last character
      that is not white space. */
  function Trim(s: string): (r: string)
    ensures |r| <= |s| && Trimmed(r)
  {
    var lo := SkipForward(s, 0);
    var hi := SkipBackward(s, lo, |s|);
    assert hi > lo ==> !IsWhitespace(s[lo]);
    s[lo..hi]
  }

  /** The trimmed string is a contiguous slice of `s`, and everything cut
      off on either side of it is white space. */
  lemma TrimIsSlice(s: string)
    ensures exists a, b ::
      0 <= a <= b <= |s| && Trim(s) == s[a..b] && AllWhitespace(s[..a]) && AllWhitespace(s[b..])
  {
    var lo := SkipForward(s, 0);
    var hi := SkipBackward(s, lo, |s|);
    assert Trim(s) == s[lo..hi];
    assert AllWhitespace(s[..lo]) && AllWhitespace(s[hi..]);
  }

  /** The slice `TrimIsSlice` describes is the only one of its kind: any
      non-empty slice of `s` that starts and ends with a character that is
      not white space, with nothing but white space outside it, is the
      trimmed string. */
  lemma TrimUnique(s: string, a: nat, b: nat)
    requires a < b <= |s| && Trimmed(s[a..b])
    requires forall i :: 0 <= i < a ==> IsWhitespace(s[i])
    requires forall i :: b <= i < |s| ==> IsWhitespace(s[i])
    ensures Trim(s) == s[a..b]
  {
    var lo := SkipForward(s, 0);
    assert s[a] == s[a..b][0];
    assert lo == a;
    var hi := SkipBackward(s, lo, |s|);
    assert s[b - 1] == s[a..b][b - a - 1];
    assert hi == b;
  }

  /** Trimming yields the empty string exactly when the input is blank
      (empty or white space only). */
  lemma TrimEmptyIffBlank(s: string)
    ensures Trim(s) == [] <==> AllWhitespace(s)
  {
    var r := Trim(s);
    var lo := SkipForward(s, 0);
    var hi := SkipBackward(s, lo, |s|);
    assert r == s[lo..hi];
    if r == [] {
      assert AllWhitespace(s);
    } else {
      assert s[lo] == r[0] && !IsWhitespace(r[0]);
    }
  }
}
