/** Strings as the page script sees them: sequences of characters, and the
    `trim` operation of ECMAScript strings, which strips white space and line
    terminators from both ends. */
module Text {

  /** The characters ECMAScript's `String.prototype.trim` removes: the
      WhiteSpace production (tab, vertical tab, form feed, zero-width no-break
      space and every Unicode "Zs" space separator) and the LineTerminator
      production (line feed, carriage return, line and paragraph separator). */
  predicate IsWhitespace(c: char) {
    || c == '\t' || c == '\U{000B}' || c == '\U{000C}' || c == ' '
    || c == '\n' || c == '\r'
    || c == '\U{00A0}' || c == '\U{1680}'
    || ('\U{2000}' <= c <= '\U{200A}')
    || c == '\U{2028}' || c == '\U{2029}'
    || c == '\U{202F}' || c == '\U{205F}' || c == '\U{3000}' || c == '\U{FEFF}'
  }

  /** Every character of `s` is white space (vacuously true of ""). */
  predicate AllWhitespace(s: string) {
    forall i :: 0 <= i < |s| ==> IsWhitespace(s[i])
  }

  /** `s` neither starts nor ends with white space. */
  predicate Trimmed(s: string) {
    s == [] || (!IsWhitespace(s[0]) && !IsWhitespace(s[|s| - 1]))
  }

  /** The length of the leading run of white space. */
  function LeadingSpace(s: string): (n: nat)
    ensures n <= |s|
    ensures forall i :: 0 <= i < n ==> IsWhitespace(s[i])
    ensures n < |s| ==> !IsWhitespace(s[n])
    decreases |s|
  {
    if |s| > 0 && IsWhitespace(s[0]) then 1 + LeadingSpace(s[1..]) else 0
  }

  /** The index where the trailing run of white space begins. */
  function TrailingStart(s: string): (n: nat)
    ensures n <= |s|
    ensures forall i :: n <= i < |s| ==> IsWhitespace(s[i])
    ensures 0 < n ==> !IsWhitespace(s[n - 1])
    decreases |s|
  {
    if |s| > 0 && IsWhitespace(s[|s| - 1]) then TrailingStart(s[..|s| - 1]) else |s|
  }

  /** `s.trim()`: the infix of `s` left after dropping the leading and the
      trailing run of white space. It neither starts nor ends with white
      space, and it is empty exactly when `s` is all white space. */
  function Trim(s: string): (r: string)
    ensures |r| <= |s|
    ensures Trimmed(r)
    ensures r == [] <==> AllWhitespace(s)
  {
    var lo := LeadingSpace(s);
    var hi := TrailingStart(s);
    if hi <= lo then
      assert AllWhitespace(s) by {
        forall i | 0 <= i < |s| ensures IsWhitespace(s[i]) {
          assert i < lo || hi <= i;
        }
      }
      []
    else
      assert !AllWhitespace(s) by { assert !IsWhitespace(s[lo]); }
      s[lo..hi]
  }

  /** Trimming keeps exactly the characters between the leading and the
      trailing run of white space: whatever it drops is white space. */
  lemma TrimIsInfix(s: string)
    ensures var k := LeadingSpace(s);
            && k + |Trim(s)| <= |s| && Trim(s) == s[k..k + |Trim(s)|]
            && forall i :: 0 <= i < |s| && !(k <= i < k + |Trim(s)|) ==> IsWhitespace(s[i])
  {
  }

  /** A string that already has no white space at either end is unchanged
      by trimming. */
  lemma TrimOfTrimmed(s: string)
    requires Trimmed(s)
    ensures Trim(s) == s
  {
    if s != [] {
      assert LeadingSpace(s) == 0;
      assert TrailingStart(s) == |s|;
    }
  }

  /** Trimming twice is trimming once. */
  lemma TrimIdempotent(s: string)
    ensures Trim(Trim(s)) == Trim(s)
  {
    TrimOfTrimmed(Trim(s));
  }
}
