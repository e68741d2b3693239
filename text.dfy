/**
 * JavaScript's `String.prototype.trim` (ECMA-262, section 22.1.3.32): it
 * removes every leading and trailing code point that is a WhiteSpace or a
 * LineTerminator in the sense of ECMA-262 sections 12.2 and 12.3.
 */
module Text {

  /** WhiteSpace (TAB, VT, FF, ZWNBSP and the Unicode category Zs) or LineTerminator (LF, CR, LS, PS). */
  predicate IsWhitespace(c: char) {
    var n := c as int;
    n == 0x09 || n == 0x0B || n == 0x0C || n == 0xFEFF          // TAB, VT, FF, ZWNBSP
    || n == 0x20 || n == 0xA0 || n == 0x1680                     // Zs
    || (0x2000 <= n <= 0x200A) || n == 0x202F || n == 0x205F || n == 0x3000
    || n == 0x0A || n == 0x0D || n == 0x2028 || n == 0x2029      // LineTerminator
  }

  predicate AllWhitespace(s: string) {
    forall i :: 0 <= i < |s| ==> IsWhitespace(s[i])
  }

  /** Neither end of `s` is white space: trimming it again removes nothing. */
  predicate IsTrimmed(s: string) {
    s == [] || (!IsWhitespace(s[0]) && !IsWhitespace(s[|s| - 1]))
  }

  /** What a store accepts as a user name or a task text. */
  predicate IsCleanText(s: string) {
    s != [] && IsTrimmed(s)
  }

  /** The end of the run of white space in `s` that starts at `i`. */
  function SkipLeading(s: string, i: nat): (k: nat)
    requires i <= |s|
    ensures i <= k <= |s|
    ensures forall j :: i <= j < k ==> IsWhitespace(s[j])
    ensures k < |s| ==> !IsWhitespace(s[k])
    decreases |s| - i
  {
    if i < |s| && IsWhitespace(s[i]) then SkipLeading(s, i + 1) else i
  }

  /** The start of the run of white space in `s[lo..j]` that ends at `j`. */
  function SkipTrailing(s: string, lo: nat, j: nat): (k: nat)
    requires lo <= j <= |s|
    ensures lo <= k <= j
    ensures forall m :: k <= m < j ==> IsWhitespace(s[m])
    ensures lo < k ==> !IsWhitespace(s[k - 1])
    decreases j - lo
  {
    if lo < j && IsWhitespace(s[j - 1]) then SkipTrailing(s, lo, j - 1) else j
  }

  /** `s.trim()`: the result has white space at neither end, and it is empty exactly when `s` is all white space. */
  function Trim(s: string): (r: string)
    ensures |r| <= |s|
    ensures IsTrimmed(r)
    ensures r == [] <==> AllWhitespace(s)
  {
    var a := SkipLeading(s, 0);
    var b := SkipTrailing(s, a, |s|);
    s[a..b]
  }

  /**
   * The trimmed string is the slice of `s` starting at `k`, and what lies
   * before and after that slice is white space only.
   */
  lemma TrimIsSlice(s: string) returns (k: nat)
    ensures k + |Trim(s)| <= |s|
    ensures Trim(s) == s[k..k + |Trim(s)|]
    ensures AllWhitespace(s[..k]) && AllWhitespace(s[k + |Trim(s)|..])
  {
    k := SkipLeading(s, 0);
    var b := SkipTrailing(s, k, |s|);
    assert |Trim(s)| == b - k;
    assert forall m :: 0 <= m < |s[b..]| ==> s[b..][m] == s[b + m];
  }

  /** A string that is already trimmed is left as it is: `s.trim().trim() == s.trim()`. */
  lemma TrimOfTrimmed(s: string)
    requires IsTrimmed(s)
    ensures Trim(s) == s
  {
    if s != [] {
      assert SkipLeading(s, 0) == 0;
      assert SkipTrailing(s, 0, |s|) == |s|;
    }
    assert s[0..|s|] == s;
  }

  lemma TrimIdempotent(s: string)
    ensures Trim(Trim(s)) == Trim(s)
  {
    TrimOfTrimmed(Trim(s));
  }
}
