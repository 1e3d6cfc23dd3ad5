/**
 * The two string primitives the quote store relies on: `String.prototype.trim`
 * and `toLowerCase`. Trimming follows the ECMAScript definition of white space
 * and line terminators; case mapping is restricted to ASCII letters.
 */
module Text {

  /** The code points `trim` strips: ECMAScript WhiteSpace and LineTerminator. */
  predicate IsSpace(c: char) {
    || c == '\t' || c == '\n' || c == '\U{000B}' || c == '\U{000C}' || c == '\r'
    || c == ' ' || c == '\U{00A0}' || c == '\U{1680}'
    || ('\U{2000}' <= c <= '\U{200A}')
    || c == '\U{2028}' || c == '\U{2029}' || c == '\U{202F}' || c == '\U{205F}'
    || c == '\U{3000}' || c == '\U{FEFF}'
  }

  predicate AllSpace(s: string) {
    forall i :: 0 <= i < |s| ==> IsSpace(s[i])
  }

  /** The first position at or after `i` that does not hold white space (or `|s|`). */
  function SkipSpaceForward(s: string, i: nat): (a: nat)
    requires i <= |s|
    ensures i <= a <= |s|
    ensures forall k :: i <= k < a ==> IsSpace(s[k])
    ensures a == |s| || !IsSpace(s[a])
    decreases |s| - i
  {
    if i < |s| && IsSpace(s[i]) then SkipSpaceForward(s, i + 1) else i
  }

  /** The least `b` in `lo..j` such that `s[b..j]` is all white space. */
  function SkipSpaceBackward(s: string, lo: nat, j: nat): (b: nat)
    requires lo <= j <= |s|
    ensures lo <= b <= j
    ensures forall k :: b <= k < j ==> IsSpace(s[k])
    ensures b == lo || !IsSpace(s[b - 1])
    decreases j
  {
    if lo < j && IsSpace(s[j - 1]) then SkipSpaceBackward(s, lo, j - 1) else j
  }

  /** Where the text `trim` keeps begins. */
  function TrimStart(s: string): nat {
    SkipSpaceForward(s, 0)
  }

  /** Where the text `trim` keeps ends. */
  function TrimEnd(s: string): (b: nat)
    ensures TrimStart(s) <= b <= |s|
  {
    SkipSpaceBackward(s, TrimStart(s), |s|)
  }

  /** `String.prototype.trim`. */
  function Trim(s: string): (r: string)
    ensures |r| <= |s|
    ensures r == [] || (!IsSpace(r[0]) && !IsSpace(r[|r| - 1]))
    ensures r == [] <==> AllSpace(s)
  {
    s[TrimStart(s)..TrimEnd(s)]
  }

  /** `r` occurs in `s` at offset `i` with only white space before and after it. */
  ghost predicate SpaceAround(s: string, r: string, i: int) {
    && 0 <= i <= |s| - |r|
    && r == s[i..i + |r|]
    && (forall k :: 0 <= k < i ==> IsSpace(s[k]))
    && (forall k :: i + |r| <= k < |s| ==> IsSpace(s[k]))
  }

  /**
   * What `trim` keeps is an infix of `s` with only white space around it;
   * since it neither starts nor ends with white space (the contract of
   * `Trim`), it is the longest such infix.
   */
  lemma TrimIsInfix(s: string)
    ensures SpaceAround(s, Trim(s), TrimStart(s))
  {
  }

  /** Text that neither starts nor ends with white space is its own trim. */
  lemma TrimKeepsTrimmed(s: string)
    requires s != [] && !IsSpace(s[0]) && !IsSpace(s[|s| - 1])
    ensures Trim(s) == s
  {
    assert s[0..|s|] == s;
  }

  /**
   * `!s.trim()`: a text field the source treats as missing. `trim` leaves
   * nothing exactly when every character is white space (the contract of `Trim`).
   */
  predicate IsBlank(s: string) {
    AllSpace(s)
  }

  predicate IsUpper(c: char) {
    'A' <= c <= 'Z'
  }

  /** ASCII `toLowerCase` of one character. */
  function LowerChar(c: char): (d: char)
    ensures !IsUpper(d)
    ensures IsUpper(c) ==> d as int == c as int + 32
    ensures !IsUpper(c) ==> d == c
  {
    if IsUpper(c) then (c as int + 32) as char else c
  }

  /** Whether a string holds no upper-case ASCII letter. */
  predicate IsLower(s: string) {
    forall i :: 0 <= i < |s| ==> !IsUpper(s[i])
  }

  /** ASCII `toLowerCase`: the same string with every capital replaced by its small letter. */
  function Lower(s: string): (r: string)
    ensures |r| == |s|
    ensures IsLower(r)
    ensures forall i :: 0 <= i < |s| && !IsUpper(s[i]) ==> r[i] == s[i]
    ensures forall i :: 0 <= i < |s| && IsUpper(s[i]) ==> r[i] as int == s[i] as int + 32
  {
    seq(|s|, i requires 0 <= i < |s| => LowerChar(s[i]))
  }

  /** Text already in lower case is left as it is. */
  lemma LowerKeepsLower(s: string)
    requires IsLower(s)
    ensures Lower(s) == s
  {
  }
}
