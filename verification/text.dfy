/** JavaScript's `String.prototype.trim`, used to validate user-entered
    member names and problem titles. */
module Text {

  /** The characters ECMAScript's `trim` strips: the WhiteSpace production
      (TAB, VT, FF, SPACE, NO-BREAK SPACE, ZERO WIDTH NO-BREAK SPACE and
      every other Unicode "Zs" space separator) and the LineTerminator
      production (LF, CR, LINE SEPARATOR, PARAGRAPH SEPARATOR). */
  predicate IsWhitespace(c: char) {
    var n := c as int;
    n == 0x09 || n == 0x0A || n == 0x0B || n == 0x0C || n == 0x0D
    || n == 0x20 || n == 0xA0 || n == 0x1680
    || (0x2000 <= n <= 0x200A)
    || n == 0x2028 || n == 0x2029 || n == 0x202F || n == 0x205F
    || n == 0x3000 || n == 0xFEFF
  }

  /** True when the string holds nothing but whitespace (or nothing at all). */
  predicate IsBlank(s: string) {
    forall i | 0 <= i < |s| :: IsWhitespace(s[i])
  }

  /** The end of the whitespace run that starts at or before `i`: the
      first position from `i` on that is not whitespace, or `|s|`. */
  function LeadingEnd(s: string, i: nat): (k: nat)
    requires i <= |s| && forall t | 0 <= t < i :: IsWhitespace(s[t])
    ensures i <= k <= |s|
    ensures forall t | 0 <= t < k :: IsWhitespace(s[t])
    ensures k < |s| ==> !IsWhitespace(s[k])
    decreases |s| - i
  {
    if i < |s| && IsWhitespace(s[i]) then LeadingEnd(s, i + 1) else i
  }

  /** The start of the whitespace run that ends at or after `j`: the
      position after the last non-whitespace character before `j`, or 0. */
  function TrailingStart(s: string, j: nat): (k: nat)
    requires j <= |s| && forall t | j <= t < |s| :: IsWhitespace(s[t])
    ensures k <= j
    ensures forall t | k <= t < |s| :: IsWhitespace(s[t])
    ensures k > 0 ==> !IsWhitespace(s[k - 1])
    decreases j
  {
    if j > 0 && IsWhitespace(s[j - 1]) then TrailingStart(s, j - 1) else j
  }

  /** `s` with leading whitespace removed. */
  function TrimStart(s: string): (r: string)
    ensures |r| <= |s| && r == s[|s| - |r|..]
    ensures |r| > 0 ==> !IsWhitespace(r[0])
    ensures r == [] <==> IsBlank(s)
    ensures IsBlank(s[..|s| - |r|])
  {
    var k := LeadingEnd(s, 0);
    assert forall t | 0 <= t < k :: s[..k][t] == s[t];
    s[k..]
  }

  /** `s` with trailing whitespace removed. */
  function TrimEnd(s: string): (r: string)
    ensures |r| <= |s| && r == s[..|r|]
    ensures |r| > 0 ==> !IsWhitespace(r[|r| - 1])
    ensures r == [] <==> IsBlank(s)
    ensures IsBlank(s[|r|..])
  {
    var k := TrailingStart(s, |s|);
    assert forall t | k <= t < |s| :: s[k..][t - k] == s[t];
    s[..k]
  }

  /** `s.trim()`: leading and trailing whitespace removed. */
  function Trim(s: string): string {
    TrimEnd(TrimStart(s))
  }

  /** The trimmed string is a contiguous piece of the input with whitespace
      on both sides of it and no whitespace at its own ends. */
  lemma TrimIsInfix(s: string)
    ensures exists i, j :: (0 <= i <= j <= |s| && Trim(s) == s[i..j]
                            && IsBlank(s[..i]) && IsBlank(s[j..]))
    ensures |Trim(s)| > 0 ==>
      !IsWhitespace(Trim(s)[0]) && !IsWhitespace(Trim(s)[|Trim(s)| - 1])
  {
    var a := TrimStart(s);
    var i := |s| - |a|;
    var r := TrimEnd(a);
    var j := i + |r|;
    assert r == s[i..j];
    assert s[j..] == a[|r|..];
    assert 0 <= i <= j <= |s| && Trim(s) == s[i..j] && IsBlank(s[..i]) && IsBlank(s[j..]);
    if |r| > 0 {
      assert r[0] == a[0];
    }
  }

  /** `trim()` yields the empty string exactly on blank input: the check
      `!name.trim()` rejects precisely the strings made of whitespace. */
  lemma TrimEmptyIff(s: string)
    ensures Trim(s) == [] <==> IsBlank(s)
  {
    var a := TrimStart(s);
    if a == [] {
      assert TrimEnd(a) == [];
    } else {
      assert a[0] == s[|s| - |a|];
      assert !IsBlank(a);
    }
  }
}
