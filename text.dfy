/**
 * The two Kotlin string operations the core relies on: `trim()`, which drops
 * leading and trailing characters for which `Char.isWhitespace` holds, and
 * the first element of `split(",")`.
 */
module Text {

  /**
   * Kotlin's `Char.isWhitespace` on the JVM: `Character.isWhitespace` or
   * `Character.isSpaceChar` (the control characters 9..13 and 28..31, and
   * the space, line and paragraph separators, no-break spaces included).
   */
  predicate IsWhitespace(c: char) {
    var k := c as int;
    9 <= k <= 13 || 28 <= k <= 32 || k == 0xA0 || k == 0x1680 || 0x2000 <= k <= 0x200A
    || k == 0x2028 || k == 0x2029 || k == 0x202F || k == 0x205F || k == 0x3000
  }

  /** `isBlank()`: nothing but whitespace (the empty string included). */
  predicate IsBlank(s: string) {
    forall i :: 0 <= i < |s| ==> IsWhitespace(s[i])
  }

  /** Index of the first character that is not whitespace, `|s|` if there is none. */
  function TrimStart(s: string): (i: nat)
    ensures i <= |s|
    ensures forall k :: 0 <= k < i ==> IsWhitespace(s[k])
    ensures i < |s| ==> !IsWhitespace(s[i])
  {
    if s == [] || !IsWhitespace(s[0]) then 0
    else TrimStart(s[1..]) + 1
  }

  /** One past the last character that is not whitespace, 0 if there is none. */
  function TrimEnd(s: string): (j: nat)
    ensures j <= |s|
    ensures forall k :: j <= k < |s| ==> IsWhitespace(s[k])
    ensures j > 0 ==> !IsWhitespace(s[j - 1])
  {
    if s == [] || !IsWhitespace(s[|s| - 1]) then |s|
    else TrimEnd(s[..|s| - 1])
  }

  /**
   * `trim()`: the string less its whitespace prefix and suffix. The result is
   * empty exactly for a blank string; otherwise it starts and ends with a
   * character that is not whitespace, and what was cut off is whitespace.
   */
  function Trim(s: string): (t: string)
    ensures |t| <= |s|
    ensures t == [] <==> IsBlank(s)
    ensures t != [] ==> !IsWhitespace(t[0]) && !IsWhitespace(t[|t| - 1])
    ensures TrimStart(s) + |t| <= |s| && t == s[TrimStart(s)..TrimStart(s) + |t|]
    ensures forall k :: 0 <= k < TrimStart(s) ==> IsWhitespace(s[k])
    ensures forall k :: TrimStart(s) + |t| <= k < |s| ==> IsWhitespace(s[k])
  {
    var i := TrimStart(s);
    if i == |s| then
      []
    else
      var j := TrimEnd(s);
      assert !IsWhitespace(s[i]);
      s[i..j]
  }

  /** Trimming twice is trimming once. */
  lemma TrimIdempotent(s: string)
    ensures Trim(Trim(s)) == Trim(s)
  {
    var t := Trim(s);
    if t != [] {
      assert TrimStart(t) == 0;
      assert TrimEnd(t) == |t| by {
        assert !IsWhitespace(t[|t| - 1]);
      }
      assert t[0..|t|] == t;
    }
  }

  /**
   * The first element of `split(",")`: the longest prefix without a comma.
   * `split` always yields at least one element, so `firstOrNull()` never
   * gives null here.
   */
  function FirstSegment(h: string): (seg: string)
    ensures |seg| <= |h| && seg == h[..|seg|]
    ensures forall i :: 0 <= i < |seg| ==> seg[i] != ','
    ensures |seg| < |h| ==> h[|seg|] == ','
  {
    if h == [] || h[0] == ',' then []
    else [h[0]] + FirstSegment(h[1..])
  }
}
