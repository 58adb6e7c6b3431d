/**
 * The few `java.lang.String` and Spring `StringUtils` operations the service
 * relies on, over `seq<char>`.
 *
 * Two notions of "blank" are in play and they differ: `String.trim()` (used by
 * the mappers and by the bean validator's @NotBlank) strips every character at
 * or below U+0020, while `StringUtils.hasText` asks `Character.isWhitespace`,
 * which includes some characters above U+0020 and excludes some below it.
 */
module JavaStrings {

  /** A character `String.trim()` removes from either end. */
  predicate IsTrimmable(c: char) {
    c <= ' '
  }

  /** Every character of `s` would be trimmed away. */
  predicate IsBlank(s: string) {
    forall k :: 0 <= k < |s| ==> IsTrimmable(s[k])
  }

  /** How many characters `trim()` removes from the front. */
  function LeadingCount(s: string): (n: nat)
    ensures n <= |s|
    ensures forall k :: 0 <= k < n ==> IsTrimmable(s[k])
    ensures n < |s| ==> !IsTrimmable(s[n])
  {
    if s == [] || !IsTrimmable(s[0]) then 0 else 1 + LeadingCount(s[1..])
  }

  /** How many characters `trim()` removes from the back. */
  function TrailingCount(s: string): (n: nat)
    ensures n <= |s|
    ensures forall k :: |s| - n <= k < |s| ==> IsTrimmable(s[k])
    ensures n < |s| ==> !IsTrimmable(s[|s| - 1 - n])
  {
    if s == [] || !IsTrimmable(s[|s| - 1]) then 0 else 1 + TrailingCount(s[..|s| - 1])
  }

  /** `String.trim()`. */
  function Trim(s: string): (r: string)
    ensures |r| <= |s|
    ensures r == [] <==> IsBlank(s)
    ensures LeadingCount(s) + |r| <= |s|
    ensures r == s[LeadingCount(s)..LeadingCount(s) + |r|]
    ensures forall k :: LeadingCount(s) + |r| <= k < |s| ==> IsTrimmable(s[k])
    ensures r != [] ==> !IsTrimmable(r[0]) && !IsTrimmable(r[|r| - 1])
  {
    var lead := LeadingCount(s);
    if lead == |s| then []
    else
      var trail := TrailingCount(s);
      s[lead..|s| - trail]
  }

  /** Trimming a trimmed string changes nothing. */
  lemma {:induction false} TrimIdempotent(s: string)
    ensures Trim(Trim(s)) == Trim(s)
  {
    var r := Trim(s);
    if r != [] {
      assert LeadingCount(r) == 0;
      assert TrailingCount(r) == 0;
      assert r[0..|r|] == r;
    }
  }

  /** `Character.isWhitespace`: the Unicode space, line and paragraph
      separators other than the no-break spaces, and nine control characters. */
  predicate IsWhitespace(c: char) {
    var n := c as int;
    (0x09 <= n <= 0x0D) || (0x1C <= n <= 0x20) ||
    n == 0x1680 || (0x2000 <= n <= 0x2006) || (0x2008 <= n <= 0x200A) ||
    n == 0x2028 || n == 0x2029 || n == 0x205F || n == 0x3000
  }

  /** `StringUtils.hasText` on a non-null string. */
  predicate HasText(s: string) {
    exists k :: 0 <= k < |s| && !IsWhitespace(s[k])
  }

  /** `s.startsWith(prefix)`. */
  predicate StartsWith(s: string, prefix: string) {
    |prefix| <= |s| && s[..|prefix|] == prefix
  }

  function LowerChar(c: char): char {
    if 'A' <= c <= 'Z' then (c as int + 32) as char else c
  }

  /** Lower-casing of the ASCII letters (SQL `LOWER`, restricted to ASCII). */
  function ToLowerAscii(s: string): (r: string)
    ensures |r| == |s|
    ensures forall k :: 0 <= k < |s| ==> r[k] == LowerChar(s[k])
  {
    seq(|s|, k requires 0 <= k < |s| => LowerChar(s[k]))
  }

  lemma LowerIdempotent(s: string)
    ensures ToLowerAscii(ToLowerAscii(s)) == ToLowerAscii(s)
  {
  }

  predicate OccursAt(s: string, sub: string, i: nat) {
    i + |sub| <= |s| && s[i..i + |sub|] == sub
  }

  /** SQL `x LIKE CONCAT('%', sub, '%')` with `sub` read literally. */
  predicate Contains(s: string, sub: string) {
    exists i: nat :: i <= |s| && OccursAt(s, sub, i)
  }

  /** The empty keyword occurs in every string. */
  lemma ContainsEmpty(s: string)
    ensures Contains(s, [])
  {
    assert OccursAt(s, [], 0);
  }
}
