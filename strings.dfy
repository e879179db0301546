/** Character classes and the few `str` operations the scanner relies on. */
module Strings {

  /** `sub` occurs in `s` starting at index `i`. */
  predicate OccursAt(s: string, sub: string, i: int) {
    0 <= i && i + |sub| <= |s| && s[i..i + |sub|] == sub
  }

  /** Python's `sub in s` for strings. */
  predicate Contains(s: string, sub: string) {
    exists i | 0 <= i <= |s| :: OccursAt(s, sub, i)
  }

  /** Past a prefix `p`, an occurrence in `p + rest` is an occurrence in `rest`. */
  lemma OccursPastPrefix(p: string, rest: string, sub: string, i: int)
    requires |p| <= i
    ensures OccursAt(p + rest, sub, i) <==> OccursAt(rest, sub, i - |p|)
  {
    if i + |sub| <= |p + rest| {
      assert (p + rest)[i..i + |sub|] == rest[i - |p|..i - |p| + |sub|];
    }
  }

  /** What `rest` contains, `p + rest` contains too. */
  lemma ContainsPastPrefix(p: string, rest: string, sub: string)
    requires Contains(rest, sub)
    ensures Contains(p + rest, sub)
  {
    var j :| 0 <= j <= |rest| && OccursAt(rest, sub, j);
    OccursPastPrefix(p, rest, sub, |p| + j);
  }

  /** A string contains each of its prefixes. */
  lemma ContainsPrefix(sub: string, rest: string)
    ensures Contains(sub + rest, sub)
  {
    assert (sub + rest)[..|sub|] == sub;
    assert OccursAt(sub + rest, sub, 0);
  }

  /** Python's `s.find(c)` for a one-character needle: the first index of `c` in `s`, or -1. */
  function Find(s: string, c: char): (r: int)
    ensures -1 <= r < |s|
    ensures r == -1 <==> c !in s
    ensures r >= 0 ==> s[r] == c && c !in s[..r]
  {
    if s == [] then -1
    else if s[0] == c then 0
    else
      var k := Find(s[1..], c);
      if k == -1 then -1 else k + 1
  }

  /** Python's `str.isspace` on one character: the characters `strip()` removes and `\s` matches. */
  predicate IsSpace(c: char) {
    var n := c as int;
    (0x09 <= n <= 0x0D) || (0x1C <= n <= 0x20) || n == 0x85 || n == 0xA0 || n == 0x1680
    || (0x2000 <= n <= 0x200A) || n == 0x2028 || n == 0x2029 || n == 0x202F || n == 0x205F
    || n == 0x3000
  }

  /** An ASCII decimal digit. */
  predicate IsDigit(c: char) {
    '0' <= c <= '9'
  }

  function DigitValue(c: char): (d: nat)
    requires IsDigit(c)
    ensures d < 10
  {
    c as int - '0' as int
  }

  /** The character of a decimal digit. */
  function DigitChar(d: nat): (c: char)
    requires d < 10
    ensures IsDigit(c) && DigitValue(c) == d
  {
    (d + '0' as int) as char
  }

  /** ASCII lower-casing of one character, leaving every other character alone. */
  function LowerChar(c: char): (r: char)
    ensures 'A' <= c <= 'Z' ==> r as int == c as int + 32
    ensures !('A' <= c <= 'Z') ==> r == c
  {
    if 'A' <= c <= 'Z' then (c as int + 32) as char else c
  }

  /** `s.lower()`, restricted to ASCII letters. */
  function Lower(s: string): (r: string)
    ensures |r| == |s|
    ensures forall i :: 0 <= i < |s| ==> r[i] == LowerChar(s[i])
  {
    seq(|s|, i requires 0 <= i < |s| => LowerChar(s[i]))
  }
}
