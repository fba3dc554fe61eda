/**
 * The parts of Java's runtime semantics that the other modules rely on:
 * nullable references, the wrap-around of `long` and `int` arithmetic and
 * the narrowing cast `(int)`, and the string operations `startsWith`,
 * `substring` and `toLowerCase`.
 */
module JavaLang {

  /** A Java reference that may be null. */
  datatype Option<+T> = None | Some(value: T)

  const LONG_MIN: int := -0x8000_0000_0000_0000
  const LONG_MAX: int := 0x7FFF_FFFF_FFFF_FFFF
  const INT_MIN: int := -0x8000_0000
  const INT_MAX: int := 0x7FFF_FFFF

  /** The values of Java's `long`. */
  type Long = x: int | LONG_MIN <= x <= LONG_MAX

  /** The values of Java's `int`. */
  type Int = x: int | INT_MIN <= x <= INT_MAX

  /**
   * The `long` that Java's two's-complement arithmetic yields for the
   * mathematical value `x`: the unique `long` congruent to `x` modulo 2^64.
   */
  function WrapLong(x: int): (r: Long)
    ensures (x - r) % 0x1_0000_0000_0000_0000 == 0
    ensures LONG_MIN <= x <= LONG_MAX ==> r == x
  {
    var m := x % 0x1_0000_0000_0000_0000;
    if m > LONG_MAX then m - 0x1_0000_0000_0000_0000 else m
  }

  /** Java's narrowing cast `(int) x` of a `long`: the low 32 bits, read as signed. */
  function ToInt(x: Long): (r: Int)
    ensures (x - r) % 0x1_0000_0000 == 0
    ensures INT_MIN <= x <= INT_MAX ==> r == x
  {
    var m := x % 0x1_0000_0000;
    if m > INT_MAX then m - 0x1_0000_0000 else m
  }

  /** `s.startsWith(prefix)`. */
  predicate StartsWith(s: string, prefix: string) {
    prefix <= s
  }

  /** `toLowerCase()` on one character; only ASCII letters change. */
  function LowerChar(c: char): (r: char)
    ensures 'A' <= c <= 'Z' ==> 'a' <= r <= 'z' && r as int - c as int == 32
    ensures !('A' <= c <= 'Z') ==> r == c
  {
    if 'A' <= c <= 'Z' then (c as int + 32) as char else c
  }

  /** `s.toLowerCase()`, restricted to ASCII letters (see README, "Left out"). */
  function LowerCase(s: string): (r: string)
    ensures |r| == |s|
    ensures forall i :: 0 <= i < |s| ==> r[i] == LowerChar(s[i])
  {
    seq(|s|, i requires 0 <= i < |s| => LowerChar(s[i]))
  }

  /** Lower-casing twice is lower-casing once, so a lower-cased key matches itself. */
  lemma LowerCaseIdempotent(s: string)
    ensures LowerCase(LowerCase(s)) == LowerCase(s)
  {
    var once := LowerCase(s);
    forall i | 0 <= i < |s|
      ensures LowerCase(once)[i] == once[i]
    {
      assert !('A' <= once[i] <= 'Z');
    }
  }
}
