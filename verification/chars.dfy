/** Character classes, digit arithmetic and searching shared by the four
    pattern languages. Digits and letters are ASCII; whitespace is a
    fixed subset of the regular-expression class `\s`. */
module Chars {
  import opened Wrappers

  /** `\d` (and `[0-9]`). */
  predicate IsDigit(c: char) {
    '0' <= c <= '9'
  }

  /** A fixed subset of `\s`: space, tab, line feed, carriage return,
      vertical tab, form feed. */
  predicate IsSpace(c: char) {
    c == ' ' || c == '\t' || c == '\n' || c == '\r' || c == '\U{0B}' || c == '\U{0C}'
  }

  /** `[a-zA-Z]`. */
  predicate IsLetter(c: char) {
    'a' <= c <= 'z' || 'A' <= c <= 'Z'
  }

  predicate AllDigits(s: string) {
    forall i :: 0 <= i < |s| ==> IsDigit(s[i])
  }

  /** `s` is exactly `n` decimal digits: the language of `\d{n}`. */
  predicate Digits(s: string, n: nat) {
    |s| == n && AllDigits(s)
  }

  /** Number of decimal digits in `s`. */
  function DigitCount(s: string): (r: nat)
    ensures r <= |s|
  {
    if s == [] then 0 else (if IsDigit(s[0]) then 1 else 0) + DigitCount(s[1..])
  }

  /** Number of occurrences of `c` in `s`. */
  function Count(s: string, c: char): (r: nat)
    ensures r <= |s|
    ensures r == 0 <==> c !in s
  {
    if s == [] then 0 else (if s[0] == c then 1 else 0) + Count(s[1..], c)
  }

  function DigitValue(c: char): (r: nat)
    requires IsDigit(c)
    ensures r <= 9
  {
    (c as int - '0' as int) as nat
  }

  /** The decimal value of a digit string (leading zeros allowed). */
  function Value(s: string): (r: nat)
    requires AllDigits(s)
  {
    if s == [] then 0 else 10 * Value(s[..|s| - 1]) + DigitValue(s[|s| - 1])
  }

  /** Index of the first occurrence of `c` in `s`. */
  function FindFirst(s: string, c: char): (r: Option<nat>)
    ensures r.None? <==> c !in s
    ensures r.Some? ==> r.value < |s| && s[r.value] == c && c !in s[..r.value]
  {
    if s == [] then None
    else if s[0] == c then Some(0)
    else match FindFirst(s[1..], c)
      case None => None
      case Some(i) => Some(i + 1)
  }

  /** Index of the last occurrence of `c` in `s`. */
  function FindLast(s: string, c: char): (r: Option<nat>)
    ensures r.None? <==> c !in s
    ensures r.Some? ==> r.value < |s| && s[r.value] == c && c !in s[r.value + 1..]
  {
    if s == [] then None
    else if s[|s| - 1] == c then Some(|s| - 1)
    else FindLast(s[..|s| - 1], c)
  }

  lemma {:induction false} DigitCountAppend(a: string, b: string)
    ensures DigitCount(a + b) == DigitCount(a) + DigitCount(b)
    decreases |a|
  {
    if a == [] {
      assert a + b == b;
    } else {
      assert (a + b)[1..] == a[1..] + b;
      DigitCountAppend(a[1..], b);
    }
  }

  lemma {:induction false} DigitCountAll(s: string)
    requires AllDigits(s)
    ensures DigitCount(s) == |s|
    decreases |s|
  {
    if s != [] {
      DigitCountAll(s[1..]);
    }
  }

  lemma {:induction false} CountAppend(a: string, b: string, c: char)
    ensures Count(a + b, c) == Count(a, c) + Count(b, c)
    decreases |a|
  {
    if a == [] {
      assert a + b == b;
    } else {
      assert (a + b)[1..] == a[1..] + b;
      CountAppend(a[1..], b, c);
    }
  }

  /** No occurrence of `c` lies before the one FindFirst reports. */
  lemma {:induction false} FindFirstAtMost(s: string, c: char, j: nat)
    requires j < |s| && s[j] == c
    ensures FindFirst(s, c).Some? && FindFirst(s, c).value <= j
    decreases |s|
  {
    if s[0] != c {
      assert s[1..][j - 1] == s[j];
      FindFirstAtMost(s[1..], c, j - 1);
    }
  }

  /** No occurrence of `c` lies after the one FindLast reports. */
  lemma {:induction false} FindLastAtLeast(s: string, c: char, j: nat)
    requires j < |s| && s[j] == c
    ensures FindLast(s, c).Some? && FindLast(s, c).value >= j
    decreases |s|
  {
    if s[|s| - 1] != c {
      assert s[..|s| - 1][j] == s[j];
      FindLastAtLeast(s[..|s| - 1], c, j);
    }
  }
}
