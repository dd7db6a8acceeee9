/** Decimal text of JVM integers: `Int.toString()`/`Long.toString()` and
    `String.toInt()`/`toIntOrNull()`/`toLongOrNull()`, restricted to ASCII digits. */
module Decimal {
  import opened Wrappers
  import Jvm

  predicate IsDigit(c: char) { '0' <= c <= '9' }

  predicate AllDigits(s: string) { forall i :: 0 <= i < |s| ==> IsDigit(s[i]) }

  function DigitValue(c: char): nat
    requires IsDigit(c)
  {
    c as int - '0' as int
  }

  function DigitChar(d: nat): (c: char)
    requires d < 10
    ensures IsDigit(c) && DigitValue(c) == d
  {
    ('0' as int + d) as char
  }

  /** The value of a run of digits, most significant first. */
  function DigitsValue(s: string): nat
    requires AllDigits(s)
  {
    if |s| == 0 then 0 else DigitsValue(s[..|s| - 1]) * 10 + DigitValue(s[|s| - 1])
  }

  /** Canonical decimal text of a natural number: no sign, no leading zero. */
  function NatToString(n: nat): (s: string)
    ensures 1 <= |s| && AllDigits(s)
    ensures DigitsValue(s) == n
    ensures |s| > 1 ==> s[0] != '0'
  {
    if n < 10 then [DigitChar(n)]
    else
      var prefix := NatToString(n / 10);
      var s := prefix + [DigitChar(n % 10)];
      assert s[..|s| - 1] == prefix;
      s
  }

  /** Kotlin's `Int.toString()` / `Long.toString()`. */
  function IntToString(i: int): (s: string)
    ensures 1 <= |s|
    ensures i >= 0 ==> s == NatToString(i)
    ensures i < 0 ==> s[0] == '-' && s[1..] == NatToString(-i)
  {
    if i < 0 then "-" + NatToString(-i) else NatToString(i)
  }

  /** Kotlin's `String.toIntOrNull()` (bounds of `Int`) and `toLongOrNull()`
      (bounds of `Long`): an optional `+` or `-`, then at least one digit, and
      the value must lie in [lo, hi]; anything else is `null`.  `toInt()` throws
      exactly where this is `None`. */
  function ParseInt(s: string, lo: int, hi: int): (r: Option<int>)
    ensures r.Some? ==> lo <= r.value <= hi
    ensures |s| == 0 ==> r.None?
    ensures r.Some? ==> AllDigits(Unsigned(s)) && |Unsigned(s)| >= 1
  {
    var body := Unsigned(s);
    if |s| == 0 || |body| == 0 || !AllDigits(body) then None
    else
      var v: int := if s[0] == '-' then 0 - DigitsValue(body) as int else DigitsValue(body) as int;
      if lo <= v <= hi then Some(v) else None
  }

  /** The text after an optional leading sign. */
  function Unsigned(s: string): string
  {
    if |s| > 0 && (s[0] == '-' || s[0] == '+') then s[1..] else s
  }

  function ToIntOrNull(s: string): Option<int> { ParseInt(s, Jvm.INT_MIN, Jvm.INT_MAX) }

  function ToLongOrNull(s: string): Option<int> { ParseInt(s, Jvm.LONG_MIN, Jvm.LONG_MAX) }

  /** Printing then parsing gives the number back, for every number in range. */
  lemma ParsePrinted(i: int, lo: int, hi: int)
    requires lo <= i <= hi
    ensures ParseInt(IntToString(i), lo, hi) == Some(i)
  {
    var s := IntToString(i);
    if i < 0 {
      assert Unsigned(s) == NatToString(-i);
    } else {
      assert Unsigned(s) == s;
    }
  }

  /** A string holding a character that is neither a digit nor a leading sign
      does not parse. */
  lemma ParseRejectsNonDigit(s: string, k: int, lo: int, hi: int)
    requires 0 <= k < |s| && !IsDigit(s[k])
    requires k > 0 || (s[0] != '-' && s[0] != '+')
    ensures ParseInt(s, lo, hi) == None
  {
    var body := Unsigned(s);
    if |body| > 0 && body != s {
      assert body[k - 1] == s[k];
    } else if body == s {
      assert body[k] == s[k];
    }
  }

  /** Two different numbers never print the same. */
  lemma PrintInjective(i: int, j: int)
    requires IntToString(i) == IntToString(j)
    ensures i == j
  {
    ParsePrinted(i, i, i);
    ParsePrinted(j, j, j);
    assert ParseInt(IntToString(i), i, i) == Some(i);
    assert ParseInt(IntToString(i), j, j) == Some(j) by { ParsePrinted(j, j, j); }
  }

  /** A printed number holds only digits and a leading minus sign, so it
      never contains any other character. */
  lemma PrintedAvoids(i: int, d: char)
    requires !IsDigit(d) && d != '-'
    ensures forall k :: 0 <= k < |IntToString(i)| ==> IntToString(i)[k] != d
  {
    var s := IntToString(i);
    if i < 0 {
      assert forall k :: 1 <= k < |s| ==> s[k] == s[1..][k - 1];
    }
  }
}
