/** Integer semantics of the JVM (Kotlin `Int`, `Long`, `Char`), written out
    explicitly because Dafny integers are unbounded and its `/` and `%` are
    Euclidean. */
module Jvm {

  const INT_MIN: int := -0x8000_0000
  const INT_MAX: int := 0x7fff_ffff
  const LONG_MIN: int := -0x8000_0000_0000_0000
  const LONG_MAX: int := 0x7fff_ffff_ffff_ffff

  predicate IsInt(x: int) { INT_MIN <= x <= INT_MAX }
  predicate IsLong(x: int) { LONG_MIN <= x <= LONG_MAX }

  /** Kotlin/Java integer division: truncates toward zero. */
  function Quot(a: int, b: int): (q: int)
    requires b > 0
    ensures a >= 0 ==> q == a / b
    ensures a < 0 ==> q == -((-a) / b)
  {
    if a >= 0 then a / b else -((-a) / b)
  }

  /** Kotlin/Java remainder: the sign follows the dividend. */
  function Rem(a: int, b: int): (r: int)
    requires b > 0
    ensures a >= 0 ==> r == a % b
    ensures a < 0 ==> r == -((-a) % b)
    ensures -b < r < b
  {
    a - Quot(a, b) * b
  }

  function Abs(x: int): nat { if x < 0 then -x else x }

  /** The value of an `Int` expression after 32-bit two's-complement wrap-around. */
  function WrapInt(x: int): (r: int)
    ensures IsInt(r)
    ensures IsInt(x) ==> r == x
    ensures (r - x) % 0x1_0000_0000 == 0
  {
    var m := (x - INT_MIN) % 0x1_0000_0000;
    m + INT_MIN
  }

  /** A UTF-16 code unit, the JVM `Char`. */
  newtype CodeUnit = x: int | 0 <= x < 0x1_0000

  /** `c + n` and `c - n` on a Kotlin `Char`: the code is taken modulo 2^16. */
  function ShiftChar(c: CodeUnit, n: int): (r: CodeUnit)
    ensures (r as int - c as int - n) % 0x1_0000 == 0
  {
    ((c as int + n) % 0x1_0000) as CodeUnit
  }
}
