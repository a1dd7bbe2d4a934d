/** Kotlin's 32-bit `Int`: two's-complement wrap-around on `+`, `-` and `*`,
    and division that truncates toward zero. Dafny's `int` is unbounded, so
    every place where the inventory code does `Int` arithmetic goes through
    these functions. */
module KotlinInt {

  const MIN_VALUE: int := -0x8000_0000
  const MAX_VALUE: int := 0x7fff_ffff
  const MODULUS: int := 0x1_0000_0000

  type Int32 = x: int | MIN_VALUE <= x <= MAX_VALUE

  predicate InRange(x: int) {
    MIN_VALUE <= x <= MAX_VALUE
  }

  /** Reduces a mathematical integer to the JVM `Int` it wraps to. */
  function Wrap(x: int): (r: Int32)
    ensures InRange(x) ==> r == x
    ensures (x - r) % MODULUS == 0
  {
    var r := (x - MIN_VALUE) % MODULUS + MIN_VALUE;
    assert x - r == ((x - MIN_VALUE) / MODULUS) * MODULUS;
    r
  }

  function Add(a: Int32, b: Int32): (r: Int32)
    ensures InRange(a + b) ==> r == a + b
    ensures a + b > MAX_VALUE ==> r == a + b - MODULUS
  {
    Wrap(a + b)
  }

  function Sub(a: Int32, b: Int32): (r: Int32)
    ensures InRange(a - b) ==> r == a - b
    ensures a - b > MAX_VALUE ==> r == a - b - MODULUS
    ensures a - b < MIN_VALUE ==> r == a - b + MODULUS
  {
    Wrap(a - b)
  }

  function Mul(a: Int32, b: Int32): (r: Int32)
    ensures InRange(a * b) ==> r == a * b
    ensures (a * b - r) % MODULUS == 0
  {
    Wrap(a * b)
  }

  function Abs(x: int): nat {
    if x < 0 then -x else x
  }

  /** Kotlin's `a / b` on `Int`: the quotient rounded toward zero
      (Dafny's own `/` is Euclidean), with `MIN_VALUE / -1` wrapping. */
  function Div(a: Int32, b: Int32): (r: Int32)
    requires b != 0
    ensures 0 <= a && 0 < b ==> r == a / b
    ensures a < 0 && 0 < b ==> r as int == -((-(a as int)) / (b as int))
  {
    var q := Abs(a) / Abs(b);
    Wrap(if (a < 0) == (b < 0) then q else -q)
  }
}
