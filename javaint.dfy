/** Java's 32-bit `int`: two's-complement wrap-around for `+`, `-`, `*` and
    unary minus, and division and remainder that truncate toward zero. */
module JavaInt {

  const MIN: int := -0x8000_0000
  const MAX: int := 0x7fff_ffff

  predicate InRange(x: int) {
    MIN <= x <= MAX
  }

  /** The 32-bit value that a mathematical integer wraps to. */
  function Wrap(x: int): (r: int)
    ensures InRange(r)
    ensures (r - x) % 0x1_0000_0000 == 0
    ensures InRange(x) ==> r == x
  {
    (x - MIN) % 0x1_0000_0000 + MIN
  }

  function Neg(x: int): int {
    Wrap(-x)
  }

  function Add(x: int, y: int): int {
    Wrap(x + y)
  }

  function Sub(x: int, y: int): int {
    Wrap(x - y)
  }

  function Mul(x: int, y: int): int {
    Wrap(x * y)
  }

  /** Java `x / y` for y != 0: the quotient rounded toward zero, wrapped
      (only MIN / -1 leaves the range). */
  function Div(x: int, y: int): (r: int)
    requires y != 0
    ensures InRange(x) && InRange(y) && !(x == MIN && y == -1) ==> r == Quotient(x, y)
  {
    if InRange(x) && InRange(y) && !(x == MIN && y == -1) then
      DivBounded(x, y);
      Wrap(Quotient(x, y))
    else
      Wrap(Quotient(x, y))
  }

  /** Java `x % y` for y != 0: the remainder takes the sign of x. */
  function Rem(x: int, y: int): int
    requires y != 0
  {
    x - Quotient(x, y) * y
  }

  function Abs(x: int): int {
    if x < 0 then -x else x
  }

  /** The quotient rounded toward zero, before wrapping. */
  function Quotient(x: int, y: int): int
    requires y != 0
  {
    if (x < 0) == (y < 0) then Abs(x) / Abs(y) else -(Abs(x) / Abs(y))
  }

  lemma DivBounded(x: int, y: int)
    requires y != 0 && InRange(x) && InRange(y) && !(x == MIN && y == -1)
    ensures InRange(Quotient(x, y))
  {
    var a, b := Abs(x), Abs(y);
    DivAtMost(a, b);
    if b == 1 {
      assert a / b == a;
    } else if a >= 1 {
      DivBelow(a, b);
    }
  }

  lemma DivAtMost(a: int, b: int)
    requires a >= 0 && b >= 1
    ensures 0 <= a / b <= a
  {
    var q := a / b;
    assert a == q * b + a % b;
    if q > a {
      MulMonotone(q, b);
    }
  }

  lemma DivBelow(a: int, b: int)
    requires a >= 1 && b >= 2
    ensures a / b < a
  {
    var q := a / b;
    assert a == q * b + a % b;
    DivAtMost(a, b);
    MulMonotone(q, b - 1);
    assert q * b == q * (b - 1) + q;
  }

  lemma MulMonotone(q: int, b: int)
    requires q >= 0 && b >= 1
    ensures q * b >= q
  {
  }

  /** Negating a literal that is not MIN gives its mathematical negation. */
  lemma NegExact(x: int)
    requires InRange(x) && x != MIN
    ensures Neg(x) == -x
  {
  }

  /** Negation wraps exactly once: -MIN is MIN. */
  lemma NegMin()
    ensures Neg(MIN) == MIN
  {
  }

  /** The truncated quotient and remainder recombine to x, and the remainder
      is smaller than the divisor and has the sign of x. */
  lemma RemProperties(x: int, y: int)
    requires y != 0
    ensures Quotient(x, y) * y + Rem(x, y) == x
    ensures x >= 0 ==> 0 <= Rem(x, y) < Abs(y)
    ensures x < 0 ==> -Abs(y) < Rem(x, y) <= 0
  {
    var q := Abs(x) / Abs(y);
    assert q * Abs(y) <= Abs(x) < q * Abs(y) + Abs(y);
  }

  /** Java's `7 / -2 == -3` and `-7 % 2 == -1`, where Euclidean division
      would give -3 and 1. */
  lemma TruncationExamples()
    ensures Div(7, -2) == -3 && Rem(7, -2) == 1
    ensures Div(-7, 2) == -3 && Rem(-7, 2) == -1
    ensures Div(-7, -2) == 3 && Rem(-7, -2) == -1
  {
  }
}
