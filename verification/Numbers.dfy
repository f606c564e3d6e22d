/** Small numeric vocabulary shared by the models.

    Floating-point values of the program are mathematical reals here; a value that may be
    NaN is an `Option`, with None for NaN.
 */
module Numbers {

  datatype Option<+T> = None | Some(value: T)

  type Byte = b: int | 0 <= b < 256

  function Abs(x: real): real {
    if x < 0.0 then -x else x
  }

  function Min(x: real, y: real): real {
    if x <= y then x else y
  }

  function Max(x: real, y: real): real {
    if x <= y then y else x
  }

  /** std::clamp, and Python's max(low, min(high, x)): the two agree when low <= high. */
  function Clamp(x: real, low: real, high: real): real {
    if x < low then low else if high < x then high else x
  }

  /** Integer division that truncates toward zero, as C++ does. */
  function Quotient(a: int, b: int): int
    requires b > 0
  {
    if a >= 0 then a / b else -((-a) / b)
  }

  // Products --------------------------------------------------------------------------
  // A named product, so that proofs can use its laws without nonlinear arithmetic.

  function Times(x: real, y: real): real {
    x * y
  }

  lemma TimesDistributes(x: real, a: real, b: real)
    ensures Times(x, a + b) == Times(x, a) + Times(x, b)
    ensures Times(a + b, x) == Times(a, x) + Times(b, x)
    ensures Times(a - b, x) == Times(a, x) - Times(b, x)
  {
  }

  lemma TimesSign(x: real, y: real)
    ensures Times(-x, y) == -Times(x, y) && Times(0.0, y) == 0.0 && Times(x, 0.0) == 0.0
    ensures x >= 0.0 && y >= 0.0 ==> Times(x, y) >= 0.0
    ensures y >= 0.0 ==> Abs(Times(x, y)) == Times(Abs(x), y)
  {
  }

  lemma TimesMonotone(x: real, y: real, a: real, b: real)
    requires x >= y >= 0.0 && a >= b >= 0.0
    ensures Times(x, a) >= Times(y, b) >= 0.0
  {
    assert x * a >= y * a >= y * b;
  }
}
