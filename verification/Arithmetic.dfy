/** Facts about products and about division rounded down. */
module Arithmetic {

  function Min(a: int, b: int): int {
    if a <= b then a else b
  }

  function SaturatingSub(a: nat, b: nat): nat {
    if a < b then 0 else a - b
  }

  /** `a * b / d`, rounded down. */
  function MulDiv(a: nat, b: nat, d: nat): nat
    requires d > 0
  {
    var product: nat := a * b;
    product / d
  }

  lemma MulMonotone(a: nat, b: nat, c: nat)
    requires a <= b
    ensures a * c <= b * c
  {
    assert (b - a) * c >= 0;
  }

  lemma DivideAndMultiply(a: nat, d: nat)
    requires d > 0
    ensures a - d < d * (a / d) <= a
  {
    assert a == d * (a / d) + a % d;
  }

  /** A quotient rounded down reaches `q` exactly when the exact quotient does. */
  lemma QuotientAtLeast(a: nat, d: nat, q: nat)
    requires d > 0
    ensures a / d >= q <==> a >= q * d
  {
    var x := a / d;
    DivideAndMultiply(a, d);
    assert d * x == x * d && (x + 1) * d == x * d + d;
    if x >= q {
      MulMonotone(q, x, d);
    } else {
      MulMonotone(x + 1, q, d);
    }
  }

  lemma QuotientMonotone(a: nat, b: nat, d: nat)
    requires a <= b && d > 0
    ensures a / d <= b / d
  {
    QuotientAtLeast(a, d, a / d);
    QuotientAtLeast(b, d, a / d);
  }
}
