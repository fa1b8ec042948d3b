/** Division by a positive number, rounding down. */
module Arithmetic {
  lemma MulOrder(x: int, y: int, b: int)
    requires x <= y && b >= 0
    ensures x * b <= y * b
  {
  }

  lemma DivBounds(a: int, b: int, q: int)
    requires b > 0
    ensures a / b >= q <==> a >= q * b
  {
    var r := a / b;
    assert a == r * b + a % b;
    if r >= q {
      assert r * b >= q * b by { MulOrder(q, r, b); }
    } else {
      assert (r + 1) * b <= q * b by { MulOrder(r + 1, q, b); }
    }
  }

  lemma Remainder(a: int, b: int)
    requires b > 0
    ensures (a / b) * b <= a < (a / b) * b + b
  {
    DivBounds(a, b, a / b);
    DivBounds(a, b, a / b + 1);
    assert (a / b + 1) * b == (a / b) * b + b;
  }

  lemma ShiftedDivision(a: int, q: int, b: int)
    requires b > 0
    ensures (b * q + a) / b == q + a / b
  {
    DivBounds(a, b, a / b);
    DivBounds(a, b, a / b + 1);
    DivBounds(b * q + a, b, q + a / b);
    DivBounds(b * q + a, b, q + a / b + 1);
    assert (q + a / b) * b == q * b + (a / b) * b;
    assert (q + a / b + 1) * b == q * b + (a / b + 1) * b;
  }

  /** Quotient and remainder are unique. */
  lemma DivIs(x: int, b: int, q: int, r: int)
    requires b > 0 && x == q * b + r && 0 <= r < b
    ensures x / b == q && x % b == r
  {
    assert (q + 1) * b == q * b + b;
    DivBounds(x, b, q);
    DivBounds(x, b, q + 1);
  }
}
