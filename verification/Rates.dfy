/** Facts about quotients whose divisor is not a constant. */
module Rates {
  lemma {:induction false} ProductMonotone(x: int, y: int, b: nat)
    requires x <= y
    ensures x * b <= y * b
  {
    if b == 0 {
    } else {
      ProductMonotone(x, y, b - 1);
      assert x * b == x * (b - 1) + x && y * b == y * (b - 1) + y;
    }
  }

  lemma QuotientBounds(a: int, b: nat)
    requires b > 0
    ensures (a / b) * b <= a < (a / b + 1) * b
  {
  }

  lemma QuotientIs(a: int, b: nat, q: int)
    requires b > 0 && q * b <= a < (q + 1) * b
    ensures a / b == q
  {
    QuotientBounds(a, b);
    if a / b < q {
      ProductMonotone(a / b + 1, q, b);
    } else if q < a / b {
      ProductMonotone(q + 1, a / b, b);
    }
  }

  lemma QuotientMonotone(a: int, c: int, b: nat)
    requires b > 0 && a <= c
    ensures a / b <= c / b
  {
    QuotientBounds(a, b);
    QuotientBounds(c, b);
    if c / b < a / b {
      ProductMonotone(c / b + 1, a / b, b);
    }
  }

  lemma QuotientFits(a: nat, b: nat)
    requires b > 0
    ensures 0 <= a / b <= a
  {
    QuotientBounds(a, b);
    if a / b < 0 {
      ProductMonotone(a / b + 1, 0, b);
    } else if a < a / b {
      ProductMonotone(1, b, a / b);
    }
  }

  lemma WholeFrame(a: nat)
    requires a > 0
    ensures 0 % a == 0 && a % a == 0
  {
  }
}
