/** The conversion of a value between the span of a value point and another range, rounded to the
    nearest. `min` is the lower end of the span and `span` its length. Division is that of C++. */
module Scaling {
  import opened Words
  import opened Rates

  function FromRange(value: int, range: int, span: int): int
    requires range > 0
  {
    if span == range then value else Truncated(value * span * 2 + range, 2 * range)
  }

  /** The lower end is added here, but not taken off in the other direction. */
  function ToRange(value: int, range: int, min: int, span: int): int
    requires span > 0
  {
    if span == range then value else Truncated(value * range * 2 + span, 2 * span) + min
  }

  /** The limits of a value point, put in order; both are 0 unless they are given. */
  datatype Limits = Limits(min: int, max: int)
  {
    function Lower(): int {
      if min > max then max else min
    }

    function Span(): nat {
      if min > max then min - max else max - min
    }
  }

  /** The limits in order: the lower one is one of them and not above the other, and the span leads from
      it to the other. */
  lemma LimitsAreOrdered(limits: Limits)
    ensures limits.Lower() <= limits.min && limits.Lower() <= limits.max
    ensures {limits.Lower(), limits.Lower() + limits.Span()} == {limits.min, limits.max}
  {
  }

  datatype Scaled = Value(value: int) | DivisionByZero

  /** The conversions as they are called, for a range that is not negative. */
  function Outward(limits: Limits, value: int, range: nat): Scaled {
    if limits.Span() != range && limits.Span() == 0 then DivisionByZero
    else if limits.Span() == range then Value(value)
    else Value(ToRange(value, range, limits.Lower(), limits.Span()))
  }

  function Inward(limits: Limits, value: int, range: nat): Scaled {
    if limits.Span() != range && range == 0 then DivisionByZero
    else if limits.Span() == range then Value(value)
    else Value(FromRange(value, range, limits.Span()))
  }

  /** A point whose limits are equal, such as one without limits, cannot be scaled to any range but 0;
      one whose limits differ, to any. In the other direction only a range of 0 fails. */
  lemma ScalingFailsExactly(limits: Limits, value: int, range: nat)
    ensures Outward(limits, value, range) == DivisionByZero <==> limits.min == limits.max && range != 0
    ensures Inward(limits, value, range) == DivisionByZero <==> limits.min != limits.max && range == 0
    ensures limits.Span() > 0 && range > 0 ==>
      && Outward(limits, value, range) == Value(ToRange(value, range, limits.Lower(), limits.Span()))
      && Inward(limits, value, range) == Value(FromRange(value, range, limits.Span()))
    ensures limits.max - limits.min == range || limits.min - limits.max == range ==>
      Outward(limits, value, range) == Inward(limits, value, range) == Value(value)
    ensures limits.min == limits.max && range > 0 ==> Inward(limits, value, range) == Value(0)
  {
    if range > 0 && limits.min == limits.max {
      QuotientIs(range, 2 * range, 0);
    }
    if limits.Span() > 0 && range > 0 && limits.Span() == range {
      assert ToRange(value, range, limits.Lower(), limits.Span()) == value;
    }
  }

  /** So it is for the limits that a point has when none are given. */
  lemma DefaultLimitsFail(value: int, range: nat)
    requires range > 0
    ensures Outward(Limits(0, 0), value, range) == DivisionByZero
    ensures Inward(Limits(0, 0), value, range) == Value(0)
  {
    ScalingFailsExactly(Limits(0, 0), value, range);
    QuotientIs(range, 2 * range, 0);
  }

  /** The remainder of C++, which has the sign of the dividend. */
  function Remainder(a: int, b: int): int
    requires b > 0
  {
    a - b * Truncated(a, b)
  }

  /** What rounding leaves: twice the span times the converted value exceeds twice the exact product
      by this. */
  function Excess(value: int, range: int, min: int, span: int): int
    requires span > 0
  {
    span - Remainder(value * range * 2 + span, 2 * span) + 2 * span * min
  }

  lemma ProductIsNatural(a: nat, b: nat)
    ensures a * b >= 0
  {
    ProductMonotone(0, a, b);
  }

  lemma QuotientIsNatural(a: nat, b: nat)
    requires b > 0
    ensures a / b >= 0
  {
    QuotientFits(a, b);
  }

  lemma ExcessIs(value: int, range: int, min: int, span: int)
    requires range >= 0 && span > 0 && range != span
    ensures 2 * span * ToRange(value, range, min, span) == value * range * 2 + Excess(value, range, min, span)
    ensures value >= 0 ==> -span < Excess(value, range, min, span) - 2 * span * min <= span
    ensures value * range * 2 + span < 0 ==> Excess(value, range, min, span) - 2 * span * min >= span
  {
    var a := value * range * 2 + span;
    var q := Truncated(a, 2 * span);
    assert 2 * span * (q + min) == 2 * span * q + 2 * span * min;
    if a >= 0 {
      QuotientBounds(a, 2 * span);
    } else {
      QuotientBounds(-a, 2 * span);
      assert 2 * span * q == -((-a) / (2 * span) * (2 * span));
    }
    if value >= 0 {
      ProductIsNatural(value, range);
      assert (q + 1) * (2 * span) == q * (2 * span) + 2 * span;
    }
  }

  /** The converted value is within half a unit of the exact one, halves being rounded up. */
  lemma RoundsToNearest(value: nat, range: int, min: int, span: int)
    requires range >= 0 && span > 0 && range != span
    ensures -span < 2 * span * (ToRange(value, range, min, span) - min) - 2 * value * range <= span
  {
    ExcessIs(value, range, min, span);
    assert 2 * span * (ToRange(value, range, min, span) - min)
        == 2 * span * ToRange(value, range, min, span) - 2 * span * min;
  }

  /** Every conversion in full, negative values too: half the divisor is added, and the quotient rounded
      toward zero. Where the range is as long as the span, nothing is converted. */
  lemma ToRangeIsExact(value: int, range: nat, min: int, span: nat)
    requires span > 0
    ensures range == span ==> ToRange(value, range, min, span) == value
    ensures range != span ==>
      var sum := value * range * 2 + span;
      var rest := sum - 2 * span * (ToRange(value, range, min, span) - min);
      if sum >= 0 then 0 <= rest < 2 * span else -2 * span < rest <= 0
  {
    TruncatedIsExact(value * range * 2 + span, 2 * span);
    hide Truncated;
  }

  lemma FromRangeIsExact(value: int, range: nat, span: nat)
    requires range > 0
    ensures range == span ==> FromRange(value, range, span) == value
    ensures range != span ==>
      var sum := value * span * 2 + range;
      var rest := sum - 2 * range * FromRange(value, range, span);
      if sum >= 0 then 0 <= rest < 2 * range else -2 * range < rest <= 0
  {
    TruncatedIsExact(value * span * 2 + range, 2 * range);
    hide Truncated;
  }

  lemma ToRangeIsMonotone(a: nat, b: nat, range: nat, min: int, span: nat)
    requires span > 0 && a <= b
    ensures ToRange(a, range, min, span) <= ToRange(b, range, min, span)
  {
    ProductMonotone(a, b, range);
    ProductIsNatural(a, range);
    QuotientMonotone(a * range * 2 + span, b * range * 2 + span, 2 * span);
  }

  /** The ends of the span go to the ends of the range. */
  lemma EndsMeet(range: int, min: int, span: int)
    requires range >= 0 && span > 0 && range != span
    ensures ToRange(0, range, min, span) == min
    ensures ToRange(span, range, min, span) == range + min
  {
    ProductIsNatural(span, range);
    QuotientIs(0 * range * 2 + span, 2 * span, 0);
    assert span * range * 2 + span == range * (2 * span) + span;
    assert (range + 1) * (2 * span) == range * (2 * span) + 2 * span;
    QuotientIs(span * range * 2 + span, 2 * span, range);
  }

  /** Converting one value there and back: exactly if what rounding and the lower end add stays within
      half a unit of the range, on the side away from 0; for 0 itself on either. */
  lemma RoundTripExactly(value: int, range: int, min: int, span: int)
    requires span > 0 && range > 0 && range != span
    ensures var x := Excess(value, range, min, span);
            FromRange(ToRange(value, range, min, span), range, span) == value
            <==> (if value > 0 then -range <= x < range
                  else if value < 0 then -3 * range < x <= -range
                  else -3 * range < x < range)
  {
    hide Excess, ToRange, Truncated;
    var x, t := Excess(value, range, min, span), ToRange(value, range, min, span);
    ExcessIs(value, range, min, span);
    Regroup(t, span);
    Regroup(value, range);
    TruncatesTo(t * span * 2 + range, 2 * range, value, x + range);
  }

  lemma Regroup(a: int, b: int)
    ensures a * b * 2 == 2 * b * a == a * (2 * b)
  {
  }

  /** When truncating division by `b` gives `q`, for a dividend that is `q` times `b` and a rest. */
  lemma TruncatesTo(a: int, b: int, q: int, rest: int)
    requires b > 0 && a == q * b + rest
    ensures Truncated(a, b) == q
            <==> (if q > 0 then 0 <= rest < b else if q < 0 then -b < rest <= 0 else -b < rest < b)
  {
    assert (q + 1) * b == q * b + b && (q - 1) * b == q * b - b && (-q) * b == -(q * b) && (-q + 1) * b == -(q * b) + b;
    if a >= 0 {
      QuotientBounds(a, b);
      QuotientIsNatural(a, b);
      if q >= 0 && 0 <= rest < b {
        QuotientIs(a, b, q);
      }
    } else {
      QuotientBounds(-a, b);
      QuotientIsNatural(-a, b);
      if q <= 0 && -b < rest <= 0 {
        QuotientIs(-a, b, -q);
      }
      if q > 0 {
        ProductIsNatural(q, b);
      }
    }
  }

  /** With a span that starts at 0 and is no longer than the range, every value comes back. */
  lemma RoundTrip(value: nat, range: nat, span: nat)
    requires 0 < span <= range
    ensures FromRange(ToRange(value, range, 0, span), range, span) == value
  {
    if span != range {
      ExcessIs(value, range, 0, span);
      RoundTripExactly(value, range, 0, span);
      if value == 0 {
        ZeroHasNoExcess(range, span);
      }
    }
  }

  lemma ZeroHasNoExcess(range: nat, span: nat)
    requires span > 0
    ensures Excess(0, range, 0, span) == 0
  {
    var a := 0 * range * 2 + span;
    assert a == span;
    QuotientIs(a, 2 * span, 0);
    assert a == 2 * span * (a / (2 * span)) + a % (2 * span);
  }

  predicate ComesBack(value: int, range: int, min: int, span: int)
    requires span > 0 && range > 0
  {
    FromRange(ToRange(value, range, min, span), range, span) == value
  }

  /** A negative value never does, when the span is shorter than the range. */
  lemma NegativeStaysAway(value: int, range: int, span: int)
    requires 0 < span < range && value < 0
    ensures !ComesBack(value, range, 0, span)
  {
    RoundTripExactly(value, range, 0, span);
    ExcessIs(value, range, 0, span);
    var a := value * range * 2 + span;
    ProductMonotone(value, -1, range);
    assert a < 0;
  }

  /** All values of a span that starts at 0 come back exactly if the range is no shorter. */
  lemma RoundTripNeedsRoom(range: nat, span: nat)
    requires span > 0 && range > 0
    ensures (forall v: nat :: v <= span ==> ComesBack(v, range, 0, span)) <==> span <= range
  {
    if span <= range {
      forall v: nat | v <= span ensures ComesBack(v, range, 0, span) {
        RoundTrip(v, range, span);
      }
    } else if forall v: nat :: v <= span ==> ComesBack(v, range, 0, span) {
      KeepsApart(span, range, span);
      EndsMeet(range, 0, span);
    }
  }

  /** If values come back, they are converted to different ones. */
  lemma {:induction false} KeepsApart(value: nat, range: nat, span: nat)
    requires span > 0 && range > 0 && span != range && value <= span
    requires forall v: nat :: v <= span ==> ComesBack(v, range, 0, span)
    ensures ToRange(value, range, 0, span) >= value
  {
    if value == 0 {
      EndsMeet(range, 0, span);
    } else {
      KeepsApart(value - 1, range, span);
      ToRangeIsMonotone(value - 1, value, range, 0, span);
      assert ComesBack(value - 1, range, 0, span) && ComesBack(value, range, 0, span);
    }
  }

  /** No intermediate result leaves 32 bits, there or back, if the largest of them does not. */
  lemma StaysIn32Bits(value: nat, range: nat, span: nat)
    requires 0 < span && value <= span && range != span
    requires span * range * 2 + span + range < 0x8000_0000
    ensures 0 <= value * range * 2 + span < 0x8000_0000
    ensures var there := ToRange(value, range, 0, span);
            0 <= there <= range && 0 <= there * span * 2 + range < 0x8000_0000
  {
    ProductMonotone(value, span, range);
    ProductIsNatural(value, range);
    EndsMeet(range, 0, span);
    ToRangeIsMonotone(0, value, range, 0, span);
    ToRangeIsMonotone(value, span, range, 0, span);
    var there := ToRange(value, range, 0, span);
    ProductMonotone(there, range, span);
    ProductMonotone(0, there, span);
  }

  // ------------------------------------------------------------------ spans that do not start at 0

  /** The upper end of the span comes back exactly if the lower end, in steps of half the range, is
      small. So a lower end that is not undone is seen there first. */
  lemma EndComesBack(range: int, min: int, span: int)
    requires span > 0 && range > 0 && range != span
    ensures ComesBack(span, range, min, span) <==> -range <= 2 * span * min < range
  {
    RoundTripExactly(span, range, min, span);
    EndsMeet(range, min, span);
    ExcessIs(span, range, min, span);
    assert 2 * span * (range + min) == span * range * 2 + 2 * span * min;
  }

  /** With a lower end outside these bounds the way back does not undo the way there. */
  lemma LowerEndIsNotUndone(range: int, min: int, span: int)
    requires span > 0 && range > 0 && range != span
    requires 2 * span * min < -range || 2 * span * min >= range
    ensures ToRange(span, range, min, span) == range + min && !ComesBack(span, range, min, span)
  {
    EndComesBack(range, min, span);
    EndsMeet(range, min, span);
  }

  function Gcd(x: nat, y: nat): (g: nat)
    requires x > 0 && y > 0
    ensures 0 < g <= x && g <= y
    decreases x + y
  {
    if x == y then x else if x < y then Gcd(x, y - x) else Gcd(x - y, y)
  }

  lemma {:induction false} GcdDivides(x: nat, y: nat) returns (p: nat, q: nat)
    requires x > 0 && y > 0
    ensures x == Gcd(x, y) * p && y == Gcd(x, y) * q
    decreases x + y
  {
    if x == y {
      p, q := 1, 1;
    } else if x < y {
      p, q := GcdDivides(x, y - x);
      assert Gcd(x, y) * (p + q) == Gcd(x, y) * p + Gcd(x, y) * q;
      q := p + q;
    } else {
      p, q := GcdDivides(x - y, y);
      assert Gcd(x, y) * (p + q) == Gcd(x, y) * p + Gcd(x, y) * q;
      p := p + q;
    }
  }

  lemma {:induction false} GcdCombines(x: nat, y: nat) returns (a: int, b: int)
    requires x > 0 && y > 0
    ensures x * a - y * b == Gcd(x, y)
    decreases x + y
  {
    if x == y {
      a, b := 1, 0;
    } else if x < y {
      a, b := GcdCombines(x, y - x);
      assert x * (a + b) - y * b == x * a - (y - x) * b;
      a := a + b;
    } else {
      a, b := GcdCombines(x - y, y);
      assert x * a - y * (a + b) == (x - y) * a - y * b;
      b := a + b;
    }
  }

  /** The excess is twice the distance to a multiple of the span, but for the lower end. */
  lemma ExcessIsDistance(value: int, range: int, min: int, span: int) returns (q: int)
    requires span > 0
    ensures Excess(value, range, min, span) == 2 * (span * q - value * range) + 2 * span * min
  {
    q := Truncated(value * range * 2 + span, 2 * span);
    assert 2 * span * q == 2 * (span * q);
  }

  lemma DistanceIsExcess(value: nat, range: int, min: int, span: int, q: int)
    requires range > 0 && span > 0
    requires -span < 2 * (span * q - value * range) <= span
    ensures Excess(value, range, min, span) == 2 * (span * q - value * range) + 2 * span * min
  {
    var a := value * range * 2 + span;
    ProductIsNatural(value, range);
    assert q * (2 * span) == 2 * (span * q);
    assert (q + 1) * (2 * span) == 2 * (span * q) + 2 * span;
    QuotientIs(a, 2 * span, q);
    assert 2 * span * q == 2 * (span * q);
  }

  /** These distances are the multiples of the greatest common divisor. */
  lemma DistanceIsMultiple(value: int, range: nat, span: nat, q: int) returns (k: int)
    requires range > 0 && span > 0
    ensures span * q - value * range == Gcd(span, range) * k
  {
    var p, r := GcdDivides(span, range);
    k := p * q - value * r;
    Factor(Gcd(span, range), p, q, value, r);
  }

  lemma Factor(g: int, p: int, q: int, v: int, r: int)
    ensures (g * p) * q - v * (g * r) == g * (p * q - v * r)
  {
    assert (g * p) * q == g * (p * q) && v * (g * r) == g * (v * r);
    assert g * (p * q - v * r) == g * (p * q) - g * (v * r);
  }

  lemma MultipleIsDistance(range: nat, span: nat, k: int) returns (value: nat, q: int)
    requires range > 0 && span > 0
    ensures 0 < value <= span && span * q - value * range == Gcd(span, range) * k
  {
    var a, b := GcdCombines(span, range);
    var j := Position(b * k, span);
    value, q := b * k - span * j, a * k - range * j;
    Combine(span, range, a, b, k, j, Gcd(span, range));
  }

  lemma Position(n: int, span: nat) returns (j: int)
    requires span > 0
    ensures 0 < n - span * j <= span
  {
    j := (n - 1) / span;
    QuotientBounds(n - 1, span);
    assert span * j == j * span && (j + 1) * span == j * span + span;
  }

  lemma Combine(span: int, range: int, a: int, b: int, k: int, j: int, g: int)
    requires span * a - range * b == g
    ensures span * (a * k - range * j) - (b * k - span * j) * range == g * k
  {
    assert span * (a * k - range * j) == (span * a) * k - span * range * j;
    assert (b * k - span * j) * range == (range * b) * k - span * range * j;
    assert (span * a) * k - (range * b) * k == (span * a - range * b) * k;
  }

  /** The largest multiple up to a number. */
  function Largest(n: nat, g: nat): int
    requires g > 0
  {
    g * (n / g)
  }

  lemma LargestBounds(n: nat, g: nat, k: int)
    requires g > 0
    ensures 0 <= Largest(n, g) <= n
    ensures g * k <= n ==> g * k <= Largest(n, g)
  {
    QuotientBounds(n, g);
    QuotientIsNatural(n, g);
    ProductIsNatural(g, n / g);
    assert g * (n / g) == (n / g) * g && g * k == k * g;
    if k > n / g {
      ProductMonotone(n / g + 1, k, g);
    }
  }

  /** All values of a span come back exactly if the range has room for the lower end and the largest
      roundings that occur, which are even multiples of the greatest common divisor of span and range. */
  lemma AllComeBackExactly(range: int, min: int, span: int)
    requires span > 0 && range > 0 && range != span
    ensures var g := 2 * Gcd(span, range);
      (forall v: nat :: v <= span ==> ComesBack(v, range, min, span)) <==>
        -range <= 2 * span * min - Largest(span - 1, g) && Largest(span, g) + 2 * span * min < range
  {
    hide Excess, ComesBack, Largest;
    var g := 2 * Gcd(span, range);
    if forall v: nat :: v <= span ==> ComesBack(v, range, min, span) {
      var high := LargestOccurs(range, min, span);
      WithinExactly(high, range, min, span);
      assert ComesBack(high, range, min, span);
      var low := SmallestOccurs(range, min, span);
      WithinExactly(low, range, min, span);
      assert ComesBack(low, range, min, span);
    }
    if -range <= 2 * span * min - Largest(span - 1, g) && Largest(span, g) + 2 * span * min < range {
      forall v: nat | v <= span ensures ComesBack(v, range, min, span) {
        StaysBetween(v, range, min, span);
        WithinExactly(v, range, min, span);
      }
    }
  }

  lemma WithinExactly(value: nat, range: int, min: int, span: int)
    requires span > 0 && range > 0 && range != span
    ensures -range <= Excess(value, range, min, span) < range ==> ComesBack(value, range, min, span)
    ensures value > 0 && ComesBack(value, range, min, span) ==> -range <= Excess(value, range, min, span) < range
  {
    RoundTripExactly(value, range, min, span);
    hide Excess;
  }

  lemma Twice(g: int, k: int)
    ensures 2 * g * k == 2 * (g * k) && 2 * g * (-k) == -(2 * (g * k)) && g * (-k) == -(g * k)
  {
  }

  lemma LargestIs(n: nat, g: nat)
    requires g > 0
    ensures Largest(n, g) == g * (n / g)
  {
  }

  lemma LargestOccurs(range: int, min: int, span: int) returns (value: nat)
    requires span > 0 && range > 0
    ensures 0 < value <= span
    ensures Excess(value, range, min, span) == Largest(span, 2 * Gcd(span, range)) + 2 * span * min
  {
    var g := Gcd(span, range);
    var k := span / (2 * g);
    LargestIs(span, 2 * g);
    hide Excess, Largest, Gcd;
    var q;
    value, q := MultipleIsDistance(range, span, k);
    LargestBounds(span, 2 * g, k);
    Twice(g, k);
    DistanceIsExcess(value, range, min, span, q);
  }

  lemma SmallestOccurs(range: int, min: int, span: int) returns (value: nat)
    requires span > 0 && range > 0
    ensures 0 < value <= span
    ensures Excess(value, range, min, span) == 2 * span * min - Largest(span - 1, 2 * Gcd(span, range))
  {
    var g := Gcd(span, range);
    var k := (span - 1) / (2 * g);
    LargestIs(span - 1, 2 * g);
    hide Excess, Largest, Gcd;
    var q;
    value, q := MultipleIsDistance(range, span, -k);
    LargestBounds(span - 1, 2 * g, k);
    Twice(g, k);
    DistanceIsExcess(value, range, min, span, q);
  }

  lemma StaysBetween(value: nat, range: int, min: int, span: int)
    requires span > 0 && range > 0 && range != span
    ensures var g := 2 * Gcd(span, range);
      -Largest(span - 1, g) <= Excess(value, range, min, span) - 2 * span * min <= Largest(span, g)
  {
    hide Excess, Largest, Gcd, ToRange;
    var g := Gcd(span, range);
    var q := ExcessIsDistance(value, range, min, span);
    var k := DistanceIsMultiple(value, range, span, q);
    ExcessIs(value, range, min, span);
    Twice(g, k);
    LargestBounds(span, 2 * g, k);
    LargestBounds(span - 1, 2 * g, -k);
  }

  /** So it is enough that the lower end leaves a whole span on either side. */
  lemma AllComeBack(range: int, min: int, span: int, value: nat)
    requires span > 0 && range > 0 && range != span
    requires span - range <= 2 * span * min < range - span
    ensures ComesBack(value, range, min, span)
  {
    RoundTripExactly(value, range, min, span);
    ExcessIs(value, range, min, span);
  }
}
