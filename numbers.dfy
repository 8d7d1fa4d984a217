/** `Math.floor(a / b)` and `Math.ceil(a / b)` over integers with a
    positive divisor, and how they compose. */
module Numbers {

  /** `Math.floor(a / b)`: Dafny's `/` already rounds down when `b > 0`. */
  function FloorDiv(a: int, b: int): (q: int)
    requires b > 0
    ensures b * q <= a < b * q + b
  {
    a / b
  }

  /** `Math.ceil(a / b)`. */
  function CeilDiv(a: int, b: int): (q: int)
    requires b > 0
    ensures b * q - b < a <= b * q
  {
    -((-a) / b)
  }

  lemma MulMonotone(b: int, x: int, y: int)
    requires b > 0 && x <= y
    ensures b * x <= b * y
  {
  }

  /** The quotient is the only integer with the division bounds. */
  lemma FloorUnique(a: int, b: int, q: int)
    requires b > 0 && b * q <= a < b * q + b
    ensures FloorDiv(a, b) == q
  {
    var r := FloorDiv(a, b);
    if r < q {
      MulMonotone(b, r + 1, q);
    } else if r > q {
      MulMonotone(b, q + 1, r);
    }
  }

  lemma CeilUnique(a: int, b: int, q: int)
    requires b > 0 && b * q - b < a <= b * q
    ensures CeilDiv(a, b) == q
  {
    var r := CeilDiv(a, b);
    if r < q {
      MulMonotone(b, r, q - 1);
    } else if r > q {
      MulMonotone(b, q, r - 1);
    }
  }

  /** Flooring twice is flooring once by the product of the divisors. */
  lemma FloorFloor(a: int, b: int, c: int)
    requires b > 0 && c > 0
    ensures FloorDiv(FloorDiv(a, b), c) == FloorDiv(a, b * c)
  {
    var q1 := FloorDiv(a, b);
    var q2 := FloorDiv(q1, c);
    MulMonotone(b, c * q2, q1);
    MulMonotone(b, q1 + 1, c * q2 + c);
    assert b * (c * q2) == (b * c) * q2;
    assert b * (c * q2 + c) == (b * c) * q2 + b * c;
    FloorUnique(a, b * c, q2);
  }

  /** Ceiling twice is ceiling once by the product of the divisors. */
  lemma CeilCeil(a: int, b: int, c: int)
    requires b > 0 && c > 0
    ensures CeilDiv(CeilDiv(a, b), c) == CeilDiv(a, b * c)
  {
    var q1 := CeilDiv(a, b);
    var q2 := CeilDiv(q1, c);
    MulMonotone(b, q1, c * q2);
    MulMonotone(b, c * q2 - c, q1 - 1);
    assert b * (c * q2) == (b * c) * q2;
    assert b * (c * q2 - c) == (b * c) * q2 - b * c;
    CeilUnique(a, b * c, q2);
  }

  /** A floored quotient is below `n` exactly when the dividend is below `b * n`. */
  lemma FloorBelow(a: int, b: int, n: int)
    requires b > 0
    ensures FloorDiv(a, b) < n <==> a < b * n
  {
    var q := FloorDiv(a, b);
    if q < n { MulMonotone(b, q + 1, n); } else { MulMonotone(b, n, q); }
  }

  /** A ceiled quotient is below `n` exactly when the dividend is at most `b * (n - 1)`. */
  lemma CeilBelow(a: int, b: int, n: int)
    requires b > 0
    ensures CeilDiv(a, b) < n <==> a <= b * (n - 1)
  {
    var q := CeilDiv(a, b);
    if q < n { MulMonotone(b, q, n - 1); } else { MulMonotone(b, n, q); }
  }
}
