/**
 Facts about Euclidean division by a positive number, used to locate the
 batch an example position falls in and to relate the batch-size test to
 the size's absolute value.
 */
module Arithmetic {

  /** A positive multiple of a positive number is at least that number. */
  lemma {:induction false} MulAtLeast(d: int, b: int)
    requires d >= 1 && b > 0
    ensures d * b >= b
    decreases d
  {
    if d > 1 {
      MulAtLeast(d - 1, b);
      assert d * b == (d - 1) * b + b;
    }
  }

  /** Euclidean quotient and remainder are determined by the division identity. */
  lemma DivModUnique(i: int, b: int, q: int, r: int)
    requires b > 0 && 0 <= r < b && i == q * b + r
    ensures i / b == q && i % b == r
  {
    var q', r' := i / b, i % b;
    assert i == q' * b + r' && 0 <= r' < b;
    if q' < q {
      MulAtLeast(q - q', b);
    } else if q' > q {
      MulAtLeast(q' - q, b);
    }
  }

  /** Dropping one full batch of `b` elements lowers the batch number by one and keeps the offset. */
  lemma DivModShift(i: int, b: int)
    requires b > 0 && i >= b
    ensures (i - b) / b == i / b - 1 && (i - b) % b == i % b
  {
    DivModUnique(i - b, b, i / b - 1, i % b);
  }

  /** A multiple of m that lies in [0, m) is zero. */
  lemma MultipleBelow(x: int, m: int, c: int)
    requires m > 0 && x == c * m && 0 <= x < m
    ensures x == 0
  {
    if c >= 1 {
      MulAtLeast(c, m);
    } else if c <= -1 {
      MulAtLeast(-c, m);
    }
  }
}
