/**
 * Small facts of integer and real arithmetic, stated once so that the
 * proofs that need them stay linear.
 */
module Arith {

  lemma {:induction false} MulSucc(c: int, x: int)
    ensures (c + 1) * x == c * x + x
  {
  }

  lemma {:induction false} MulLe(c: int, x: int, y: int)
    requires c >= 0 && x <= y
    ensures c * x <= c * y
  {
  }

  lemma {:induction false} LessTimes(x: real, y: real, n: real)
    requires n > 0.0 && x < y
    ensures x * n < y * n
  {
  }

  lemma {:induction false} LessEqTimes(x: real, y: real, n: real)
    requires n > 0.0 && x <= y
    ensures x * n <= y * n
  {
  }

  lemma {:induction false} Cancel(x: real, y: real, n: real)
    requires n > 0.0 && x * n == y * n
    ensures x == y
  {
  }

  lemma {:induction false} CastProduct(a: int, b: int)
    ensures (a * b) as real == a as real * b as real
  {
  }

  lemma {:induction false} PositiveFactor(n: real, x: real)
    requires n > 0.0 && n * x >= 0.0
    ensures x >= 0.0
  {
    if x < 0.0 {
      LessTimes(x, 0.0, n);
    }
  }

  lemma {:induction false} StrictFactor(n: real, x: real)
    requires n > 0.0 && n * x > 0.0
    ensures x > 0.0
  {
    if x <= 0.0 {
      LessEqTimes(x, 0.0, n);
    }
  }
}
