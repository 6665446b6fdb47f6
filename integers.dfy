/** The C# integer operations the model needs. */
module Integers {
  /** C# `/` on `int`: the quotient is truncated toward zero (Dafny's `/` is Euclidean). */
  function TruncDiv(a: int, b: int): int
    requires b != 0
  {
    var m := (if a < 0 then -a else a) / (if b < 0 then -b else b);
    if (a < 0) == (b < 0) then m else -m
  }

  lemma DivBounds(a: nat, b: nat)
    requires b > 0
    ensures (a / b) * b <= a < (a / b) * b + b
  {
  }

  /** On non-negative operands C# and Dafny agree. */
  lemma TruncDivNonNegative(a: int, b: int)
    requires a >= 0 && b > 0
    ensures TruncDiv(a, b) == a / b
  {
  }

  /** On a negative dividend they do not: -7 / 2 is -3 in C#. */
  lemma TruncDivNegative()
    ensures TruncDiv(-7, 2) == -3 && -7 / 2 == -4
  {
  }

  /** Integer division is monotone in the dividend. */
  lemma {:induction false} DivMonotone(a: nat, b: nat, n: nat)
    requires a <= b && n > 0
    ensures a / n <= b / n
  {
    var qa, qb := a / n, b / n;
    DivBounds(a, n);
    DivBounds(b, n);
    if qa > qb {
      MulMonotone(qb + 1, qa, n);
    }
  }

  /** Multiplying by a positive divisor and dividing by it again gives the factor back. */
  lemma MulDivCancel(n: nat, d: nat)
    requires d > 0
    ensures (d * n) / d == n
  {
    var q := (d * n) / d;
    DivBounds(d * n, d);
    if q < n {
      MulMonotone(q + 1, n, d);
    } else if q > n {
      MulMonotone(n + 1, q, d);
    }
  }

  lemma {:induction false} MulMonotone(x: nat, y: nat, n: nat)
    requires x <= y
    ensures x * n <= y * n
  {
    if n > 0 {
      MulMonotone(x, y, n - 1);
    }
  }
}
