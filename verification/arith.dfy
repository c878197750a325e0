/** Facts about Dafny's Euclidean `/` and `%` that the verifier does not find
    on its own when the divisor is not a literal. */
module Arith {

  /** The quotient and remainder are the only pair with `a == n*q + r` and `0 <= r < n`. */
  lemma DivModUnique(a: int, n: int, q: int, r: int)
    requires n > 0 && 0 <= r < n && a == n * q + r
    ensures a / n == q && a % n == r
  {
    var q', r' := a / n, a % n;
    assert a == n * q' + r';
    if q' > q {
      assert n * q' >= n * (q + 1) by { MulMonotone(n, q + 1, q'); }
    } else if q' < q {
      assert n * q >= n * (q' + 1) by { MulMonotone(n, q' + 1, q); }
    }
  }

  lemma MulMonotone(n: int, x: int, y: int)
    requires n >= 0 && x <= y
    ensures n * x <= n * y
  {
    assert n * y == n * x + n * (y - x);
  }

  /** `a % n` for `a` within the first two laps. */
  lemma ModSmall(a: int, n: int)
    requires n > 0
    ensures 0 <= a < n ==> a % n == a && a / n == 0
    ensures n <= a < 2 * n ==> a % n == a - n && a / n == 1
  {
    if 0 <= a < n { DivModUnique(a, n, 0, a); }
    if n <= a < 2 * n { DivModUnique(a, n, 1, a - n); }
  }

  /** One step past `a` moves the remainder one step around the ring. */
  lemma ModSucc(a: int, n: int)
    requires n > 0
    ensures (a + 1) % n == if a % n == n - 1 then 0 else a % n + 1
  {
    var q, p := a / n, a % n;
    if p == n - 1 {
      DivModUnique(a + 1, n, q + 1, 0);
    } else {
      DivModUnique(a + 1, n, q, p + 1);
    }
  }

  /** Division by a positive number is monotone. */
  lemma DivMonotone(a: int, b: int, n: int)
    requires n > 0 && a <= b
    ensures a / n <= b / n
  {
    var qa, qb := a / n, b / n;
    assert a == n * qa + a % n && b == n * qb + b % n;
    if qa > qb {
      MulMonotone(n, qb + 1, qa);
    }
  }

  /** Dividing exactly and rounding down is integer division. */
  lemma FloorOfQuotient(a: int, n: int)
    requires a >= 0 && n > 0
    ensures ((a as real) / (n as real)).Floor == a / n
  {
    var q, r := a / n, a % n;
    assert (a as real) / (n as real) == q as real + (r as real) / (n as real);
    assert 0.0 <= (r as real) / (n as real) < 1.0;
  }
}
