/** JavaScript's `%` operator and the wrap-around stepping the site builds on
    it: `(i + 1) % n` for "next" and `(i - 1 + n) % n` for "previous". */
module Cyclic {
  import Arith

  /** `a % n` in JavaScript for a positive divisor: the remainder of
      truncating division, which takes the sign of `a` (Dafny's own `%` is
      Euclidean and never negative). */
  function JsRem(a: int, n: int): (r: int)
    requires n > 0
    ensures -n < r < n
    ensures a >= 0 ==> r == a % n
    ensures a < 0 ==> r <= 0
  {
    if a >= 0 then a % n else -((-a) % n)
  }

  /** `(i + 1) % n`, the successor on a ring of `n` positions. */
  function Next(i: int, n: int): (r: int)
    requires n > 0 && i >= 0
    ensures 0 <= r < n
    ensures i < n - 1 ==> r == i + 1
    ensures i == n - 1 ==> r == 0
  {
    Arith.ModSmall(i + 1, n);
    JsRem(i + 1, n)
  }

  /** `(i - 1 + n) % n`, the predecessor on a ring of `n` positions. */
  function Prev(i: int, n: int): (r: int)
    requires n > 0 && i >= 0
    ensures 0 <= r < n
    ensures 0 < i < n ==> r == i - 1
    ensures i == 0 ==> r == n - 1
  {
    Arith.ModSmall(i - 1 + n, n);
    JsRem(i - 1 + n, n)
  }

  /** Stepping back undoes stepping forward and vice versa. */
  lemma PrevUndoesNext(i: int, n: int)
    requires 0 <= i < n
    ensures Prev(Next(i, n), n) == i
    ensures Next(Prev(i, n), n) == i
  {
  }

  /** `k` steps forward from `i`. */
  function NextIter(i: int, n: int, k: nat): (r: int)
    requires n > 0 && i >= 0
    ensures r >= 0
  {
    if k == 0 then i else Next(NextIter(i, n, k - 1), n)
  }

  /** `k` steps forward from a position on the ring land on `(i + k) mod n`. */
  lemma {:induction false} NextIterIsMod(i: int, n: int, k: nat)
    requires 0 <= i < n
    ensures NextIter(i, n, k) == (i + k) % n
  {
    if k > 0 {
      var a := i + k - 1;
      NextIterIsMod(i, n, k - 1);
      assert NextIter(i, n, k) == Next(a % n, n);
      Arith.ModSucc(a, n);
      assert a + 1 == i + k;
    }
  }

  /** A full lap of `n` steps comes back to the start. */
  lemma {:induction false} FullLap(i: int, n: int)
    requires 0 <= i < n
    ensures NextIter(i, n, n) == i
  {
    NextIterIsMod(i, n, n);
    Arith.DivModUnique(i + n, n, 1, i);
  }
}
