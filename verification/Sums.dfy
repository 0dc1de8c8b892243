/** Finite sums of reals over an index range, with the four laws the matrix algebra rests on. */
module Sums {

  function Sum(f: int -> real, n: nat): real {
    if n == 0 then 0.0 else Sum(f, n - 1) + f(n - 1)
  }

  lemma {:induction false} SumExt(f: int -> real, g: int -> real, n: nat)
    requires forall i | 0 <= i < n :: f(i) == g(i)
    ensures Sum(f, n) == Sum(g, n)
  {
    if n == 0 {
    } else {
      SumExt(f, g, n - 1);
    }
  }

  lemma {:induction false} SumZero(f: int -> real, n: nat)
    requires forall i | 0 <= i < n :: f(i) == 0.0
    ensures Sum(f, n) == 0.0
  {
    if n == 0 {
    } else {
      SumZero(f, n - 1);
    }
  }

  lemma {:induction false} SumAdd(f: int -> real, g: int -> real, h: int -> real, n: nat)
    requires forall i | 0 <= i < n :: h(i) == f(i) + g(i)
    ensures Sum(h, n) == Sum(f, n) + Sum(g, n)
  {
    if n == 0 {
    } else {
      SumAdd(f, g, h, n - 1);
    }
  }

  lemma {:induction false} SumSub(f: int -> real, g: int -> real, h: int -> real, n: nat)
    requires forall i | 0 <= i < n :: h(i) == f(i) - g(i)
    ensures Sum(h, n) == Sum(f, n) - Sum(g, n)
  {
    if n == 0 {
    } else {
      SumSub(f, g, h, n - 1);
    }
  }

  lemma {:induction false} SumScale(c: real, f: int -> real, h: int -> real, n: nat)
    requires forall i | 0 <= i < n :: h(i) == c * f(i)
    ensures Sum(h, n) == c * Sum(f, n)
  {
    if n == 0 {
    } else {
      SumScale(c, f, h, n - 1);
    }
  }

  /** A sum with at most one non-zero term. */
  lemma {:induction false} SumSingle(f: int -> real, k: int, n: nat)
    requires 0 <= k < n
    requires forall i | 0 <= i < n && i != k :: f(i) == 0.0
    ensures Sum(f, n) == f(k)
  {
    if k == n - 1 {
      SumZero(f, n - 1);
    } else {
      SumSingle(f, k, n - 1);
    }
  }

  /** Exchange of the order of summation. */
  lemma {:induction false} SumSwap(f: (int, int) -> real, m: nat, n: nat)
    ensures Sum(i => Sum(j => f(i, j), n), m) == Sum(j => Sum(i => f(i, j), m), n)
  {
    if m == 0 {
      SumZero(j => Sum(i => f(i, j), m), n);
    } else {
      SumSwap(f, m - 1, n);
      SumAdd(j => Sum(i => f(i, j), m - 1), j => f(m - 1, j), j => Sum(i => f(i, j), m), n);
    }
  }

  lemma {:induction false} SumNonNegative(f: int -> real, n: nat)
    requires forall i | 0 <= i < n :: f(i) >= 0.0
    ensures Sum(f, n) >= 0.0
    ensures forall k | 0 <= k < n :: f(k) <= Sum(f, n)
  {
    if n == 0 {
    } else {
      SumNonNegative(f, n - 1);
    }
  }
}
