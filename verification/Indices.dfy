/** The arithmetic of flat indices: row-major cells, ring slots and pool blocks. */
module Indices {
  lemma TimesAtLeast(d: int, n: nat)
    ensures d >= 1 ==> d * n >= n
    ensures d <= -1 ==> d * n + n <= 0
    ensures d >= 0 ==> d * n >= 0
  {
    assert d >= 1 ==> (d - 1) * n >= 0;
    assert d <= -1 ==> (-1 - d) * n >= 0;
  }

  lemma IndexInRange(i: int, j: int, m: nat, n: nat)
    requires 0 <= i < m && 0 <= j < n
    ensures 0 <= i * n + j < m * n
  {
    TimesAtLeast(m - i, n);
    assert (m - i) * n == m * n - i * n;
  }

  /** Quotient and remainder are determined by the decomposition. */
  lemma DivModUnique(q: int, r: int, p: int, s: int, n: nat)
    requires 0 <= r < n && 0 <= s < n && q * n + r == p * n + s
    ensures q == p && r == s
  {
    TimesAtLeast(p - q, n);
    assert (p - q) * n == p * n - q * n;
  }

  lemma IndexSplit(t: int, m: nat, n: nat)
    requires 0 <= t < m * n
    ensures 0 < n && 0 <= t / n < m && 0 <= t % n < n && t == t / n * n + t % n
  {
    assert n == 0 ==> m * n == 0;
    var q, r := t / n, t % n;
    assert t == q * n + r;
    TimesAtLeast(q - m, n);
    assert (q - m) * n == q * n - m * n;
    TimesAtLeast(q, n);
  }

  lemma IndexJoin(i: int, j: int, n: nat)
    requires 0 <= i && 0 <= j < n
    ensures (i * n + j) / n == i && (i * n + j) % n == j
  {
    var t := i * n + j;
    DivModUnique(t / n, t % n, i, j, n);
  }
}
