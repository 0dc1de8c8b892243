/** The in-place array routines of the filter, each proved against the matrix algebra. */
module MatrixArrays {
  import opened Indices
  import opened Sums
  import opened Matrices

  /** C = A * B, cell by cell in row-major order. */
  method MatMul(A: array<real>, B: array<real>, C: array<real>, m: nat, n: nat, k: nat)
    requires A.Length == m * n && B.Length == n * k && C.Length == m * k
    requires C != A && C != B
    modifies C
    ensures Flat(m, k, C[..]) == Mul(Flat(m, n, A[..]), Flat(n, k, B[..]))
  {
    hide Mul, Sum, Flat, Cells;
    ghost var sa, sb := A[..], B[..];
    ghost var a, b := Flat(m, n, sa), Flat(n, k, sb);
    ghost var prod := Mul(a, b);
    ghost var goal := Cells(prod);
    for i := 0 to m
      invariant 0 <= i * k <= m * k
      invariant A[..] == sa && B[..] == sb
      invariant forall t | 0 <= t < i * k :: C[t] == goal[t]
    {
      RowFits(i, m, k);
      for j := 0 to k
        invariant A[..] == sa && B[..] == sb
        invariant forall t | 0 <= t < i * k + j :: C[t] == goal[t]
      {
        CellsAt(prod, m, k, i, j);
        ghost var terms := Terms(a, b, i, j);
        C[i * k + j] := 0.0;
        SumStart(terms);
        for l := 0 to n
          invariant A[..] == sa && B[..] == sb
          invariant forall t | 0 <= t < i * k + j :: C[t] == goal[t]
          invariant C[i * k + j] == Sum(terms, l)
        {
          CellAt(sa, m, n, i, l);
          CellAt(sb, n, k, l, j);
          SumStep(terms, l);
          C[i * k + j] := C[i * k + j] + A[i * n + l] * B[l * k + j];
        }
      }
    }
    assert C[..] == goal;
    FlatOfCells(prod, m, k);
  }

  lemma SumStart(f: int -> real)
    ensures Sum(f, 0) == 0.0
  {
  }

  lemma SumStep(f: int -> real, l: nat)
    ensures Sum(f, l + 1) == Sum(f, l) + f(l)
  {
  }

  lemma RowFits(i: int, m: nat, k: nat)
    requires 0 <= i < m
    ensures 0 <= i * k && i * k + k == (i + 1) * k <= m * k
  {
    TimesAtLeast(m - i, k);
    assert (m - i) * k == m * k - i * k;
    TimesAtLeast(i, k);
  }

  /** A = A + B over the first size cells. */
  method MatAdd(A: array<real>, B: array<real>, size: nat)
    requires size <= A.Length && size <= B.Length && A != B
    modifies A
    ensures forall t | 0 <= t < size :: A[t] == old(A[t]) + B[t]
    ensures forall t | size <= t < A.Length :: A[t] == old(A[t])
  {
    for i := 0 to size
      invariant forall t | 0 <= t < i :: A[t] == old(A[t]) + B[t]
      invariant forall t | i <= t < A.Length :: A[t] == old(A[t])
    {
      A[i] := A[i] + B[i];
    }
  }

  /** The 2x2 matrix [p q; r s]. */
  function Square2(p: real, q: real, r: real, s: real): (m: Matrix)
    ensures m.Is(2, 2)
    ensures m.At(0, 0) == p && m.At(0, 1) == q && m.At(1, 0) == r && m.At(1, 1) == s
  {
    Grid(2, 2, [[p, q], [r, s]])
  }

  lemma Square2Flat(c: seq<real>)
    requires |c| == 4
    ensures Flat(2, 2, c) == Square2(c[0], c[1], c[2], c[3])
  {
    FlatIs(c, 2, 2, Square2(c[0], c[1], c[2], c[3]));
  }

  /** The determinant of [p q; r s]. */
  function Det(p: real, q: real, r: real, s: real): real { p * s - q * r }

  function Det2(m: Matrix): real { Det(m.At(0, 0), m.At(0, 1), m.At(1, 0), m.At(1, 1)) }

  /** The source's test fabs(det) < 1e-12. */
  predicate Singular2(m: Matrix) { -0.000000000001 < Det2(m) < 0.000000000001 }

  function Inverse2(m: Matrix): (r: Matrix)
    requires !Singular2(m)
    ensures r.Is(2, 2)
  {
    Adjugate(m.At(0, 0), m.At(0, 1), m.At(1, 0), m.At(1, 1), 1.0 / Det2(m))
  }

  /** The adjugate of [p q; r s], scaled by d. */
  function Adjugate(p: real, q: real, r: real, s: real, d: real): Matrix { Square2(s * d, -q * d, -r * d, p * d) }

  /** Inverts a 2x2 matrix, or reports false and leaves B alone when the determinant is negligible. */
  method MatInv2x2(A: array<real>, B: array<real>) returns (ok: bool)
    requires A.Length == 4 && B.Length == 4 && A != B
    modifies B
    ensures ok == !Singular2(Flat(2, 2, A[..])) == !(-0.000000000001 < A[0] * A[3] - A[1] * A[2] < 0.000000000001)
    ensures ok ==> Flat(2, 2, B[..]) == Inverse2(Flat(2, 2, A[..]))
    ensures !ok ==> B[..] == old(B[..])
  {
    hide Flat, Square2, Adjugate;
    Square2Flat(A[..]);
    ghost var a := Flat(2, 2, A[..]);
    var det := A[0] * A[3] - A[1] * A[2];
    assert det == Det2(a);
    if (if det < 0.0 then -det else det) < 0.000000000001 {
      return false;
    }
    var invDet := 1.0 / det;
    B[0] := A[3] * invDet;
    B[1] := -A[1] * invDet;
    B[2] := -A[2] * invDet;
    B[3] := A[0] * invDet;
    AdjugateFlat(B[..], A[0], A[1], A[2], A[3], invDet);
    return true;
  }

  lemma AdjugateFlat(c: seq<real>, p: real, q: real, r: real, s: real, d: real)
    requires |c| == 4 && c[0] == s * d && c[1] == -q * d && c[2] == -r * d && c[3] == p * d
    ensures Flat(2, 2, c) == Adjugate(p, q, r, s, d)
  {
    hide Flat;
    Square2Flat(c);
  }

  lemma Unroll2(f: int -> real)
    ensures Sum(f, 2) == f(0) + f(1)
  {
    assert Sum(f, 1) == f(0);
  }

  lemma Cramer(p: real, q: real, r: real, s: real, d: real)
    requires (p * s - q * r) * d == 1.0
    ensures p * (s * d) + q * (-r * d) == 1.0 && p * (-q * d) + q * (p * d) == 0.0
    ensures r * (s * d) + s * (-r * d) == 0.0 && r * (-q * d) + s * (p * d) == 1.0
    ensures (s * d) * p + (-q * d) * r == 1.0 && (s * d) * q + (-q * d) * s == 0.0
    ensures (-r * d) * p + (p * d) * r == 0.0 && (-r * d) * q + (p * d) * s == 1.0
  {
    assert (p * s) * d - (q * r) * d == 1.0;
  }

  lemma Term(s: Matrix, t: Matrix, i: int, j: int, l: int, x: real, y: real)
    requires s.At(i, l) == x && t.At(l, j) == y
    ensures Terms(s, t, i, j)(l) == Times(x, y)
  {
  }

  /** An entry of a product whose inner dimension is two. */
  lemma Entry(s: Matrix, t: Matrix, i: int, j: int, x0: real, x1: real, y0: real, y1: real)
    requires s.cols == 2 && 0 <= i < s.rows && 0 <= j < t.cols
    requires s.At(i, 0) == x0 && s.At(i, 1) == x1 && t.At(0, j) == y0 && t.At(1, j) == y1
    ensures Mul(s, t).At(i, j) == Times(x0, y0) + Times(x1, y1)
  {
    hide Mul, Terms, Times;
    Term(s, t, i, j, 0, x0, y0);
    Term(s, t, i, j, 1, x1, y1);
    Unroll2(Terms(s, t, i, j));
  }

  /** A 2x2 product that comes out as the identity. */
  lemma Mul2IsIdentity(a: real, b: real, c: real, d: real, e: real, f: real, g: real, h: real)
    requires a * e + b * g == 1.0 && a * f + b * h == 0.0 && c * e + d * g == 0.0 && c * f + d * h == 1.0
    ensures Mul(Square2(a, b, c, d), Square2(e, f, g, h)) == Identity(2)
  {
    hide Mul, Identity, Square2;
    var s, t := Square2(a, b, c, d), Square2(e, f, g, h);
    Entry(s, t, 0, 0, a, b, e, g);
    Entry(s, t, 0, 1, a, b, f, h);
    Entry(s, t, 1, 0, c, d, e, g);
    Entry(s, t, 1, 1, c, d, f, h);
    Ext2(Mul(s, t), Identity(2));
  }

  lemma Ext2(a: Matrix, b: Matrix)
    requires a.Is(2, 2) && b.Is(2, 2)
    requires a.At(0, 0) == b.At(0, 0) && a.At(0, 1) == b.At(0, 1)
    requires a.At(1, 0) == b.At(1, 0) && a.At(1, 1) == b.At(1, 1)
    ensures a == b
  {
    hide Matrix.At;
    forall i, j | 0 <= i < 2 && 0 <= j < 2 ensures a.At(i, j) == b.At(i, j) {
    }
    Ext(a, b);
  }

  lemma AdjugateInverts(p: real, q: real, r: real, s: real, d: real)
    requires (p * s - q * r) * d == 1.0
    ensures Mul(Square2(p, q, r, s), Adjugate(p, q, r, s, d)) == Identity(2)
    ensures Mul(Adjugate(p, q, r, s, d), Square2(p, q, r, s)) == Identity(2)
  {
    hide Mul, Identity, Square2;
    Cramer(p, q, r, s, d);
    Mul2IsIdentity(p, q, r, s, s * d, -q * d, -r * d, p * d);
    Mul2IsIdentity(s * d, -q * d, -r * d, p * d, p, q, r, s);
  }

  /** What is computed is a two-sided inverse. */
  lemma Inverse2Correct(m: Matrix)
    requires m.Is(2, 2) && !Singular2(m)
    ensures Mul(m, Inverse2(m)) == Identity(2) == Mul(Inverse2(m), m)
  {
    hide Mul, Identity, Adjugate;
    Ext2(m, Square2(m.At(0, 0), m.At(0, 1), m.At(1, 0), m.At(1, 1)));
    AdjugateInverts(m.At(0, 0), m.At(0, 1), m.At(1, 0), m.At(1, 1), 1.0 / Det2(m));
  }
}
