/** Real matrices, their flat row-major layout, and their algebra. */
module Matrices {
  import opened Indices
  import opened Sums

  datatype Matrix = Grid(rows: nat, cols: nat, lines: seq<seq<real>>) {
    predicate Valid() { |lines| == rows && forall i | 0 <= i < rows :: |lines[i]| == cols }

    predicate Is(m: nat, n: nat) { rows == m && cols == n && Valid() }

    /** Entry (i, j), and zero outside the matrix. */
    function At(i: int, j: int): real {
      if 0 <= i < |lines| && 0 <= j < |lines[i]| then lines[i][j] else 0.0
    }
  }

  function Make(m: nat, n: nat, f: (int, int) -> real): (r: Matrix)
    ensures r.Is(m, n)
    ensures forall i, j | 0 <= i < m && 0 <= j < n :: r.At(i, j) == f(i, j)
  {
    Grid(m, n, seq(m, i requires 0 <= i < m => seq(n, j requires 0 <= j < n => f(i, j))))
  }

  /** Two matrices with the same shape and the same entries are the same matrix. */
  lemma Ext(a: Matrix, b: Matrix)
    requires a.Valid() && b.Is(a.rows, a.cols)
    requires forall i, j | 0 <= i < a.rows && 0 <= j < a.cols :: a.At(i, j) == b.At(i, j)
    ensures a == b
  {
    forall i | 0 <= i < a.rows ensures a.lines[i] == b.lines[i] {
      forall j | 0 <= j < a.cols ensures a.lines[i][j] == b.lines[i][j] {
        assert a.At(i, j) == b.At(i, j);
      }
    }
  }

  /** The matrix a buffer holds in row-major order: entry (i, j) is cell i * n + j. */
  function Flat(m: nat, n: nat, c: seq<real>): (r: Matrix)
    ensures r.Is(m, n)
  {
    Make(m, n, (i, j) => if 0 <= i * n + j < |c| then c[i * n + j] else 0.0)
  }

  lemma CellAt(c: seq<real>, m: nat, n: nat, i: int, j: int)
    requires |c| == m * n && 0 <= i < m && 0 <= j < n
    ensures 0 <= i * n + j < |c| && Flat(m, n, c).At(i, j) == c[i * n + j]
  {
    IndexInRange(i, j, m, n);
  }

  /** A buffer holds a matrix when each of its cells does. */
  lemma FlatIs(c: seq<real>, m: nat, n: nat, a: Matrix)
    requires |c| == m * n && a.Is(m, n)
    requires forall i, j | 0 <= i < m && 0 <= j < n && 0 <= i * n + j < |c| :: c[i * n + j] == a.At(i, j)
    ensures Flat(m, n, c) == a
  {
    forall i, j | 0 <= i < m && 0 <= j < n ensures Flat(m, n, c).At(i, j) == a.At(i, j) {
      CellAt(c, m, n, i, j);
    }
    Ext(Flat(m, n, c), a);
  }

  /** The row-major buffer of a matrix. */
  function Cells(a: Matrix): (c: seq<real>)
    ensures |c| == a.rows * a.cols
  {
    seq(a.rows * a.cols, t requires 0 <= t < a.rows * a.cols =>
      IndexSplit(t, a.rows, a.cols);
      a.At(t / a.cols, t % a.cols))
  }

  lemma CellsAt(a: Matrix, m: nat, n: nat, i: int, j: int)
    requires a.Is(m, n) && 0 <= i < m && 0 <= j < n
    ensures 0 <= i * n + j < |Cells(a)| && Cells(a)[i * n + j] == a.At(i, j)
  {
    IndexInRange(i, j, m, n);
    IndexJoin(i, j, n);
  }

  lemma FlatOfCells(a: Matrix, m: nat, n: nat)
    requires a.Is(m, n)
    ensures Flat(m, n, Cells(a)) == a
  {
    hide Cells;
    forall i, j | 0 <= i < m && 0 <= j < n && 0 <= i * n + j < |Cells(a)| ensures Cells(a)[i * n + j] == a.At(i, j) {
      CellsAt(a, m, n, i, j);
    }
    FlatIs(Cells(a), m, n, a);
  }

  /** Multiplication of entries, named so that proofs can hide it from non-linear reasoning. */
  function Times(x: real, y: real): real { x * y }

  /** The terms of the dot product of row i of a with column j of b. */
  function Terms(a: Matrix, b: Matrix, i: int, j: int): int -> real {
    l => Times(a.At(i, l), b.At(l, j))
  }

  function Mul(a: Matrix, b: Matrix): (r: Matrix)
    ensures r.Is(a.rows, b.cols)
    ensures forall i, j | 0 <= i < a.rows && 0 <= j < b.cols :: r.At(i, j) == Sum(Terms(a, b, i, j), a.cols)
  {
    Make(a.rows, b.cols, (i, j) => Sum(Terms(a, b, i, j), a.cols))
  }

  function Add(a: Matrix, b: Matrix): (r: Matrix)
    ensures r.Is(a.rows, a.cols)
    ensures forall i, j | 0 <= i < a.rows && 0 <= j < a.cols :: r.At(i, j) == a.At(i, j) + b.At(i, j)
  {
    Make(a.rows, a.cols, (i, j) => a.At(i, j) + b.At(i, j))
  }

  function Sub(a: Matrix, b: Matrix): (r: Matrix)
    ensures r.Is(a.rows, a.cols)
    ensures forall i, j | 0 <= i < a.rows && 0 <= j < a.cols :: r.At(i, j) == a.At(i, j) - b.At(i, j)
  {
    Make(a.rows, a.cols, (i, j) => a.At(i, j) - b.At(i, j))
  }

  function Scale(c: real, a: Matrix): (r: Matrix)
    ensures r.Is(a.rows, a.cols)
    ensures forall i, j | 0 <= i < a.rows && 0 <= j < a.cols :: r.At(i, j) == Times(c, a.At(i, j))
  {
    hide Times;
    Make(a.rows, a.cols, (i, j) => Times(c, a.At(i, j)))
  }

  function Transpose(a: Matrix): (r: Matrix)
    ensures r.Is(a.cols, a.rows)
    ensures forall i, j | 0 <= i < a.cols && 0 <= j < a.rows :: r.At(i, j) == a.At(j, i)
  {
    Make(a.cols, a.rows, (i, j) => a.At(j, i))
  }

  function Identity(n: nat): (r: Matrix)
    ensures r.Is(n, n)
    ensures forall i, j | 0 <= i < n && 0 <= j < n :: r.At(i, j) == if i == j then 1.0 else 0.0
  {
    Make(n, n, (i, j) => if i == j then 1.0 else 0.0)
  }

  predicate Symmetric(a: Matrix) { a.rows == a.cols && Transpose(a) == a }

  function Triple(a: Matrix, b: Matrix, c: Matrix, i: int, p: int, q: int, j: int): real {
    Times(Times(a.At(i, p), b.At(p, q)), c.At(q, j))
  }

  lemma TripleLeft(a: Matrix, b: Matrix, c: Matrix, i: int, q: int, j: int)
    requires a.cols == b.rows && 0 <= i < a.rows && 0 <= q < b.cols
    ensures Terms(Mul(a, b), c, i, j)(q) == Sum(p => Triple(a, b, c, i, p, q, j), a.cols)
  {
    hide Mul, Times;
    var f := p => Triple(a, b, c, i, p, q, j);
    forall p | 0 <= p < a.cols ensures f(p) == Times(c.At(q, j), Terms(a, b, i, q)(p)) {
      TimesCommutes(c.At(q, j), Terms(a, b, i, q)(p));
    }
    SumTimes(c.At(q, j), Terms(a, b, i, q), f, a.cols);
    TimesCommutes(c.At(q, j), Sum(Terms(a, b, i, q), a.cols));
  }

  lemma TripleRight(a: Matrix, b: Matrix, c: Matrix, i: int, p: int, j: int)
    requires b.cols == c.rows && 0 <= p < b.rows && 0 <= j < c.cols
    ensures Terms(a, Mul(b, c), i, j)(p) == Sum(q => Triple(a, b, c, i, p, q, j), b.cols)
  {
    hide Mul, Times;
    var f := q => Triple(a, b, c, i, p, q, j);
    forall q | 0 <= q < b.cols ensures f(q) == Times(a.At(i, p), Terms(b, c, p, j)(q)) {
      TimesAssoc(a.At(i, p), b.At(p, q), c.At(q, j));
    }
    SumTimes(a.At(i, p), Terms(b, c, p, j), f, b.cols);
  }

  lemma TimesCommutes(x: real, y: real)
    ensures Times(x, y) == Times(y, x)
  {
  }

  lemma MulAssoc(a: Matrix, b: Matrix, c: Matrix)
    requires a.cols == b.rows && b.cols == c.rows
    ensures Mul(Mul(a, b), c) == Mul(a, Mul(b, c))
  {
    hide Terms, Triple;
    var ab, bc := Mul(a, b), Mul(b, c);
    var l, r := Mul(ab, c), Mul(a, bc);
    forall i, j | 0 <= i < l.rows && 0 <= j < l.cols ensures l.At(i, j) == r.At(i, j) {
      var t := (q: int, p: int) => Triple(a, b, c, i, p, q, j);
      var f, g := (q: int) => Sum(p => t(q, p), a.cols), (p: int) => Sum(q => t(q, p), b.cols);
      forall q | 0 <= q < b.cols ensures Terms(ab, c, i, j)(q) == f(q) {
        TripleLeft(a, b, c, i, q, j);
        SumExt(p => t(q, p), p => Triple(a, b, c, i, p, q, j), a.cols);
      }
      forall p | 0 <= p < a.cols ensures Terms(a, bc, i, j)(p) == g(p) {
        TripleRight(a, b, c, i, p, j);
        SumExt(q => t(q, p), q => Triple(a, b, c, i, p, q, j), b.cols);
      }
      SumExt(Terms(ab, c, i, j), f, b.cols);
      SumExt(Terms(a, bc, i, j), g, a.cols);
      SumSwap(t, b.cols, a.cols);
    }
    Ext(l, r);
  }

  lemma MulAddLeft(a: Matrix, b: Matrix, c: Matrix)
    requires a.rows == b.rows && a.cols == b.cols == c.rows
    ensures Mul(Add(a, b), c) == Add(Mul(a, c), Mul(b, c))
  {
    var l, r := Mul(Add(a, b), c), Add(Mul(a, c), Mul(b, c));
    forall i, j | 0 <= i < l.rows && 0 <= j < l.cols ensures l.At(i, j) == r.At(i, j) {
      SumAdd(Terms(a, c, i, j), Terms(b, c, i, j), Terms(Add(a, b), c, i, j), a.cols);
    }
    Ext(l, r);
  }

  lemma MulAddRight(a: Matrix, b: Matrix, c: Matrix)
    requires a.cols == b.rows == c.rows && b.cols == c.cols
    ensures Mul(a, Add(b, c)) == Add(Mul(a, b), Mul(a, c))
  {
    var l, r := Mul(a, Add(b, c)), Add(Mul(a, b), Mul(a, c));
    forall i, j | 0 <= i < l.rows && 0 <= j < l.cols ensures l.At(i, j) == r.At(i, j) {
      SumAdd(Terms(a, b, i, j), Terms(a, c, i, j), Terms(a, Add(b, c), i, j), a.cols);
    }
    Ext(l, r);
  }

  lemma MulSubLeft(a: Matrix, b: Matrix, c: Matrix)
    requires a.rows == b.rows && a.cols == b.cols == c.rows
    ensures Mul(Sub(a, b), c) == Sub(Mul(a, c), Mul(b, c))
  {
    var l, r := Mul(Sub(a, b), c), Sub(Mul(a, c), Mul(b, c));
    forall i, j | 0 <= i < l.rows && 0 <= j < l.cols ensures l.At(i, j) == r.At(i, j) {
      SumSub(Terms(a, c, i, j), Terms(b, c, i, j), Terms(Sub(a, b), c, i, j), a.cols);
    }
    Ext(l, r);
  }

  lemma MulSubRight(a: Matrix, b: Matrix, c: Matrix)
    requires a.cols == b.rows == c.rows && b.cols == c.cols
    ensures Mul(a, Sub(b, c)) == Sub(Mul(a, b), Mul(a, c))
  {
    var l, r := Mul(a, Sub(b, c)), Sub(Mul(a, b), Mul(a, c));
    forall i, j | 0 <= i < l.rows && 0 <= j < l.cols ensures l.At(i, j) == r.At(i, j) {
      SumSub(Terms(a, b, i, j), Terms(a, c, i, j), Terms(a, Sub(b, c), i, j), a.cols);
    }
    Ext(l, r);
  }

  lemma MulScaleLeft(s: real, a: Matrix, b: Matrix)
    requires a.cols == b.rows
    ensures Mul(Scale(s, a), b) == Scale(s, Mul(a, b))
  {
    hide Times;
    var l, r := Mul(Scale(s, a), b), Scale(s, Mul(a, b));
    forall i, j | 0 <= i < l.rows && 0 <= j < l.cols ensures l.At(i, j) == r.At(i, j) {
      forall k | 0 <= k < a.cols ensures Terms(Scale(s, a), b, i, j)(k) == Times(s, Terms(a, b, i, j)(k)) {
        TimesAssoc(s, a.At(i, k), b.At(k, j));
      }
      SumTimes(s, Terms(a, b, i, j), Terms(Scale(s, a), b, i, j), a.cols);
    }
    Ext(l, r);
  }

  lemma MulScaleRight(s: real, a: Matrix, b: Matrix)
    requires a.cols == b.rows
    ensures Mul(a, Scale(s, b)) == Scale(s, Mul(a, b))
  {
    hide Times;
    var l, r := Mul(a, Scale(s, b)), Scale(s, Mul(a, b));
    forall i, j | 0 <= i < l.rows && 0 <= j < l.cols ensures l.At(i, j) == r.At(i, j) {
      forall k | 0 <= k < a.cols ensures Terms(a, Scale(s, b), i, j)(k) == Times(s, Terms(a, b, i, j)(k)) {
        TimesAssoc(s, a.At(i, k), b.At(k, j));
      }
      SumTimes(s, Terms(a, b, i, j), Terms(a, Scale(s, b), i, j), a.cols);
    }
    Ext(l, r);
  }

  lemma SumTimes(s: real, f: int -> real, h: int -> real, n: nat)
    requires forall i | 0 <= i < n :: h(i) == Times(s, f(i))
    ensures Sum(h, n) == Times(s, Sum(f, n))
  {
    forall i | 0 <= i < n ensures h(i) == s * f(i) {
    }
    SumScale(s, f, h, n);
  }

  lemma TimesAssoc(s: real, x: real, y: real)
    ensures Times(Times(s, x), y) == Times(s, Times(x, y)) == Times(x, Times(s, y))
  {
  }

  lemma ZeroTimes()
    ensures forall x {:trigger Times(0.0, x)} {:trigger Times(x, 0.0)} :: Times(0.0, x) == 0.0 == Times(x, 0.0)
    ensures forall x {:trigger Times(1.0, x)} {:trigger Times(x, 1.0)} :: Times(1.0, x) == x == Times(x, 1.0)
  {
  }

  lemma MulIdentity(a: Matrix)
    requires a.Valid()
    ensures Mul(Identity(a.rows), a) == a == Mul(a, Identity(a.cols))
  {
    hide Times;
    var l, r := Mul(Identity(a.rows), a), Mul(a, Identity(a.cols));
    ZeroTimes();
    forall i, j | 0 <= i < a.rows && 0 <= j < a.cols ensures l.At(i, j) == a.At(i, j) == r.At(i, j) {
      SumSingle(Terms(Identity(a.rows), a, i, j), i, a.rows);
      SumSingle(Terms(a, Identity(a.cols), i, j), j, a.cols);
    }
    Ext(l, a);
    Ext(r, a);
  }

  lemma TransposeInvolution(a: Matrix)
    requires a.Valid()
    ensures Transpose(Transpose(a)) == a
  {
    Ext(Transpose(Transpose(a)), a);
  }

  lemma TransposeMul(a: Matrix, b: Matrix)
    requires a.cols == b.rows
    ensures Transpose(Mul(a, b)) == Mul(Transpose(b), Transpose(a))
  {
    hide Times;
    var l, r := Transpose(Mul(a, b)), Mul(Transpose(b), Transpose(a));
    forall i, j | 0 <= i < l.rows && 0 <= j < l.cols ensures l.At(i, j) == r.At(i, j) {
      forall k | 0 <= k < a.cols
        ensures Terms(a, b, j, i)(k) == Terms(Transpose(b), Transpose(a), i, j)(k)
      {
        TimesCommutes(a.At(j, k), b.At(k, i));
      }
      SumExt(Terms(a, b, j, i), Terms(Transpose(b), Transpose(a), i, j), a.cols);
    }
    Ext(l, r);
  }

  lemma TransposeLinear(a: Matrix, b: Matrix)
    requires a.rows == b.rows && a.cols == b.cols
    ensures Transpose(Add(a, b)) == Add(Transpose(a), Transpose(b))
    ensures Transpose(Sub(a, b)) == Sub(Transpose(a), Transpose(b))
  {
    Ext(Transpose(Add(a, b)), Add(Transpose(a), Transpose(b)));
    Ext(Transpose(Sub(a, b)), Sub(Transpose(a), Transpose(b)));
  }

  lemma TransposeIdentity(n: nat)
    ensures Symmetric(Identity(n))
  {
    Ext(Transpose(Identity(n)), Identity(n));
  }
}
