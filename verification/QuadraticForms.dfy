/** Quadratic forms and positive definiteness, over matrices of any size. */
module QuadraticForms {
  import opened Sums
  import opened Matrices

  /** v^T * p * v for a column v. */
  function Quad(p: Matrix, v: Matrix): real {
    Mul(Transpose(v), Mul(p, v)).At(0, 0)
  }

  predicate NonZero(v: Matrix) {
    exists i | 0 <= i < v.rows :: v.At(i, 0) != 0.0
  }

  ghost predicate PosDef(p: Matrix) {
    p.Is(p.rows, p.rows) && forall v: Matrix | v.Is(p.rows, 1) && NonZero(v) :: Quad(p, v) > 0.0
  }

  /** Symmetric positive definite of size n. */
  ghost predicate Spd(p: Matrix, n: nat) {
    p.Is(n, n) && Symmetric(p) && PosDef(p)
  }

  lemma QuadAdd(p: Matrix, q: Matrix, v: Matrix)
    requires p.Is(v.rows, v.rows) && q.Is(v.rows, v.rows) && v.Is(v.rows, 1)
    ensures Quad(Add(p, q), v) == Quad(p, v) + Quad(q, v)
  {
    MulAddLeft(p, q, v);
    MulAddRight(Transpose(v), Mul(p, v), Mul(q, v));
  }

  lemma QuadSub(p: Matrix, q: Matrix, v: Matrix)
    requires p.Is(v.rows, v.rows) && q.Is(v.rows, v.rows) && v.Is(v.rows, 1)
    ensures Quad(Sub(p, q), v) == Quad(p, v) - Quad(q, v)
  {
    MulSubLeft(p, q, v);
    MulSubRight(Transpose(v), Mul(p, v), Mul(q, v));
  }

  lemma QuadScale(c: real, p: Matrix, v: Matrix)
    requires p.Is(v.rows, v.rows) && v.Is(v.rows, 1)
    ensures Quad(Scale(c, p), v) == Times(c, Quad(p, v))
  {
    hide Times;
    MulScaleLeft(c, p, v);
    MulScaleRight(c, Transpose(v), Mul(p, v));
  }

  /** The form of a congruent matrix is the form at the transformed vector. */
  lemma QuadCongruence(f: Matrix, p: Matrix, v: Matrix)
    requires f.Valid() && p.Is(f.cols, f.cols) && v.Is(f.rows, 1)
    ensures Quad(Mul(Mul(f, p), Transpose(f)), v) == Quad(p, Mul(Transpose(f), v))
  {
    hide Mul, Transpose;
    var ft, vt := Transpose(f), Transpose(v);
    var w := Mul(ft, v);
    MulAssoc(Mul(f, p), ft, v);
    MulAssoc(f, p, w);
    MulAssoc(vt, f, Mul(p, w));
    TransposeMul(ft, v);
    TransposeInvolution(f);
  }

  /** The form of the identity is the sum of squares. */
  lemma QuadIdentity(v: Matrix)
    requires v.Is(v.rows, 1)
    ensures Quad(Identity(v.rows), v) >= 0.0
    ensures NonZero(v) ==> Quad(Identity(v.rows), v) > 0.0
  {
    hide Times;
    MulIdentity(v);
    var t := Terms(Transpose(v), v, 0, 0);
    forall i | 0 <= i < v.rows ensures t(i) >= 0.0 && (v.At(i, 0) != 0.0 ==> t(i) > 0.0) {
      Square(v.At(i, 0));
    }
    SumNonNegative(t, v.rows);
    if NonZero(v) {
      var i :| 0 <= i < v.rows && v.At(i, 0) != 0.0;
    }
  }

  lemma Square(x: real)
    ensures Times(x, x) >= 0.0 && (x != 0.0 ==> Times(x, x) > 0.0)
  {
    if x > 0.0 {
      PositiveTimes(x, x);
    } else if x < 0.0 {
      PositiveTimes(-x, -x);
      assert Times(-x, -x) == Times(x, x);
    }
  }

  lemma QuadZero(p: Matrix, v: Matrix)
    requires p.Is(v.rows, v.rows) && v.Is(v.rows, 1) && !NonZero(v)
    ensures Quad(p, v) == 0.0
  {
    SumZero(Terms(Transpose(v), Mul(p, v), 0, 0), v.rows);
  }

  lemma PosDefNonNegative(p: Matrix, v: Matrix)
    requires PosDef(p) && v.Is(p.rows, 1)
    ensures Quad(p, v) >= 0.0
  {
    hide Quad;
    if !NonZero(v) {
      QuadZero(p, v);
    }
  }

  lemma CongruenceSymmetric(f: Matrix, p: Matrix)
    requires f.Valid() && p.Is(f.cols, f.cols) && Symmetric(p)
    ensures Symmetric(Mul(Mul(f, p), Transpose(f)))
  {
    hide Mul, Transpose;
    TransposeMul(Mul(f, p), Transpose(f));
    TransposeInvolution(f);
    TransposeMul(f, p);
    MulAssoc(f, p, Transpose(f));
  }

  lemma AddSymmetric(p: Matrix, q: Matrix)
    requires p.Valid() && q.Is(p.rows, p.cols) && Symmetric(p) && Symmetric(q)
    ensures Symmetric(Add(p, q))
  {
    TransposeLinear(p, q);
  }

  lemma ScaledIdentitySymmetric(c: real, n: nat)
    ensures Symmetric(Scale(c, Identity(n)))
  {
    var m := Scale(c, Identity(n));
    Ext(Transpose(m), m);
  }

  /** Prediction keeps a covariance symmetric positive definite, whatever the transition matrix. */
  lemma PredictSpd(f: Matrix, p: Matrix, q: real, n: nat)
    requires f.Is(n, n) && Spd(p, n) && q > 0.0
    ensures Spd(Add(Mul(Mul(f, p), Transpose(f)), Scale(q, Identity(n))), n)
  {
    hide Mul, Transpose, Add, Scale, Identity, Quad, NonZero, Symmetric;
    var fpf, noise := Mul(Mul(f, p), Transpose(f)), Scale(q, Identity(n));
    CongruenceSymmetric(f, p);
    ScaledIdentitySymmetric(q, n);
    AddSymmetric(fpf, noise);
    forall v: Matrix | v.Is(n, 1) && NonZero(v) ensures Quad(Add(fpf, noise), v) > 0.0 {
      QuadAdd(fpf, noise, v);
      QuadCongruence(f, p, v);
      PosDefNonNegative(p, Mul(Transpose(f), v));
      QuadScale(q, Identity(n), v);
      QuadIdentity(v);
      PositiveTimes(q, Quad(Identity(n), v));
    }
  }

  lemma PositiveTimes(x: real, y: real)
    requires x > 0.0 && y > 0.0
    ensures Times(x, y) > 0.0
  {
  }
}
