/**
 The measurement update of a Kalman filter of any dimensions: the covariance the code computes,
 (I - K*H)*P, against the Joseph form and against the prior covariance.
 */
module KalmanAlgebra {
  import opened Matrices
  import opened QuadraticForms

  /** S = H*P*H^T + R. */
  function Innovation(p: Matrix, h: Matrix, r: Matrix): (s: Matrix)
    ensures s.Is(h.rows, h.rows)
  {
    Add(Mul(Mul(h, p), Transpose(h)), r)
  }

  /** K = P * (H^T * S^-1). */
  function Gain(p: Matrix, h: Matrix, sInv: Matrix): (k: Matrix)
    ensures k.Is(p.rows, sInv.cols)
  {
    Mul(p, Mul(Transpose(h), sInv))
  }

  function Complement(k: Matrix, h: Matrix): (a: Matrix)
    ensures a.Is(k.rows, k.rows)
  {
    Sub(Identity(k.rows), Mul(k, h))
  }

  /** (I - K*H) * P, as the source computes it. */
  function Posterior(p: Matrix, h: Matrix, k: Matrix): (q: Matrix)
    ensures q.Is(k.rows, p.cols)
  {
    Mul(Complement(k, h), p)
  }

  /** A*P*A^T + K*R*K^T with A = I - K*H. */
  function JosephForm(p: Matrix, h: Matrix, r: Matrix, k: Matrix): (q: Matrix)
    ensures q.Is(k.rows, k.rows)
  {
    var a := Complement(k, h);
    Add(Mul(Mul(a, p), Transpose(a)), Mul(Mul(k, r), Transpose(k)))
  }

  predicate Sized(p: Matrix, h: Matrix, r: Matrix, sInv: Matrix, n: nat, m: nat) {
    p.Is(n, n) && h.Is(m, n) && r.Is(m, m) && sInv.Is(m, m)
  }

  /** sInv is the inverse of the innovation covariance. */
  predicate Inverts(sInv: Matrix, s: Matrix) {
    Mul(sInv, s) == Identity(s.rows) && Mul(s, sInv) == Identity(s.rows)
  }

  /** The gain carries the innovation covariance back to P*H^T. */
  lemma GainTimesInnovation(p: Matrix, h: Matrix, r: Matrix, sInv: Matrix, n: nat, m: nat)
    requires Sized(p, h, r, sInv, n, m) && Inverts(sInv, Innovation(p, h, r))
    ensures Mul(Gain(p, h, sInv), Innovation(p, h, r)) == Mul(p, Transpose(h))
  {
    hide Mul, Transpose, Identity, Innovation;
    var s, ht := Innovation(p, h, r), Transpose(h);
    MulAssoc(p, Mul(ht, sInv), s);
    MulAssoc(ht, sInv, s);
    MulIdentity(ht);
  }

  /** (I - K*H)*P*H^T = K*R. */
  lemma PosteriorTimesObservation(p: Matrix, h: Matrix, r: Matrix, sInv: Matrix, n: nat, m: nat)
    requires Sized(p, h, r, sInv, n, m) && Inverts(sInv, Innovation(p, h, r))
    ensures Mul(Posterior(p, h, Gain(p, h, sInv)), Transpose(h)) == Mul(Gain(p, h, sInv), r)
  {
    hide Mul, Transpose, Identity, Gain, Add, Sub;
    var k, s, ht := Gain(p, h, sInv), Innovation(p, h, r), Transpose(h);
    var pht, hpht := Mul(p, ht), Mul(Mul(h, p), ht);
    MulAssoc(Complement(k, h), p, ht);
    MulSubLeft(Identity(n), Mul(k, h), pht);
    MulIdentity(pht);
    MulAssoc(k, h, pht);
    MulAssoc(h, p, ht);
    assert Mul(Posterior(p, h, k), ht) == Sub(pht, Mul(k, hpht));
    GainTimesInnovation(p, h, r, sInv, n, m);
    MulAddRight(k, hpht, r);
    SubOfAdd(Mul(k, hpht), Mul(k, r));
  }

  lemma SubOfAdd(a: Matrix, b: Matrix)
    requires a.Valid() && b.Is(a.rows, a.cols)
    ensures Sub(Add(a, b), a) == b
  {
    Ext(Sub(Add(a, b), a), b);
  }

  lemma AddOfSub(a: Matrix, b: Matrix)
    requires a.Valid() && b.Is(a.rows, a.cols)
    ensures Add(Sub(a, b), b) == a
  {
    Ext(Add(Sub(a, b), b), a);
  }

  /** The computed covariance is the Joseph form. */
  lemma JosephIdentity(p: Matrix, h: Matrix, r: Matrix, sInv: Matrix, n: nat, m: nat)
    requires Sized(p, h, r, sInv, n, m) && Inverts(sInv, Innovation(p, h, r))
    ensures Posterior(p, h, Gain(p, h, sInv)) == JosephForm(p, h, r, Gain(p, h, sInv))
  {
    hide Mul, Transpose, Identity, Gain, Add, Sub, Innovation;
    var k := Gain(p, h, sInv);
    var q, ht, kt := Posterior(p, h, k), Transpose(h), Transpose(k);
    TransposeLinear(Identity(n), Mul(k, h));
    TransposeIdentity(n);
    TransposeMul(k, h);
    MulSubRight(q, Identity(n), Mul(ht, kt));
    MulIdentity(q);
    MulAssoc(q, ht, kt);
    PosteriorTimesObservation(p, h, r, sInv, n, m);
    AddOfSub(q, Mul(Mul(k, r), kt));
  }

  /** An update keeps a covariance symmetric positive definite. */
  lemma PosteriorSpd(p: Matrix, h: Matrix, r: Matrix, sInv: Matrix, n: nat, m: nat)
    requires Sized(p, h, r, sInv, n, m) && Inverts(sInv, Innovation(p, h, r))
    requires Spd(p, n) && Spd(r, m)
    ensures Spd(Posterior(p, h, Gain(p, h, sInv)), n)
  {
    hide Mul, Transpose, Identity, Gain, Add, Sub, Innovation, Symmetric, Complement, Quad, NonZero;
    var k := Gain(p, h, sInv);
    var a := Complement(k, h);
    var apa, krk := Mul(Mul(a, p), Transpose(a)), Mul(Mul(k, r), Transpose(k));
    JosephIdentity(p, h, r, sInv, n, m);
    CongruenceSymmetric(a, p);
    CongruenceSymmetric(k, r);
    AddSymmetric(apa, krk);
    forall v: Matrix | v.Is(n, 1) && NonZero(v) ensures Quad(Add(apa, krk), v) > 0.0 {
      var w, u := Mul(Transpose(a), v), Mul(Transpose(k), v);
      QuadAdd(apa, krk, v);
      QuadCongruence(a, p, v);
      QuadCongruence(k, r, v);
      PosDefNonNegative(p, w);
      PosDefNonNegative(r, u);
      SplitVector(k, h, v);
    }
  }

  /** v = A^T v + H^T (K^T v), so the two parts cannot both vanish. */
  lemma SplitVector(k: Matrix, h: Matrix, v: Matrix)
    requires k.Valid() && h.Is(k.cols, k.rows) && v.Is(k.rows, 1) && NonZero(v)
    ensures NonZero(Mul(Transpose(Complement(k, h)), v)) || NonZero(Mul(Transpose(k), v))
  {
    hide Mul, Transpose, Identity, Add, Sub;
    var ht, kt := Transpose(h), Transpose(k);
    var w, u := Mul(Transpose(Complement(k, h)), v), Mul(kt, v);
    TransposeLinear(Identity(k.rows), Mul(k, h));
    TransposeIdentity(k.rows);
    TransposeMul(k, h);
    MulSubLeft(Identity(k.rows), Mul(ht, kt), v);
    MulIdentity(v);
    MulAssoc(ht, kt, v);
    assert w == Sub(v, Mul(ht, u));
    if !NonZero(u) {
      MulZero(ht, u);
      var i :| 0 <= i < v.rows && v.At(i, 0) != 0.0;
      SubAt(v, Mul(ht, u), i);
    }
  }

  lemma MulZero(a: Matrix, u: Matrix)
    requires u.Is(a.cols, 1) && !NonZero(u)
    ensures !NonZero(Mul(a, u))
  {
    forall i | 0 <= i < a.rows ensures Mul(a, u).At(i, 0) == 0.0 {
      Sums.SumZero(Terms(a, u, i, 0), a.cols);
    }
  }

  lemma SubAt(a: Matrix, b: Matrix, i: int)
    requires a.Is(a.rows, 1) && 0 <= i < a.rows
    ensures Sub(a, b).At(i, 0) == a.At(i, 0) - b.At(i, 0)
  {
  }

  /** The inverse of a symmetric matrix is symmetric. */
  lemma InverseSymmetric(sInv: Matrix, s: Matrix)
    requires sInv.Is(s.rows, s.rows) && s.Is(s.rows, s.rows) && Symmetric(s) && Inverts(sInv, s)
    ensures Symmetric(sInv)
  {
    hide Mul, Transpose, Identity;
    var t := Transpose(sInv);
    TransposeMul(s, sInv);
    TransposeIdentity(s.rows);
    MulAssoc(t, s, sInv);
    MulIdentity(t);
    MulIdentity(sInv);
  }

  lemma InnovationSpd(p: Matrix, h: Matrix, r: Matrix, n: nat, m: nat)
    requires Spd(p, n) && h.Is(m, n) && Spd(r, m)
    ensures Spd(Innovation(p, h, r), m)
  {
    hide Mul, Transpose, Add, Symmetric, Quad, NonZero;
    var hph := Mul(Mul(h, p), Transpose(h));
    CongruenceSymmetric(h, p);
    AddSymmetric(hph, r);
    forall v: Matrix | v.Is(m, 1) && NonZero(v) ensures Quad(Add(hph, r), v) > 0.0 {
      QuadAdd(hph, r, v);
      QuadCongruence(h, p, v);
      PosDefNonNegative(p, Mul(Transpose(h), v));
    }
  }

  /** The inverse of a positive definite matrix has a non-negative form. */
  lemma InverseNonNegative(sInv: Matrix, s: Matrix, w: Matrix)
    requires sInv.Is(s.rows, s.rows) && Spd(s, s.rows) && Inverts(sInv, s) && w.Is(s.rows, 1)
    ensures Quad(sInv, w) >= 0.0
  {
    hide Mul, Transpose, Identity, Quad;
    InverseSymmetric(sInv, s);
    MulIdentity(sInv);
    QuadCongruence(sInv, s, w);
    PosDefNonNegative(s, Mul(sInv, w));
  }

  /** What the update subtracts from P is (P*H^T) * S^-1 * (P*H^T)^T. */
  lemma PosteriorAsDowndate(p: Matrix, h: Matrix, sInv: Matrix, n: nat, m: nat)
    requires p.Is(n, n) && h.Is(m, n) && sInv.Is(m, m) && Symmetric(p)
    ensures var g := Mul(p, Transpose(h));
            Posterior(p, h, Gain(p, h, sInv)) == Sub(p, Mul(Mul(g, sInv), Transpose(g)))
  {
    hide Mul, Transpose, Identity, Sub;
    var k, ht := Gain(p, h, sInv), Transpose(h);
    var g := Mul(p, ht);
    MulSubLeft(Identity(n), Mul(k, h), p);
    MulIdentity(p);
    MulAssoc(k, h, p);
    MulAssoc(p, ht, sInv);
    TransposeMul(p, ht);
    TransposeInvolution(h);
  }

  /** An update never increases the uncertainty in any direction. */
  lemma UpdateNeverIncreases(p: Matrix, h: Matrix, r: Matrix, sInv: Matrix, n: nat, m: nat, v: Matrix)
    requires Sized(p, h, r, sInv, n, m) && Inverts(sInv, Innovation(p, h, r))
    requires Spd(p, n) && Spd(r, m) && v.Is(n, 1)
    ensures Quad(Posterior(p, h, Gain(p, h, sInv)), v) <= Quad(p, v)
  {
    hide Mul, Transpose, Identity, Sub, Innovation, Gain, Posterior, Quad;
    var g := Mul(p, Transpose(h));
    PosteriorAsDowndate(p, h, sInv, n, m);
    QuadSub(p, Mul(Mul(g, sInv), Transpose(g)), v);
    QuadCongruence(g, sInv, v);
    InnovationSpd(p, h, r, n, m);
    InverseNonNegative(sInv, Innovation(p, h, r), Mul(Transpose(g), v));
  }
  // ---- the gain of the code against every other gain

  /** K*S*L^T, the weight of the innovation between two gains. */
  function Weighed(k: Matrix, s: Matrix, l: Matrix): (w: Matrix)
    ensures w.Is(k.rows, l.rows)
  {
    Mul(Mul(k, s), Transpose(l))
  }

  /** The Joseph form of any gain L, with G = P*H^T: P - L*G^T - G*L^T + L*S*L^T. */
  lemma JosephExpanded(p: Matrix, h: Matrix, r: Matrix, l: Matrix, n: nat, m: nat)
    requires p.Is(n, n) && h.Is(m, n) && r.Is(m, m) && l.Is(n, m) && Symmetric(p)
    ensures var g := Mul(p, Transpose(h));
      JosephForm(p, h, r, l) ==
      Add(Sub(Sub(p, Mul(l, Transpose(g))), Mul(g, Transpose(l))), Weighed(l, Innovation(p, h, r), l))
  {
    hide Mul, Transpose, Identity, Add, Sub;
    var ht, lt := Transpose(h), Transpose(l);
    var g, q, hph := Mul(p, ht), Posterior(p, h, l), Mul(Mul(h, p), ht);
    TransposeLinear(Identity(n), Mul(l, h));
    TransposeIdentity(n);
    TransposeMul(l, h);
    MulSubRight(q, Identity(n), Mul(ht, lt));
    MulIdentity(q);
    MulAssoc(q, ht, lt);
    PosteriorExpanded(p, h, l, n, m);
    MulAssoc(Sub(p, Mul(l, Transpose(g))), ht, lt);
    MulSubLeft(p, Mul(l, Transpose(g)), ht);
    ObservedColumns(p, h, l, n, m);
    MulSubLeft(g, Mul(l, hph), lt);
    MulAddRight(l, hph, r);
    MulAddLeft(Mul(l, hph), Mul(l, r), lt);
    Regroup(p, Mul(l, Transpose(g)), Mul(g, lt), Mul(Mul(l, hph), lt), Mul(Mul(l, r), lt));
  }

  /** (I - L*H)*P = P - L*G^T. */
  lemma PosteriorExpanded(p: Matrix, h: Matrix, l: Matrix, n: nat, m: nat)
    requires p.Is(n, n) && h.Is(m, n) && l.Is(n, m) && Symmetric(p)
    ensures Posterior(p, h, l) == Sub(p, Mul(l, Transpose(Mul(p, Transpose(h)))))
  {
    hide Mul, Transpose, Identity, Sub;
    MulSubLeft(Identity(n), Mul(l, h), p);
    MulIdentity(p);
    MulAssoc(l, h, p);
    TransposeMul(p, Transpose(h));
    TransposeInvolution(h);
  }

  /** L*G^T*H^T = L*(H*P*H^T). */
  lemma ObservedColumns(p: Matrix, h: Matrix, l: Matrix, n: nat, m: nat)
    requires p.Is(n, n) && h.Is(m, n) && l.Is(n, m) && Symmetric(p)
    ensures Mul(Mul(l, Transpose(Mul(p, Transpose(h)))), Transpose(h)) == Mul(l, Mul(Mul(h, p), Transpose(h)))
  {
    hide Mul, Transpose;
    TransposeMul(p, Transpose(h));
    TransposeInvolution(h);
    MulAssoc(l, Mul(h, p), Transpose(h));
  }

  lemma Regroup(p: Matrix, a: Matrix, b: Matrix, c: Matrix, d: Matrix)
    requires p.Valid() && a.Is(p.rows, p.cols) && b.Is(p.rows, p.cols) && c.Is(p.rows, p.cols) && d.Is(p.rows, p.cols)
    ensures Add(Sub(Sub(p, a), Sub(b, c)), d) == Add(Sub(Sub(p, a), b), Add(c, d))
  {
    Ext(Add(Sub(Sub(p, a), Sub(b, c)), d), Add(Sub(Sub(p, a), b), Add(c, d)));
  }

  /** (L - K)*S*(L - K)^T = L*S*L^T - L*G^T - G*L^T + K*G^T when K*S = G. */
  lemma DeviationExpanded(k: Matrix, l: Matrix, s: Matrix, g: Matrix, n: nat, m: nat)
    requires k.Is(n, m) && l.Is(n, m) && s.Is(m, m) && g.Is(n, m) && Symmetric(s) && Mul(k, s) == g
    ensures Weighed(Sub(l, k), s, Sub(l, k)) ==
            Sub(Sub(Weighed(l, s, l), Mul(g, Transpose(l))), Sub(Mul(l, Transpose(g)), Mul(k, Transpose(g))))
  {
    hide Mul, Transpose, Sub;
    var kt, lt := Transpose(k), Transpose(l);
    TransposeMul(k, s);
    MulSubLeft(l, k, s);
    TransposeLinear(l, k);
    MulSubRight(Sub(Mul(l, s), g), lt, kt);
    MulSubLeft(Mul(l, s), g, lt);
    MulSubLeft(Mul(l, s), g, kt);
    MulAssoc(l, s, kt);
    MulAssoc(k, s, kt);
  }

  /** What any gain L leaves exceeds what the gain K of the code leaves by (L - K)*S*(L - K)^T. */
  lemma ExcessOfGain(p: Matrix, h: Matrix, r: Matrix, sInv: Matrix, l: Matrix, n: nat, m: nat)
    requires Sized(p, h, r, sInv, n, m) && Inverts(sInv, Innovation(p, h, r)) && l.Is(n, m)
    requires Symmetric(p) && Symmetric(Innovation(p, h, r))
    ensures var k, s := Gain(p, h, sInv), Innovation(p, h, r);
      JosephForm(p, h, r, l) == Add(Posterior(p, h, k), Weighed(Sub(l, k), s, Sub(l, k)))
  {
    hide Mul, Transpose, Identity, Sub, Add, Innovation, Gain, JosephForm, Posterior, Weighed, Symmetric, Inverts;
    var k, s, g := Gain(p, h, sInv), Innovation(p, h, r), Mul(p, Transpose(h));
    JosephExpanded(p, h, r, l, n, m);
    PosteriorExpanded(p, h, k, n, m);
    GainTimesInnovation(p, h, r, sInv, n, m);
    DeviationExpanded(k, l, s, g, n, m);
    Balance(p, Mul(l, Transpose(g)), Mul(g, Transpose(l)), Weighed(l, s, l), Mul(k, Transpose(g)));
  }

  lemma Balance(p: Matrix, a: Matrix, b: Matrix, c: Matrix, d: Matrix)
    requires p.Valid() && a.Is(p.rows, p.cols) && b.Is(p.rows, p.cols) && c.Is(p.rows, p.cols) && d.Is(p.rows, p.cols)
    ensures Add(Sub(Sub(p, a), b), c) == Add(Sub(p, d), Sub(Sub(c, b), Sub(a, d)))
  {
    Ext(Add(Sub(Sub(p, a), b), c), Add(Sub(p, d), Sub(Sub(c, b), Sub(a, d))));
  }

  /**
   The gain of the code is optimal: in every direction no gain leaves less uncertainty, and one that
   leaves as little in that direction corrects it in the same way.
   */
  lemma GainIsOptimal(p: Matrix, h: Matrix, r: Matrix, sInv: Matrix, l: Matrix, n: nat, m: nat, v: Matrix)
    requires Sized(p, h, r, sInv, n, m) && Inverts(sInv, Innovation(p, h, r)) && l.Is(n, m) && v.Is(n, 1)
    requires Spd(p, n) && Spd(r, m)
    ensures var k := Gain(p, h, sInv);
      && Quad(Posterior(p, h, k), v) <= Quad(JosephForm(p, h, r, l), v)
      && (Quad(Posterior(p, h, k), v) == Quad(JosephForm(p, h, r, l), v) <==>
            !NonZero(Mul(Transpose(Sub(l, k)), v)))
  {
    hide Mul, Transpose, Sub, Add, Innovation, Gain, JosephForm, Posterior, Quad, Symmetric, NonZero, Inverts;
    var k, s := Gain(p, h, sInv), Innovation(p, h, r);
    var d := Sub(l, k);
    var w := Mul(Transpose(d), v);
    InnovationSpd(p, h, r, n, m);
    ExcessOfGain(p, h, r, sInv, l, n, m);
    QuadAdd(Posterior(p, h, k), Weighed(d, s, d), v);
    QuadCongruence(d, s, v);
    if !NonZero(w) {
      QuadZero(s, w);
    }
  }
}
