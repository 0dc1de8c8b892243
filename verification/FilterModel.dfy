/**
 The six-state constant-acceleration filter as functions on values, with the constants of the source.
 The state is [x, y, vx, vy, ax, ay]; only the position is observed.
 */
module FilterModel {
  import opened Sums
  import opened Matrices
  import opened MatrixArrays
  import opened QuadraticForms
  import opened KalmanAlgebra

  /** The value of a kalman_state_t; times are seconds. */
  datatype Filter = Filter(x: Matrix, p: Matrix, lastUpdate: real, initialized: bool) {
    predicate Shaped() { x.Is(6, 1) && p.Is(6, 6) }

    /** What every reachable filter satisfies. */
    ghost predicate Sound() { Shaped() && initialized && Spd(p, 6) }
  }

  /** F: position += velocity * dt + acceleration * dt^2 / 2, velocity += acceleration * dt, per coordinate. */
  function Transition(dt: real): (f: Matrix)
    ensures f.Is(6, 6)
    ensures forall i, j | 0 <= i < 6 && 0 <= j < 6 ::
              f.At(i, j) == TransitionEntry(i, j, dt)
  {
    hide TransitionEntry;
    Make(6, 6, (i, j) => TransitionEntry(i, j, dt))
  }

  function TransitionEntry(i: int, j: int, dt: real): real {
    if i % 2 == j % 2 then Shift(j / 2 - i / 2, dt) else 0.0
  }

  /** The weight after dt of a derivative on the quantity d orders below it. */
  function Shift(d: int, dt: real): real {
    if d == 0 then 1.0 else if d == 1 then dt else if d == 2 then 0.5 * dt * dt else 0.0
  }

  function ProcessNoise(dt: real): Matrix { Scale(0.01 * dt, Identity(6)) }

  function Observation(): (h: Matrix)
    ensures h.Is(2, 6)
    ensures forall i, j | 0 <= i < 2 && 0 <= j < 6 :: h.At(i, j) == if i == j then 1.0 else 0.0
  {
    Make(2, 6, (i, j) => if i == j then 1.0 else 0.0)
  }

  function MeasurementNoise(): (r: Matrix)
    ensures r.Is(2, 2)
    ensures forall i, j | 0 <= i < 2 && 0 <= j < 2 :: r.At(i, j) == if i == j then 0.1 else 0.0
  {
    Make(2, 2, (i, j) => if i == j then 0.1 else 0.0)
  }

  /** The variances 0.5 for positions, 2 for velocities and 5 for accelerations. */
  function InitialCovariance(): (p: Matrix)
    ensures p.Is(6, 6)
    ensures forall i, j | 0 <= i < 6 && 0 <= j < 6 ::
              p.At(i, j) == if i != j then 0.0 else InitialVariance(i / 2)
  {
    Make(6, 6, (i, j) => if i != j then 0.0 else InitialVariance(i / 2))
  }

  function InitialVariance(k: int): real { if k == 0 then 0.5 else if k == 1 then 2.0 else 5.0 }

  /** The filter in zeroed memory. */
  function ZeroFilter(): (f: Filter)
    ensures f.Shaped()
  {
    Filter(Make(6, 1, (i, j) => 0.0), Make(6, 6, (i, j) => 0.0), 0.0, false)
  }

  function InitialFilter(lon: real, lat: real, vx: real, vy: real, time: real): Filter {
    Filter(Grid(6, 1, [[lon], [lat], [vx], [vy], [0.0], [0.0]]), InitialCovariance(), time, true)
  }

  function PredictCovariance(p: Matrix, dt: real): (q: Matrix)
    ensures q.Is(6, 6)
  {
    Add(Mul(Mul(Transition(dt), p), Transpose(Transition(dt))), ProcessNoise(dt))
  }

  /** The prediction step; a non-positive dt is rejected and changes nothing. */
  function PredictFilter(f: Filter, dt: real): Filter {
    if dt <= 0.0 then f
    else f.(x := Mul(Transition(dt), f.x), p := PredictCovariance(f.p, dt))
  }

  /** The 2x2 innovation covariance of a filter. */
  function InnovationOf(p: Matrix): (s: Matrix)
    ensures s.Is(2, 2)
  {
    Innovation(p, Observation(), MeasurementNoise())
  }

  predicate Rejects(p: Matrix) { Singular2(InnovationOf(p)) }

  function InnovationInverse(p: Matrix): (sInv: Matrix)
    requires !Rejects(p)
    ensures sInv.Is(2, 2)
  {
    Inverse2(InnovationOf(p))
  }

  function GainOf(p: Matrix): (k: Matrix)
    requires !Rejects(p)
    ensures k.Is(p.rows, 2)
  {
    Gain(p, Observation(), InnovationInverse(p))
  }

  /** y = z - H*X, with the two position components read directly. */
  function Residual(x: Matrix, lon: real, lat: real): Matrix {
    Pair(lon - x.At(0, 0), lat - x.At(1, 0))
  }

  /** A column with the two given components. */
  function Pair(a: real, b: real): Matrix { Grid(2, 1, [[a], [b]]) }

  function UpdateCovariance(p: Matrix): (q: Matrix)
    requires p.Is(6, 6) && !Rejects(p)
    ensures q.Is(6, 6)
  {
    Posterior(p, Observation(), GainOf(p))
  }

  function UpdateState(x: Matrix, p: Matrix, lon: real, lat: real): (x': Matrix)
    requires x.Is(6, 1) && p.Is(6, 6) && !Rejects(p)
    ensures x'.Is(6, 1)
  {
    Add(x, Mul(GainOf(p), Residual(x, lon, lat)))
  }

  /** The update step; an uninitialised filter or a negligible innovation determinant changes nothing. */
  function UpdateFilter(f: Filter, lon: real, lat: real, time: real): (r: Filter)
    requires f.Shaped()
    ensures r.Shaped()
  {
    if !f.initialized || Rejects(f.p) then f
    else Filter(UpdateState(f.x, f.p, lon, lat), UpdateCovariance(f.p), time, true)
  }

  // ---- positive definiteness of the constants

  ghost predicate Diagonal(d: Matrix, n: nat) {
    d.Is(n, n) && forall i, j | 0 <= i < n && 0 <= j < n && i != j :: d.At(i, j) == 0.0
  }

  lemma DiagonalTimes(d: Matrix, v: Matrix, n: nat, i: int)
    requires Diagonal(d, n) && v.Is(n, 1) && 0 <= i < n
    ensures Mul(d, v).At(i, 0) == Times(d.At(i, i), v.At(i, 0))
  {
    hide Times;
    forall l | 0 <= l < n && l != i ensures Terms(d, v, i, 0)(l) == 0.0 {
      ZeroTimes();
    }
    SumSingle(Terms(d, v, i, 0), i, n);
  }

  /** A diagonal matrix with positive diagonal is symmetric positive definite. */
  lemma DiagonalSpd(d: Matrix, n: nat)
    requires Diagonal(d, n) && forall i | 0 <= i < n :: d.At(i, i) > 0.0
    ensures Spd(d, n)
  {
    hide Mul, Times;
    Ext(Transpose(d), d);
    forall v: Matrix | v.Is(n, 1) && NonZero(v) ensures Quad(d, v) > 0.0 {
      DiagonalQuad(d, v, n);
    }
  }

  lemma DiagonalQuad(d: Matrix, v: Matrix, n: nat)
    requires Diagonal(d, n) && (forall i | 0 <= i < n :: d.At(i, i) > 0.0) && v.Is(n, 1) && NonZero(v)
    ensures Quad(d, v) > 0.0
  {
    hide Times;
    var t := Terms(Transpose(v), Mul(d, v), 0, 0);
    forall i | 0 <= i < n ensures t(i) >= 0.0 && (v.At(i, 0) != 0.0 ==> t(i) > 0.0) {
      DiagonalTimes(d, v, n, i);
      WeightedSquare(d.At(i, i), v.At(i, 0));
    }
    SumNonNegative(t, n);
    var i :| 0 <= i < n && v.At(i, 0) != 0.0;
  }

  lemma WeightedSquare(d: real, v: real)
    requires d > 0.0
    ensures Times(v, Times(d, v)) >= 0.0 && (v != 0.0 ==> Times(v, Times(d, v)) > 0.0)
  {
    Square(v);
    TimesAssoc(v, d, v);
    if v != 0.0 {
      PositiveTimes(d, Times(v, v));
    }
  }

  lemma InitialCovarianceSpd()
    ensures Spd(InitialCovariance(), 6)
  {
    hide Symmetric, PosDef;
    DiagonalSpd(InitialCovariance(), 6);
  }

  lemma MeasurementNoiseSpd()
    ensures Spd(MeasurementNoise(), 2)
  {
    hide Symmetric, PosDef;
    DiagonalSpd(MeasurementNoise(), 2);
  }

  // ---- the innovation covariance

  /** H*P*H^T is the position block of P. */
  lemma ObservedBlock(p: Matrix, i: int, j: int)
    requires p.Is(6, 6) && 0 <= i < 2 && 0 <= j < 2
    ensures Mul(Mul(Observation(), p), Transpose(Observation())).At(i, j) == p.At(i, j)
  {
    hide Observation;
    var h := Observation();
    SumSingle(Terms(h, p, i, j), i, 6);
    SumSingle(Terms(Mul(h, p), Transpose(h), i, j), j, 6);
  }

  /** The entries of the innovation covariance. */
  lemma InnovationEntries(p: Matrix)
    requires p.Is(6, 6)
    ensures InnovationOf(p) == Square2(p.At(0, 0) + 0.1, p.At(0, 1), p.At(1, 0), p.At(1, 1) + 0.1)
  {
    hide Observation, Mul;
    ObservedBlock(p, 0, 0);
    ObservedBlock(p, 0, 1);
    ObservedBlock(p, 1, 0);
    ObservedBlock(p, 1, 1);
    Ext2(InnovationOf(p), Square2(p.At(0, 0) + 0.1, p.At(0, 1), p.At(1, 0), p.At(1, 1) + 0.1));
  }

  lemma Quad2(m: Matrix, a: real, b: real)
    requires m.Is(2, 2)
    ensures Quad(m, Pair(a, b)) ==
            Times(a, Times(m.At(0, 0), a) + Times(m.At(0, 1), b))
              + Times(b, Times(m.At(1, 0), a) + Times(m.At(1, 1), b))
    ensures a != 0.0 || b != 0.0 ==> NonZero(Pair(a, b))
  {
    hide Mul, Times, Pair;
    var v := Pair(a, b);
    PairShape(a, b);
    var mv := Mul(m, v);
    Entry(m, v, 0, 0, m.At(0, 0), m.At(0, 1), a, b);
    Entry(m, v, 1, 0, m.At(1, 0), m.At(1, 1), a, b);
    Entry(Transpose(v), mv, 0, 0, a, b, mv.At(0, 0), mv.At(1, 0));
  }

  /** The leading minors of a 2x2 positive definite matrix are positive. */
  lemma Minors2(m: Matrix, a: real, b: real, c: real, d: real)
    requires Spd(m, 2) && m.At(0, 0) == a && m.At(0, 1) == b && m.At(1, 0) == c && m.At(1, 1) == d
    ensures a > 0.0 && d > 0.0 && b == c && a * d - b * c > 0.0
  {
    hide Quad, NonZero, Pair;
    assert Transpose(m).At(0, 1) == m.At(1, 0);
    PairShape(1.0, 0.0);
    PairShape(0.0, 1.0);
    Quad2(m, 1.0, 0.0);
    Quad2(m, 0.0, 1.0);
    PairShape(d, -b);
    Quad2(m, d, -b);
    PositiveFactor(a, b, c, d);
  }

  lemma PositiveFactor(p: real, q: real, r: real, s: real)
    requires s > 0.0 && q == r && Times(s, Times(p, s) + Times(q, -q)) + Times(-q, Times(r, s) + Times(s, -q)) > 0.0
    ensures p * s - q * r > 0.0
  {
    assert s * (p * s - q * q) > 0.0;
  }

  lemma PairShape(a: real, b: real)
    ensures Pair(a, b).Is(2, 1) && Pair(a, b).At(0, 0) == a && Pair(a, b).At(1, 0) == b
  {
  }

  /** The position block of a positive definite covariance is positive definite. */
  lemma ObservedBlockSpd(p: Matrix)
    requires Spd(p, 6)
    ensures Spd(Mul(Mul(Observation(), p), Transpose(Observation())), 2)
  {
    hide Observation, Mul, Quad, Transpose, Symmetric;
    var h := Observation();
    var m := Mul(Mul(h, p), Transpose(h));
    CongruenceSymmetric(h, p);
    forall v: Matrix | v.Is(2, 1) && NonZero(v) ensures Quad(m, v) > 0.0 {
      QuadCongruence(h, p, v);
      var i :| 0 <= i < 2 && v.At(i, 0) != 0.0;
      LiftAt(v, i);
    }
  }

  lemma LiftAt(v: Matrix, i: int)
    requires v.Is(2, 1) && 0 <= i < 2
    ensures Mul(Transpose(Observation()), v).At(i, 0) == v.At(i, 0)
  {
    hide Observation;
    SumSingle(Terms(Transpose(Observation()), v, i, 0), i, 2);
  }

  /** On a positive definite covariance the innovation determinant exceeds 0.01, so the update is never rejected. */
  lemma NeverRejects(p: Matrix)
    requires Spd(p, 6)
    ensures Det2(InnovationOf(p)) > 0.01
    ensures !Rejects(p)
    ensures p.At(0, 0) > 0.0 && p.At(1, 1) > 0.0
  {
    hide Observation, Mul, Symmetric, PosDef, Transpose, InnovationOf;
    ObservedBlockSpd(p);
    ObservedBlock(p, 0, 0);
    ObservedBlock(p, 0, 1);
    ObservedBlock(p, 1, 0);
    ObservedBlock(p, 1, 1);
    InnovationEntries(p);
    ShiftedMinors(Mul(Mul(Observation(), p), Transpose(Observation())),
                  p.At(0, 0), p.At(0, 1), p.At(1, 0), p.At(1, 1));
  }

  lemma ShiftedMinors(m: Matrix, a: real, b: real, c: real, d: real)
    requires Spd(m, 2) && m.At(0, 0) == a && m.At(0, 1) == b && m.At(1, 0) == c && m.At(1, 1) == d
    ensures Det2(Square2(a + 0.1, b, c, d + 0.1)) > 0.01 && a > 0.0 && d > 0.0
  {
    hide Symmetric, PosDef;
    Minors2(m, a, b, c, d);
    ShiftedDeterminant(a, b, c, d);
  }

  lemma ShiftedDeterminant(a: real, b: real, c: real, d: real)
    requires a > 0.0 && d > 0.0 && a * d - b * c > 0.0
    ensures (a + 0.1) * (d + 0.1) - b * c > 0.01
  {
    assert (a + 0.1) * (d + 0.1) == a * d + 0.1 * a + 0.1 * d + 0.01;
  }
}
