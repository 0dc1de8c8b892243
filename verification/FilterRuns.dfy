/** What holds of the filter in every state of every run of predictions and updates. */
module FilterRuns {
  import opened Matrices
  import opened MatrixArrays
  import opened QuadraticForms
  import opened KalmanAlgebra
  import opened FilterModel
  import opened AxisModel

  datatype Event = Predict(dt: real) | Update(lon: real, lat: real, time: real)

  function Step(f: Filter, e: Event): (r: Filter)
    requires f.Shaped()
    ensures r.Shaped()
  {
    match e
    case Predict(dt) => StepShape(f, dt); PredictFilter(f, dt)
    case Update(lon, lat, time) => UpdateFilter(f, lon, lat, time)
  }

  lemma StepShape(f: Filter, dt: real)
    requires f.Shaped()
    ensures PredictFilter(f, dt).Shaped()
  {
  }

  function Run(f: Filter, es: seq<Event>): (r: Filter)
    requires f.Shaped()
    ensures r.Shaped()
    decreases |es|
  {
    if es == [] then f else Run(Step(f, es[0]), es[1..])
  }

  // ---- positive definiteness over runs, and the Joseph form

  lemma InverseInverts(p: Matrix)
    requires !Rejects(p)
    ensures Inverts(InnovationInverse(p), InnovationOf(p))
  {
    hide Mul, InnovationOf, Identity;
    Inverse2Correct(InnovationOf(p));
  }

  /** Whenever the source accepts the update, its (I - K*H)*P is the Joseph form of the update. */
  lemma UpdateIsJosephForm(p: Matrix)
    requires p.Is(6, 6) && !Rejects(p)
    ensures UpdateCovariance(p) == JosephForm(p, Observation(), MeasurementNoise(), GainOf(p))
  {
    hide Mul, JosephForm, Posterior, Gain, Observation, MeasurementNoise, InnovationInverse;
    InverseInverts(p);
    ShapeOfInverse(p);
    JosephIdentity(p, Observation(), MeasurementNoise(), InnovationInverse(p), 6, 2);
  }

  lemma ShapeOfInverse(p: Matrix)
    requires !Rejects(p)
    ensures InnovationInverse(p).Is(2, 2)
  {
  }

  /** An accepted update never increases the variance in any direction. */
  lemma UpdateShrinks(p: Matrix, v: Matrix)
    requires Spd(p, 6) && v.Is(6, 1) && !Rejects(p)
    ensures Quad(UpdateCovariance(p), v) <= Quad(p, v)
  {
    hide Mul, JosephForm, Posterior, Gain, Observation, MeasurementNoise, InnovationInverse, Quad, Symmetric, PosDef;
    InverseInverts(p);
    ShapeOfInverse(p);
    MeasurementNoiseSpd();
    UpdateNeverIncreases(p, Observation(), MeasurementNoise(), InnovationInverse(p), 6, 2, v);
  }

  /** No other gain, used in the Joseph form, leaves less variance in any direction. */
  lemma UpdateIsOptimal(p: Matrix, l: Matrix, v: Matrix)
    requires Spd(p, 6) && l.Is(6, 2) && v.Is(6, 1)
    ensures !Rejects(p)
    ensures Quad(UpdateCovariance(p), v) <= Quad(JosephForm(p, Observation(), MeasurementNoise(), l), v)
  {
    hide Mul, JosephForm, Posterior, Gain, Observation, MeasurementNoise, InnovationInverse, Quad, Symmetric, PosDef;
    NeverRejects(p);
    InverseInverts(p);
    ShapeOfInverse(p);
    MeasurementNoiseSpd();
    GainIsOptimal(p, Observation(), MeasurementNoise(), InnovationInverse(p), l, 6, 2, v);
  }

  lemma UpdateSpd(p: Matrix)
    requires Spd(p, 6)
    ensures !Rejects(p) && Spd(UpdateCovariance(p), 6)
  {
    hide Mul, JosephForm, Posterior, Gain, Observation, MeasurementNoise, InnovationInverse, Symmetric, PosDef;
    NeverRejects(p);
    InverseInverts(p);
    ShapeOfInverse(p);
    MeasurementNoiseSpd();
    PosteriorSpd(p, Observation(), MeasurementNoise(), InnovationInverse(p), 6, 2);
  }

  lemma PredictKeepsSpd(p: Matrix, dt: real)
    requires Spd(p, 6) && dt > 0.0
    ensures Spd(PredictCovariance(p, dt), 6)
  {
    hide Mul, Transition, Symmetric, PosDef, Add, Scale, Transpose;
    PredictSpd(Transition(dt), p, 0.01 * dt, 6);
  }

  lemma StepSound(f: Filter, e: Event)
    requires f.Sound()
    ensures Step(f, e).Sound()
  {
    hide Mul, Symmetric, PosDef, UpdateCovariance, PredictCovariance, Rejects, UpdateState;
    match e {
      case Predict(dt) =>
        if dt > 0.0 {
          PredictKeepsSpd(f.p, dt);
        }
      case Update(_, _, _) =>
        UpdateSpd(f.p);
    }
  }

  lemma InitialSound(lon: real, lat: real, vx: real, vy: real, time: real)
    ensures InitialFilter(lon, lat, vx, vy, time).Sound()
  {
    hide Symmetric, PosDef, InitialCovariance;
    InitialCovarianceSpd();
  }

  /** Every state of every run is initialised with a symmetric positive definite covariance. */
  lemma {:induction false} RunSound(f: Filter, es: seq<Event>)
    requires f.Sound()
    ensures Run(f, es).Sound()
    decreases |es|
  {
    hide Filter.Sound, Step;
    if es == [] {
    } else {
      SoundShape(f);
      StepSound(f, es[0]);
      RunSound(Step(f, es[0]), es[1..]);
    }
  }

  lemma SoundShape(f: Filter)
    requires f.Sound()
    ensures f.Shaped()
  {
  }

  // ---- the two axes

  /** A three-state filter of one coordinate. */
  datatype Axis = Axis(u: Matrix, c: Matrix) {
    ghost predicate Sound() { u.Is(3, 1) && c.Is(3, 3) && Spd(Embed(c), 6) }
  }

  lemma AxisVariancePositive(c: Matrix)
    requires c.Is(3, 3) && Spd(Embed(c), 6)
    ensures c.At(0, 0) > 0.0 && !Rejects(Embed(c))
  {
    hide Symmetric, PosDef, Rejects;
    NeverRejects(Embed(c));
  }

  lemma AxisPredictSound(c: Matrix, dt: real)
    requires c.Is(3, 3) && Spd(Embed(c), 6) && dt > 0.0
    ensures Spd(Embed(AxisPredictBlock(c, dt)), 6)
  {
    hide Symmetric, PosDef, AxisPredictBlock, PredictCovariance, Embed;
    PredictEmbedded(c, dt);
    PredictKeepsSpd(Embed(c), dt);
  }

  lemma AxisUpdateSound(c: Matrix)
    requires c.Is(3, 3) && Spd(Embed(c), 6)
    ensures c.At(0, 0) + 0.1 != 0.0 && Spd(Embed(AxisUpdateBlock(c)), 6)
  {
    hide Symmetric, PosDef, Rejects, UpdateCovariance, AxisUpdateBlock, Embed;
    AxisVariancePositive(c);
    UpdateEmbedded(c);
    UpdateSpd(Embed(c));
  }

  /** One step of one axis; z picks the coordinate the axis observes. */
  ghost function AxisStep(a: Axis, e: Event, z: Event -> real): (a': Axis)
    requires a.Sound()
    ensures a'.Sound()
  {
    match e
    case Predict(dt) =>
      if dt <= 0.0 then a else AxisPredictSound(a.c, dt); Axis(Mul(AxisTransition(dt), a.u), AxisPredictBlock(a.c, dt))
    case Update(_, _, _) =>
      AxisUpdateSound(a.c);
      Axis(AxisUpdateState(a.u, a.c, z(e)), AxisUpdateBlock(a.c))
  }

  ghost function AxisRun(a: Axis, es: seq<Event>, z: Event -> real): (a': Axis)
    requires a.Sound()
    ensures a'.Sound()
    decreases |es|
  {
    if es == [] then a else AxisRun(AxisStep(a, es[0], z), es[1..], z)
  }

  function Longitude(e: Event): real { if e.Update? then e.lon else 0.0 }

  function Latitude(e: Event): real { if e.Update? then e.lat else 0.0 }

  /** The six-state filter is the pair of axes a and b, which share one covariance block. */
  predicate Pairs(f: Filter, a: Axis, b: Axis) {
    f.x == Interleave(a.u, b.u) && a.c == b.c && f.p == Embed(a.c) && f.initialized
  }

  lemma StepPairs(f: Filter, e: Event, a: Axis, b: Axis)
    requires f.Shaped() && a.Sound() && b.Sound() && Pairs(f, a, b)
    ensures Pairs(Step(f, e), AxisStep(a, e, Longitude), AxisStep(b, e, Latitude))
  {
    hide Mul, Embed, Interleave, AxisTransition, Transition, PredictCovariance, UpdateCovariance, UpdateState,
         AxisPredictBlock, AxisUpdateBlock, AxisUpdateState, Rejects, Spd;
    match e {
      case Predict(dt) =>
        TransitionIsEmbedded(dt);
        MulInterleave(AxisTransition(dt), a.u, b.u);
        PredictEmbedded(a.c, dt);
      case Update(lon, lat, _) =>
        AxisVariancePositive(a.c);
        UpdateEmbedded(a.c);
        UpdateInterleaved(a.u, b.u, a.c, lon, lat);
    }
  }

  /** The six-state filter refines two independent three-state filters with one common covariance block. */
  lemma {:induction false} RunPairs(f: Filter, es: seq<Event>, a: Axis, b: Axis)
    requires f.Shaped() && a.Sound() && b.Sound() && Pairs(f, a, b)
    ensures Pairs(Run(f, es), AxisRun(a, es, Longitude), AxisRun(b, es, Latitude))
    decreases |es|
  {
    hide Pairs, Step, AxisStep, Axis.Sound;
    if es == [] {
    } else {
      StepPairs(f, es[0], a, b);
      RunPairs(Step(f, es[0]), es[1..], AxisStep(a, es[0], Longitude), AxisStep(b, es[0], Latitude));
    }
  }

  function InitialAxis(position: real, velocity: real): Axis {
    Axis(Grid(3, 1, [[position], [velocity], [0.0]]), AxisInitialBlock())
  }

  lemma InitialPairs(lon: real, lat: real, vx: real, vy: real, time: real)
    ensures Pairs(InitialFilter(lon, lat, vx, vy, time), InitialAxis(lon, vx), InitialAxis(lat, vy))
    ensures InitialAxis(lon, vx).Sound() && InitialAxis(lat, vy).Sound()
  {
    hide Symmetric, PosDef, InitialCovariance, AxisInitialBlock, Embed, Interleave;
    InitialCovarianceSpd();
    InitialIsEmbedded();
    var x, y := InitialFilter(lon, lat, vx, vy, time).x, Interleave(InitialAxis(lon, vx).u, InitialAxis(lat, vy).u);
    Ext(x, y);
  }

  /** A filter that some initialisation and some run lead to. */
  ghost predicate Reachable(f: Filter) {
    exists lon: real, lat: real, vx: real, vy: real, time: real, es: seq<Event> ::
      f == Reached(lon, lat, vx, vy, time, es)
  }

  function Reached(lon: real, lat: real, vx: real, vy: real, time: real, es: seq<Event>): (f: Filter)
    ensures f.Shaped()
  {
    Run(InitialFilter(lon, lat, vx, vy, time), es)
  }

  /** On every reachable filter the covariance is one block repeated on the two axes. */
  lemma ReachableDecoupled(f: Filter)
    requires Reachable(f)
    ensures f.Sound() && f.p == Embed(BlockOf(f.p))
  {
    hide Symmetric, PosDef, Embed, Interleave, Run, InitialFilter, AxisRun, InitialAxis, BlockOf;
    var lon, lat, vx, vy, time, es :| f == Reached(lon, lat, vx, vy, time, es);
    InitialSound(lon, lat, vx, vy, time);
    RunSound(InitialFilter(lon, lat, vx, vy, time), es);
    InitialPairs(lon, lat, vx, vy, time);
    RunPairs(InitialFilter(lon, lat, vx, vy, time), es, InitialAxis(lon, vx), InitialAxis(lat, vy));
    BlockOfEmbed(AxisRun(InitialAxis(lon, vx), es, Longitude).c);
  }

  /** Two events that differ at most in what was measured. */
  predicate SameSchedule(d: Event, e: Event) {
    (d.Predict? && e.Predict? && d.dt == e.dt) || (d.Update? && e.Update?)
  }

  /** The covariance depends only on the schedule of predictions and updates, never on measured values. */
  lemma {:induction false} CovarianceIgnoresMeasurements(f: Filter, g: Filter, ds: seq<Event>, es: seq<Event>)
    requires f.Shaped() && g.Shaped() && f.p == g.p && f.initialized == g.initialized
    requires |ds| == |es| && forall i | 0 <= i < |ds| :: SameSchedule(ds[i], es[i])
    ensures Run(f, ds).p == Run(g, es).p
    decreases |ds|
  {
    hide Mul, PredictCovariance, UpdateCovariance, UpdateState, Rejects;
    if ds == [] {
    } else {
      assert SameSchedule(ds[0], es[0]);
      CovarianceIgnoresMeasurements(Step(f, ds[0]), Step(g, es[0]), ds[1..], es[1..]);
    }
  }

  // ---- one update of one axis

  /** After an update the position variance is v * 0.1 / (v + 0.1) < 0.1; the residual shrinks by 0.1 / (v + 0.1). */
  lemma AxisUpdateContracts(a: Axis, z: real)
    requires a.Sound()
    ensures var v := a.c.At(0, 0);
      && v > 0.0
      && AxisUpdateBlock(a.c).At(0, 0) == v * (0.1 / (v + 0.1)) < 0.1
      && z - AxisUpdateState(a.u, a.c, z).At(0, 0) == (z - a.u.At(0, 0)) * (0.1 / (v + 0.1))
  {
    hide Symmetric, PosDef, Rejects, Embed, AxisUpdateBlock, AxisUpdateState;
    AxisVariancePositive(a.c);
    Contraction(a.c.At(0, 0), z, a.u.At(0, 0));
  }

  lemma Contraction(v: real, z: real, u: real)
    requires v > 0.0
    ensures v - v / (v + 0.1) * v == v * (0.1 / (v + 0.1)) < 0.1
    ensures z - (u + v / (v + 0.1) * (z - u)) == (z - u) * (0.1 / (v + 0.1))
  {
    var s := v + 0.1;
    var k, r := v / s, 0.1 / s;
    assert k * s == v && r * s == 0.1;
    assert (k + r) * s == s;
    assert k + r == 1.0 by { CancelFactor(k + r, s); }
    assert k == 1.0 - r;
    assert v * k == v - v * r;
    assert k * (z - u) == (z - u) - r * (z - u);
    assert r > 0.0 by { PositiveQuotient(0.1, s); }
    assert v * r == (s - 0.1) * r == 0.1 - 0.1 * r;
  }

  lemma CancelFactor(k: real, s: real)
    requires s > 0.0 && k * s == s
    ensures k == 1.0
  {
    assert (k - 1.0) * s == 0.0;
  }

  lemma PositiveQuotient(x: real, s: real)
    requires x > 0.0 && s > 0.0
    ensures x / s > 0.0
  {
  }

  function AxisPart(x: Matrix, parity: int): (u: Matrix)
    requires parity == 0 || parity == 1
    ensures u.Is(3, 1) && forall i | 0 <= i < 3 :: u.At(i, 0) == x.At(2 * i + parity, 0)
  {
    Make(3, 1, (i, j) => x.At(2 * i + parity, 0))
  }

  lemma InterleaveParts(x: Matrix)
    requires x.Is(6, 1)
    ensures Interleave(AxisPart(x, 0), AxisPart(x, 1)) == x
  {
    hide Interleave, AxisPart;
    Ext(Interleave(AxisPart(x, 0), AxisPart(x, 1)), x);
  }

  /**
   On every reachable filter an update is accepted, leaves both position variances equal and below
   0.1, and shrinks the position residual of each axis by exactly 0.1 / (v + 0.1).
   */
  lemma UpdateContracts(f: Filter, lon: real, lat: real, time: real)
    requires Reachable(f)
    ensures !Rejects(f.p) && f.initialized && f.Shaped()
    ensures var v, r := f.p.At(0, 0), UpdateFilter(f, lon, lat, time);
      && v > 0.0
      && r.p.At(0, 0) == r.p.At(1, 1) == v * (0.1 / (v + 0.1)) < 0.1
      && lon - r.x.At(0, 0) == (lon - f.x.At(0, 0)) * (0.1 / (v + 0.1))
      && lat - r.x.At(1, 0) == (lat - f.x.At(1, 0)) * (0.1 / (v + 0.1))
  {
    hide Symmetric, PosDef, Rejects, Embed, Interleave, AxisPart, BlockOf, AxisUpdateBlock, AxisUpdateState,
         UpdateState, UpdateCovariance, Reachable, Matrix.At;
    ReachableDecoupled(f);
    NeverRejects(f.p);
    var c, u, w := BlockOf(f.p), AxisPart(f.x, 0), AxisPart(f.x, 1);
    InterleaveParts(f.x);
    AxisUpdateContracts(Axis(u, c), lon);
    AxisUpdateContracts(Axis(w, c), lat);
    UpdateEmbedded(c);
    UpdateInterleaved(u, w, c, lon, lat);
  }

  // ---- the gating distance

  function Separable(s: real, t: real, a: real, b: real): real
    requires s != 0.0 && t != 0.0
  {
    a * a / s + b * b / t
  }

  /** The square of the source's distance: each squared residual over its variance plus the noise. */
  function SimplifiedSq(p: Matrix, a: real, b: real): real
    requires p.At(0, 0) + 0.1 != 0.0 && p.At(1, 1) + 0.1 != 0.0
  {
    Separable(p.At(0, 0) + 0.1, p.At(1, 1) + 0.1, a, b)
  }

  /** y^T * S^-1 * y with the S of the update. */
  function MahalanobisSq(p: Matrix, a: real, b: real): real
    requires !Rejects(p)
  {
    Quad(InnovationInverse(p), Pair(a, b))
  }

  /** The form of the inverse of [s q; r t] at (a, b). */
  function Weighted(s: real, q: real, r: real, t: real, a: real, b: real): real
    requires Det(s, q, r, t) != 0.0
  {
    var d := 1.0 / Det(s, q, r, t);
    a * (t * d * a + -q * d * b) + b * (-r * d * a + s * d * b)
  }

  /** The form that Quad2 gives for the inverse, as one fraction. */
  lemma InverseEntries(s: real, q: real, r: real, t: real, a: real, b: real)
    requires !Singular2(Square2(s, q, r, t))
    ensures Det(s, q, r, t) != 0.0
    ensures var v := Inverse2(Square2(s, q, r, t));
      Times(a, Times(v.At(0, 0), a) + Times(v.At(0, 1), b)) + Times(b, Times(v.At(1, 0), a) + Times(v.At(1, 1), b))
        == Weighted(s, q, r, t, a, b)
  {
    hide Square2;
    assert Det2(Square2(s, q, r, t)) == Det(s, q, r, t);
  }

  lemma MahalanobisFormula(p: Matrix, a: real, b: real, s: real, q: real, t: real)
    requires Spd(p, 6) && p.At(0, 0) + 0.1 == s && p.At(0, 1) == q && p.At(1, 1) + 0.1 == t
    ensures !Rejects(p)
    ensures s > 0.0 && t > 0.0 && Det(s, q, q, t) != 0.0
    ensures MahalanobisSq(p, a, b) == Weighted(s, q, q, t, a, b)
    ensures SimplifiedSq(p, a, b) == Separable(s, t, a, b)
  {
    hide PosDef, Quad, Pair, InnovationOf, Times, Weighted, Separable, Det, Inverse2, Square2;
    NeverRejects(p);
    InnovationEntries(p);
    assert Transpose(p).At(0, 1) == p.At(1, 0);
    Quad2(InnovationInverse(p), a, b);
    InverseEntries(s, q, q, t, a, b);
  }

  lemma WeightedDiagonal(s: real, t: real, a: real, b: real)
    requires s != 0.0 && t != 0.0
    ensures Det(s, 0.0, 0.0, t) != 0.0 && Weighted(s, 0.0, 0.0, t, a, b) == Separable(s, t, a, b)
  {
    assert Det(s, 0.0, 0.0, t) == s * t;
    assert s * t != 0.0;
    var d := 1.0 / (s * t);
    assert (s * t) * d == 1.0;
    assert t * d == 1.0 / s by { QuotientOf(t * d, s); }
    assert s * d == 1.0 / t by { QuotientOf(s * d, t); }
    DivideSquare(a, s);
    DivideSquare(b, t);
  }

  lemma QuotientOf(x: real, s: real)
    requires s != 0.0 && s * x == 1.0
    ensures x == 1.0 / s
  {
  }

  lemma DivideSquare(a: real, s: real)
    requires s != 0.0
    ensures a * (1.0 / s * a) == a * a / s
  {
  }

  /**
   The source calls its distance simplified. Against the exact Mahalanobis distance it is exact for
   every residual when, and only when, the two positions are uncorrelated.
   */
  lemma SimplifiedExactIff(p: Matrix)
    requires Spd(p, 6)
    ensures p.At(0, 0) > 0.0 && p.At(1, 1) > 0.0 && !Rejects(p)
    ensures (forall a: real, b: real :: SimplifiedSq(p, a, b) == MahalanobisSq(p, a, b)) <==> p.At(0, 1) == 0.0
  {
    hide Spd, Matrix.At, MahalanobisSq, Weighted, Rejects, SimplifiedSq, Separable, Det;
    NeverRejects(p);
    var s, q, t := p.At(0, 0) + 0.1, p.At(0, 1), p.At(1, 1) + 0.1;
    if q == 0.0 {
      forall a: real, b: real ensures SimplifiedSq(p, a, b) == MahalanobisSq(p, a, b) {
        MahalanobisFormula(p, a, b, s, q, t);
        WeightedDiagonal(s, t, a, b);
      }
    } else {
      MahalanobisFormula(p, 1.0, 0.0, s, q, t);
      WeightedAtUnit(s, q, t);
    }
  }

  lemma WeightedAtUnit(s: real, q: real, t: real)
    requires s != 0.0 && t != 0.0 && q != 0.0 && Det(s, q, q, t) != 0.0
    ensures Weighted(s, q, q, t, 1.0, 0.0) != Separable(s, t, 1.0, 0.0)
  {
    var e := Det(s, q, q, t);
    var d := 1.0 / e;
    assert d * e == 1.0;
    assert d != 0.0;
    assert Weighted(s, q, q, t, 1.0, 0.0) == t * d;
    assert 0.0 / t == 0.0;
    if t * d == 1.0 / s {
      assert s * (t * d) == 1.0;
      OffDiagonalVanishes(s, q, t, d);
    }
  }

  lemma OffDiagonalVanishes(s: real, q: real, t: real, d: real)
    requires s * (t * d) == 1.0 && d * (s * t - q * q) == 1.0
    ensures q == 0.0
  {
    assert d != 0.0;
    assert Times(d, q * q) == 0.0;
    ZeroProduct(d, q * q);
    Square(q);
  }

  lemma ZeroProduct(x: real, y: real)
    requires Times(x, y) == 0.0 && x != 0.0
    ensures y == 0.0
  {
  }

  /** On every reachable filter the simplified distance is the exact Mahalanobis distance. */
  lemma SimplifiedExactWhenReachable(f: Filter, lon: real, lat: real)
    requires Reachable(f)
    ensures f.p.At(0, 0) > 0.0 && f.p.At(1, 1) > 0.0 && !Rejects(f.p)
    ensures SimplifiedSq(f.p, lon - f.x.At(0, 0), lat - f.x.At(1, 0)) ==
            Quad(InnovationInverse(f.p), Residual(f.x, lon, lat))
  {
    hide Spd, Matrix.At, Rejects, SimplifiedSq, Reachable, Quad, Embed, InnovationInverse, Pair;
    ReachableDecoupled(f);
    SimplifiedExactIff(f.p);
    assert MahalanobisSq(f.p, lon - f.x.At(0, 0), lat - f.x.At(1, 0)) ==
           SimplifiedSq(f.p, lon - f.x.At(0, 0), lat - f.x.At(1, 0));
  }
}
