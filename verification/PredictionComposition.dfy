/** Predictions compose: the state exactly, the covariance up to a closed-form term. */
module PredictionComposition {
  import opened Sums
  import opened Matrices
  import opened FilterModel
  import opened AxisModel
  import opened FilterRuns

  lemma AxisTransitionCompose(a: real, b: real)
    ensures Mul(AxisTransition(b), AxisTransition(a)) == AxisTransition(a + b)
  {
    hide Shift, Times;
    var f, g := AxisTransition(b), AxisTransition(a);
    forall i, j | 0 <= i < 3 && 0 <= j < 3 ensures Mul(f, g).At(i, j) == AxisTransition(a + b).At(i, j) {
      Unroll3(Terms(f, g, i, j));
      ShiftCompose(a, b, i, j);
    }
    Ext(Mul(f, g), AxisTransition(a + b));
  }

  lemma ShiftCompose(a: real, b: real, i: int, j: int)
    requires 0 <= i < 3 && 0 <= j < 3
    ensures Times(Shift(0 - i, b), Shift(j - 0, a)) + Times(Shift(1 - i, b), Shift(j - 1, a))
              + Times(Shift(2 - i, b), Shift(j - 2, a)) == Shift(j - i, a + b)
  {
    assert 0.5 * (a + b) * (a + b) == 0.5 * a * a + b * a + 0.5 * b * b;
  }

  /** F(b) * F(a) = F(a + b). */
  lemma TransitionCompose(a: real, b: real)
    ensures Mul(Transition(b), Transition(a)) == Transition(a + b)
  {
    hide Embed, Transition, AxisTransition, Mul;
    TransitionIsEmbedded(a);
    TransitionIsEmbedded(b);
    TransitionIsEmbedded(a + b);
    MulEmbed(AxisTransition(b), AxisTransition(a));
    AxisTransitionCompose(a, b);
  }

  /** Predicting the state by a and then by b is predicting it by a + b. */
  lemma StateCompose(f: Filter, a: real, b: real)
    requires f.Shaped() && a > 0.0 && b > 0.0
    ensures PredictFilter(PredictFilter(f, a), b).x == PredictFilter(f, a + b).x
  {
    hide Transition, Mul, PredictCovariance;
    MulAssoc(Transition(b), Transition(a), f.x);
    TransitionCompose(a, b);
  }

  /** The covariances differ by exactly 0.01 * a * (F(b) * F(b)^T - I). */
  lemma CovarianceCompose(p: Matrix, a: real, b: real)
    requires p.Is(6, 6)
    ensures Sub(PredictCovariance(PredictCovariance(p, a), b), PredictCovariance(p, a + b)) ==
            Scale(0.01 * a, Sub(Mul(Transition(b), Transpose(Transition(b))), Identity(6)))
  {
    hide Mul, Add, Sub, Scale, Identity, Transpose, Transition;
    var fa, fb, fab := Transition(a), Transition(b), Transition(a + b);
    var g := Mul(Mul(fa, p), Transpose(fa));
    var n := ProcessNoise(a);
    MulAddRight(fb, g, n);
    MulAddLeft(Mul(fb, g), Mul(fb, n), Transpose(fb));
    CongruenceCompose(p, a, b);
    MulScaleRight(0.01 * a, fb, Identity(6));
    MulIdentity(fb);
    MulScaleLeft(0.01 * a, fb, Transpose(fb));
    assert PredictCovariance(PredictCovariance(p, a), b) ==
           Add(Add(Mul(Mul(fab, p), Transpose(fab)), Scale(0.01 * a, Mul(fb, Transpose(fb)))), ProcessNoise(b));
    NoiseDifference(Mul(Mul(fab, p), Transpose(fab)), Mul(fb, Transpose(fb)), a, b);
  }

  lemma CongruenceCompose(p: Matrix, a: real, b: real)
    requires p.Is(6, 6)
    ensures Mul(Mul(Transition(b), Mul(Mul(Transition(a), p), Transpose(Transition(a)))), Transpose(Transition(b))) ==
            Mul(Mul(Transition(a + b), p), Transpose(Transition(a + b)))
  {
    hide Mul, Transpose, Transition;
    var fa, fb := Transition(a), Transition(b);
    var fap, fat, fbt := Mul(fa, p), Transpose(fa), Transpose(fb);
    MulAssoc(fb, fap, fat);
    MulAssoc(fb, fa, p);
    TransitionCompose(a, b);
    MulAssoc(Mul(fb, fap), fat, fbt);
    TransposeMul(fb, fa);
  }

  lemma NoiseDifference(m: Matrix, ff: Matrix, a: real, b: real)
    requires m.Is(6, 6) && ff.Is(6, 6)
    ensures Sub(Add(Add(m, Scale(0.01 * a, ff)), ProcessNoise(b)), Add(m, ProcessNoise(a + b))) ==
            Scale(0.01 * a, Sub(ff, Identity(6)))
  {
    hide Times, Matrix.At;
    var l := Sub(Add(Add(m, Scale(0.01 * a, ff)), ProcessNoise(b)), Add(m, ProcessNoise(a + b)));
    var r := Scale(0.01 * a, Sub(ff, Identity(6)));
    forall i, j | 0 <= i < 6 && 0 <= j < 6 ensures l.At(i, j) == r.At(i, j) {
      NoiseEntry(ff.At(i, j), Identity(6).At(i, j), a, b);
    }
    Ext(l, r);
  }

  lemma NoiseEntry(x: real, e: real, a: real, b: real)
    ensures Times(0.01 * a, x) + Times(0.01 * b, e) - Times(0.01 * (a + b), e) == Times(0.01 * a, x - e)
  {
  }

  /** The time a prediction moves the state by: a dt that is not positive is refused. */
  function Forward(dt: real): real { if dt > 0.0 then dt else 0.0 }

  /** The time that predictions by all of dts move the state by. */
  function Total(dts: seq<real>): (d: real)
    ensures d >= 0.0
  {
    if dts == [] then 0.0 else Forward(dts[0]) + Total(dts[1..])
  }

  function Predictions(dts: seq<real>): (es: seq<Event>)
    ensures |es| == |dts|
  {
    if dts == [] then [] else [Predict(dts[0])] + Predictions(dts[1..])
  }

  /** Any run of predictions alone, refused or not, moves the state as one prediction by the total. */
  lemma {:induction false} PredictionsCompose(f: Filter, dts: seq<real>)
    requires f.Shaped()
    ensures Run(f, Predictions(dts)).x == PredictFilter(f, Total(dts)).x
    decreases |dts|
  {
    hide Mul, PredictCovariance, Transition;
    if dts == [] {
    } else {
      var d, rest := dts[0], dts[1..];
      var es := Predictions(dts);
      assert es[0] == Predict(d) && es[1..] == Predictions(rest);
      StepShape(f, d);
      PredictionsCompose(Step(f, Predict(d)), rest);
      if d > 0.0 && Total(rest) > 0.0 {
        StateCompose(f, d, Total(rest));
      }
    }
  }

  // ---- when two predictions agree

  /** Nothing moves: velocities and accelerations are zero. */
  predicate AtRest(x: Matrix) { forall i | 2 <= i < 6 :: x.At(i, 0) == 0.0 }

  /** Position, velocity and acceleration of one axis after dt. */
  lemma AxisPredicted(u: Matrix, dt: real)
    requires u.Is(3, 1)
    ensures var r := Mul(AxisTransition(dt), u);
      && r.At(0, 0) == u.At(0, 0) + dt * u.At(1, 0) + 0.5 * dt * dt * u.At(2, 0)
      && r.At(1, 0) == u.At(1, 0) + dt * u.At(2, 0)
      && r.At(2, 0) == u.At(2, 0)
  {
    hide Matrix.At;
    var f := AxisTransition(dt);
    Unroll3(Terms(f, u, 0, 0));
    Unroll3(Terms(f, u, 1, 0));
    Unroll3(Terms(f, u, 2, 0));
  }

  lemma AxisSamePrediction(u: Matrix, d: real, e: real)
    requires u.Is(3, 1)
    ensures Mul(AxisTransition(d), u) == Mul(AxisTransition(e), u) <==>
            d == e || (u.At(1, 0) == 0.0 && u.At(2, 0) == 0.0)
  {
    hide Mul, Matrix.At;
    var r, s := Mul(AxisTransition(d), u), Mul(AxisTransition(e), u);
    AxisPredicted(u, d);
    AxisPredicted(u, e);
    SameMotion(u.At(0, 0), u.At(1, 0), u.At(2, 0), d, e);
    if d == e || (u.At(1, 0) == 0.0 && u.At(2, 0) == 0.0) {
      forall i, j | 0 <= i < 3 && 0 <= j < 1 ensures r.At(i, j) == s.At(i, j) {
        assert i == 0 || i == 1 || i == 2;
      }
      Ext(r, s);
    }
  }

  /** Uniformly accelerated motion agrees at two times only when they are equal or nothing moves. */
  lemma SameMotion(x: real, v: real, a: real, d: real, e: real)
    ensures x + d * v + 0.5 * d * d * a == x + e * v + 0.5 * e * e * a && v + d * a == v + e * a <==>
            d == e || (v == 0.0 && a == 0.0)
  {
    if v + d * a == v + e * a && d != e {
      Cancel(d - e, a);
      if x + d * v + 0.5 * d * d * a == x + e * v + 0.5 * e * e * a {
        assert a == 0.0;
        Cancel(d - e, v);
      }
    }
  }

  lemma Cancel(x: real, y: real)
    ensures x * y == 0.0 && x != 0.0 ==> y == 0.0
  {
  }

  lemma PartsOfInterleave(u: Matrix, w: Matrix)
    requires u.Is(3, 1) && w.Is(3, 1)
    ensures AxisPart(Interleave(u, w), 0) == u && AxisPart(Interleave(u, w), 1) == w
  {
    hide Interleave;
    Ext(AxisPart(Interleave(u, w), 0), u);
    Ext(AxisPart(Interleave(u, w), 1), w);
  }

  lemma PredictedState(f: Filter, dt: real)
    requires f.Shaped()
    ensures PredictFilter(f, dt).x == Mul(Transition(Forward(dt)), f.x)
  {
    hide Mul, Transition, PredictCovariance;
    if dt <= 0.0 {
      NoTransition();
      MulIdentity(f.x);
    }
  }

  lemma NoTransition()
    ensures Transition(0.0) == Identity(6)
  {
    Ext(Transition(0.0), Identity(6));
  }

  /** Two predictions leave the same state exactly when they move it by the same time, or nothing moves. */
  lemma SamePrediction(f: Filter, d: real, e: real)
    requires f.Shaped()
    ensures PredictFilter(f, d).x == PredictFilter(f, e).x <==> Forward(d) == Forward(e) || AtRest(f.x)
  {
    hide Mul, Transition, AxisTransition, Embed, Interleave, PredictFilter, Matrix.At, Forward;
    PredictedState(f, d);
    PredictedState(f, e);
    var u, w := AxisPart(f.x, 0), AxisPart(f.x, 1);
    InterleaveParts(f.x);
    SplitPrediction(u, w, Forward(d));
    SplitPrediction(u, w, Forward(e));
    AxisSamePrediction(u, Forward(d), Forward(e));
    AxisSamePrediction(w, Forward(d), Forward(e));
    RestOfParts(f.x);
  }

  lemma SplitPrediction(u: Matrix, w: Matrix, dt: real)
    requires u.Is(3, 1) && w.Is(3, 1)
    ensures var r := Mul(Transition(dt), Interleave(u, w));
      && r == Interleave(Mul(AxisTransition(dt), u), Mul(AxisTransition(dt), w))
      && AxisPart(r, 0) == Mul(AxisTransition(dt), u) && AxisPart(r, 1) == Mul(AxisTransition(dt), w)
  {
    hide Mul, Transition, AxisTransition, Embed, Interleave, AxisPart;
    TransitionIsEmbedded(dt);
    MulInterleave(AxisTransition(dt), u, w);
    PartsOfInterleave(Mul(AxisTransition(dt), u), Mul(AxisTransition(dt), w));
  }

  lemma RestOfParts(x: Matrix)
    requires x.Is(6, 1)
    ensures var u, w := AxisPart(x, 0), AxisPart(x, 1);
      AtRest(x) <==> u.At(1, 0) == 0.0 && u.At(2, 0) == 0.0 && w.At(1, 0) == 0.0 && w.At(2, 0) == 0.0
  {
    hide Matrix.At, AxisPart;
    var u, w := AxisPart(x, 0), AxisPart(x, 1);
    assert u.At(1, 0) == x.At(2, 0) && u.At(2, 0) == x.At(4, 0);
    assert w.At(1, 0) == x.At(3, 0) && w.At(2, 0) == x.At(5, 0);
  }

  /** A prediction only adds its noise to the variance of an acceleration. */
  lemma AccelerationVariance(p: Matrix, dt: real)
    requires p.Is(6, 6)
    ensures PredictCovariance(p, dt).At(4, 4) == p.At(4, 4) + 0.01 * dt
  {
    hide Times, Matrix.At, Sum;
    var f := Transition(dt);
    var g, ft := Mul(f, p), Transpose(Transition(dt));
    ZeroTimes();
    LastRow(dt);
    SumSingle(Terms(f, p, 4, 4), 4, 6);
    SumSingle(Terms(g, ft, 4, 4), 4, 6);
    assert ProcessNoise(dt).At(4, 4) == Times(0.01 * dt, 1.0);
  }

  lemma LastRow(dt: real)
    ensures forall j | 0 <= j < 6 :: Transition(dt).At(4, j) == if j == 4 then 1.0 else 0.0
  {
  }

  lemma ForwardVariance(f: Filter, dt: real)
    requires f.Shaped()
    ensures PredictFilter(f, dt).p.At(4, 4) == f.p.At(4, 4) + 0.01 * Forward(dt)
  {
    hide PredictCovariance, Mul, Transition, Matrix.At;
    if dt > 0.0 {
      AccelerationVariance(f.p, dt);
    }
  }

  /** Two predictions leave the same filter, covariance and all, exactly when they move it by the same time. */
  lemma SameFilter(f: Filter, d: real, e: real)
    requires f.Shaped()
    ensures PredictFilter(f, d) == PredictFilter(f, e) <==> Forward(d) == Forward(e)
  {
    hide PredictCovariance, Mul, Transition, Matrix.At;
    ForwardVariance(f, d);
    ForwardVariance(f, e);
  }

  lemma {:induction false} PredictionsVariance(f: Filter, dts: seq<real>)
    requires f.Shaped()
    ensures Run(f, Predictions(dts)).p.At(4, 4) == f.p.At(4, 4) + 0.01 * Total(dts)
    decreases |dts|
  {
    hide PredictFilter, Matrix.At, Forward;
    if dts == [] {
    } else {
      var es := Predictions(dts);
      assert es[0] == Predict(dts[0]) && es[1..] == Predictions(dts[1..]);
      StepShape(f, dts[0]);
      ForwardVariance(f, dts[0]);
      PredictionsVariance(Step(f, es[0]), dts[1..]);
    }
  }

  /** Refused predictions do nothing, so only the last one of these counts. */
  lemma {:induction false} OnlyLastCounts(f: Filter, dts: seq<real>)
    requires f.Shaped() && dts != [] && forall i | 0 <= i < |dts| - 1 :: dts[i] <= 0.0
    ensures Run(f, Predictions(dts)) == PredictFilter(f, dts[|dts| - 1])
    decreases |dts|
  {
    hide PredictCovariance, Mul, Transition;
    var es := Predictions(dts);
    assert es[0] == Predict(dts[0]) && es[1..] == Predictions(dts[1..]);
    StepShape(f, dts[0]);
    if |dts| == 1 {
      assert dts[1..] == [];
    } else {
      assert dts[0] <= 0.0;
      OnlyLastCounts(f, dts[1..]);
    }
  }
}
