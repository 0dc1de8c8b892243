/** By how much the maintenance passes extrapolate a track, against the time that really passed. */
module Extrapolation {
  import opened Sums
  import opened Matrices
  import opened QuadraticForms
  import opened FilterModel
  import opened AxisModel
  import opened FilterRuns
  import opened KalmanFilter
  import opened PredictionComposition
  import opened Tracks
  import opened TrackTable
  import opened Maintenance
  import opened TableRuns

  // ---- a track that is not measured again

  /** The pass never advances lastUpdate, so every pass predicts by the whole time since the last update. */
  function Elapsed(times: seq<real>, since: real): (dts: seq<real>)
    ensures |dts| == |times| && forall i | 0 <= i < |dts| :: dts[i] == times[i] - since
  {
    if times == [] then [] else [times[0] - since] + Elapsed(times[1..], since)
  }

  lemma {:induction false} ProcessAllIsRun(t: Track, times: seq<real>)
    requires t.filter.Shaped()
    ensures ProcessAll(t, times).filter == Run(t.filter, Predictions(Elapsed(times, t.lastUpdate)))
    decreases |times|
  {
    hide PredictFilter;
    if times == [] {
    } else {
      var dts := Elapsed(times, t.lastUpdate);
      var es := Predictions(dts);
      assert es[0] == Predict(times[0] - t.lastUpdate) && es[1..] == Predictions(dts[1..]);
      StepShape(t.filter, times[0] - t.lastUpdate);
      ProcessAllIsRun(Process(t, times[0]), times[1..]);
    }
  }

  /** The total is the last time alone exactly when the earlier ones count for nothing. */
  lemma {:induction false} TotalIsLast(dts: seq<real>)
    requires dts != []
    ensures Total(dts) == Forward(dts[|dts| - 1]) <==> forall i | 0 <= i < |dts| - 1 :: dts[i] <= 0.0
    ensures Total(dts) >= Forward(dts[|dts| - 1])
  {
    if |dts| == 1 {
      assert Total(dts[1..]) == 0.0;
    } else {
      var rest := dts[1..];
      TotalIsLast(rest);
      assert rest[|rest| - 1] == dts[|dts| - 1];
      if Total(dts) == Forward(dts[|dts| - 1]) {
        forall i | 0 <= i < |dts| - 1 ensures dts[i] <= 0.0 {
          assert i > 0 ==> rest[i - 1] == dts[i];
        }
      }
    }
  }

  /** No pass but the last came after the last update. */
  predicate OnePass(times: seq<real>, since: real) { forall i | 0 <= i < |times| - 1 :: times[i] <= since }

  /**
   After the passes at the given times the filter of an unmeasured track is that of one prediction to
   the time of the last pass exactly when only that pass came after the last update.
   */
  lemma IdleTrackHorizon(t: Track, times: seq<real>)
    requires t.filter.Shaped() && times != []
    ensures ProcessAll(t, times).filter == PredictFilter(t.filter, times[|times| - 1] - t.lastUpdate) <==>
            OnePass(times, t.lastUpdate)
  {
    hide PredictFilter, Matrix.At;
    var dts := Elapsed(times, t.lastUpdate);
    ProcessAllIsRun(t, times);
    TotalIsLast(dts);
    PredictionsVariance(t.filter, dts);
    ForwardVariance(t.filter, dts[|dts| - 1]);
    if OnePass(times, t.lastUpdate) {
      OnlyLastCounts(t.filter, dts);
    }
  }

  /** Its state vector alone is also right when nothing moves; it is that of one prediction by the sum of the times. */
  lemma IdleStateHorizon(t: Track, times: seq<real>)
    requires t.filter.Shaped() && times != []
    ensures ProcessAll(t, times).filter.x == PredictFilter(t.filter, Total(Elapsed(times, t.lastUpdate))).x
    ensures ProcessAll(t, times).filter.x == PredictFilter(t.filter, times[|times| - 1] - t.lastUpdate).x <==>
            OnePass(times, t.lastUpdate) || AtRest(t.filter.x)
  {
    hide PredictFilter, AtRest;
    var dts := Elapsed(times, t.lastUpdate);
    ProcessAllIsRun(t, times);
    PredictionsCompose(t.filter, dts);
    TotalIsLast(dts);
    SamePrediction(t.filter, Total(dts), dts[|dts| - 1]);
  }

  /** The same of the table: what a run that misses a track makes of it while it is within its age. */
  lemma IdleTrackOnRun(tab: Table, ss: seq<Step>, cfg: Config, lib: MathLib, t: Track)
    requires Inv(tab) && t in tab.Live() && RunMisses(tab, ss, cfg, lib, t.id) && TickTimes(ss) != []
    requires t.confidence >= cfg.confidenceThreshold && t.age + |TickTimes(ss)| <= cfg.maxTrackAge
    ensures var times := TickTimes(ss);
      exists u | u in RunTable(tab, ss, cfg, lib).Live() ::
        && u.id == t.id && u.age == t.age + |times|
        && (u.filter == PredictFilter(t.filter, times[|times| - 1] - t.lastUpdate) <==> OnePass(times, t.lastUpdate))
        && (u.filter.x == PredictFilter(t.filter, times[|times| - 1] - t.lastUpdate).x <==>
            OnePass(times, t.lastUpdate) || AtRest(t.filter.x))
  {
    hide PredictFilter, AtRest, RunTable, RunMisses, OnePass, Reachable, DistinctIds, IdsBelow;
    var times := TickTimes(ss);
    var i :| 0 <= i < tab.count && tab.Live()[i] == t;
    assert Genuine(t.filter);
    UnmeasuredLifetime(tab, ss, cfg, lib, t);
    ProcessAllKeeps(t, times);
    IdleTrackHorizon(t, times);
    IdleStateHorizon(t, times);
    assert ProcessAll(t, times) in RunTable(tab, ss, cfg, lib).Live();
  }

  // ---- a track that was just created

  /** A new track is at rest exactly when it was measured without speed. */
  lemma InitialRest(m: TargetTrack, lib: MathLib)
    ensures InitialFromTrack(m, lib).Shaped()
    ensures AtRest(InitialFromTrack(m, lib).x) <==> InitialVelocity(m, lib) == (0.0, 0.0)
  {
    hide InitialVelocity, InitialCovariance;
    var x, v := InitialFromTrack(m, lib).x, InitialVelocity(m, lib);
    assert x.At(2, 0) == v.0 && x.At(3, 0) == v.1 && x.At(4, 0) == 0.0 && x.At(5, 0) == 0.0;
  }

  /** The two times are the same, or both lie ahead of the pass, which then predicts nothing. */
  predicate SameAge(since: real, measured: real, now: real) {
    since == measured || (now <= since && now <= measured)
  }

  /**
   The first pass after a creation predicts by the time since the slot was last updated, whatever it
   held then. The filter is that of the time since the measurement exactly when the two times are the
   same or both lie ahead of the pass.
   */
  lemma CreatedTrackPrediction(slot: Track, id: int, m: TargetTrack, sensor: int, lib: MathLib, now: real)
    ensures var t := Create(slot, id, m, sensor, lib);
      Process(t, now).filter == PredictFilter(t.filter, now - m.timestamp) <==>
        SameAge(slot.lastUpdate, m.timestamp, now)
  {
    hide InitialFromTrack, InitialVelocity, PredictFilter, AtRest;
    InitialRest(m, lib);
    SameFilter(InitialFromTrack(m, lib), now - slot.lastUpdate, now - m.timestamp);
  }

  /** Its state vector alone is also right when the target was measured without speed. */
  lemma CreatedStatePrediction(slot: Track, id: int, m: TargetTrack, sensor: int, lib: MathLib, now: real)
    ensures var t := Create(slot, id, m, sensor, lib);
      Process(t, now).filter.x == PredictFilter(t.filter, now - m.timestamp).x <==>
        SameAge(slot.lastUpdate, m.timestamp, now) || InitialVelocity(m, lib) == (0.0, 0.0)
  {
    hide InitialFromTrack, InitialVelocity, PredictFilter, AtRest;
    InitialRest(m, lib);
    SamePrediction(InitialFromTrack(m, lib), now - slot.lastUpdate, now - m.timestamp);
  }

  /** A new processor takes its first measurement. */
  lemma FirstCreation(m: TargetTrack, sensor: int, cfg: Config, lib: MathLib)
    requires Inv(FreshTable())
    ensures var r := Apply(FreshTable(), Batch([m], sensor), cfg, lib);
            r.count == 1 && r.Live() == [Create(BlankTrack(), 1, m, sensor, lib)]
  {
    hide Inv, Create, Gateable, Genuine;
    var tab := FreshTable();
    AddOneInv(tab, m, sensor, cfg, lib);
    assert tab.Live() == [];
    assert Nearest([], m, Gate(cfg)) == -1;
    AddOneCases(tab, m, sensor, cfg, lib, -1);
    var next := AddOne(tab, m, sensor, cfg, lib);
    assert [m][0] == m && [m][1..] == [];
    assert AddBatch(next, [], sensor, cfg, lib) == next;
    assert AddBatch(tab, [m], sensor, cfg, lib) == next;
  }

  /**
   So on a new processor, whose slots are zeroed, the first pass extrapolates the first track by the
   time since the epoch, which is right only for a measurement of the epoch or a pass that precedes
   both; the state vector alone is also right for a target without speed.
   */
  lemma FirstPassFromEpoch(m: TargetTrack, sensor: int, cfg: Config, lib: MathLib, now: real)
    requires 1 <= cfg.maxTrackAge && m.confidence >= cfg.confidenceThreshold
    ensures Inv(FreshTable())
    ensures var r, f := RunTable(FreshTable(), [Batch([m], sensor), Tick(now)], cfg, lib), InitialFromTrack(m, lib);
      && r.count == 1 && r.Live()[0].id == 1
      && r.Live()[0].filter == PredictFilter(f, now)
      && (r.Live()[0].filter == PredictFilter(f, now - m.timestamp) <==> SameAge(0.0, m.timestamp, now))
      && (r.Live()[0].filter.x == PredictFilter(f, now - m.timestamp).x <==>
            SameAge(0.0, m.timestamp, now) || InitialVelocity(m, lib) == (0.0, 0.0))
  {
    hide Inv, PredictFilter, InitialFromTrack, InitialVelocity, Pass, AddBatch, BlankTrack;
    FreshTableInv();
    var ss := [Batch([m], sensor), Tick(now)];
    var t, tab := Create(BlankTrack(), 1, m, sensor, lib), Apply(FreshTable(), ss[0], cfg, lib);
    FirstCreation(m, sensor, cfg, lib);
    InvShape(tab);
    assert tab.Live()[0] == t;
    PassOfTrack(tab, now, cfg, t);
    var r := Apply(tab, ss[1], cfg, lib);
    assert ss[1..][0] == ss[1] && ss[1..][1..] == [];
    assert RunTable(r, [], cfg, lib) == r;
    assert RunTable(tab, ss[1..], cfg, lib) == RunTable(r, [], cfg, lib);
    BlankTime();
    CreatedStatePrediction(BlankTrack(), 1, m, sensor, lib, now);
    CreatedTrackPrediction(BlankTrack(), 1, m, sensor, lib, now);
  }

  lemma BlankTime()
    ensures BlankTrack().lastUpdate == 0.0
  {
  }

  /** A target moving by one a second, measured at 0 in second 1000 and passed in second 1001, is put at 1001. */
  lemma StaleTimeExample(lib: MathLib, sensor: int)
    requires lib.cos(0.0) == 1.0 && lib.sin(0.0) == 0.0
    ensures Inv(FreshTable())
    ensures var m, cfg := TargetTrack(1, Vehicle, 0.0, 0.0, 1.0, 0.0, 0.9, 1000.0), Config(5.0, 0.3, 5);
      var r := RunTable(FreshTable(), [Batch([m], sensor), Tick(1001.0)], cfg, lib);
      && r.count == 1 && r.Live()[0].filter.x.At(0, 0) == 1001.0
      && PredictFilter(InitialFromTrack(m, lib), 1.0).x.At(0, 0) == 1.0
  {
    hide Inv, RunTable, InitialCovariance, PredictCovariance, Mul, Transition;
    var m, cfg := TargetTrack(1, Vehicle, 0.0, 0.0, 1.0, 0.0, 0.9, 1000.0), Config(5.0, 0.3, 5);
    FirstPassFromEpoch(m, sensor, cfg, lib, 1001.0);
    var f := InitialFromTrack(m, lib);
    assert InitialVelocity(m, lib) == (1.0, 0.0);
    PredictedPosition(f, 1001.0);
    PredictedPosition(f, 1.0);
  }

  /** Where a prediction puts the target. */
  lemma PredictedPosition(f: Filter, dt: real)
    requires f.Shaped() && dt > 0.0
    ensures PredictFilter(f, dt).x.At(0, 0) == f.x.At(0, 0) + dt * f.x.At(2, 0) + 0.5 * dt * dt * f.x.At(4, 0)
    ensures PredictFilter(f, dt).x.At(1, 0) == f.x.At(1, 0) + dt * f.x.At(3, 0) + 0.5 * dt * dt * f.x.At(5, 0)
  {
    hide Mul, Transition, AxisTransition, Interleave, PredictCovariance, Matrix.At, AxisPart;
    var u, w := AxisPart(f.x, 0), AxisPart(f.x, 1);
    InterleaveParts(f.x);
    SplitPrediction(u, w, dt);
    AxisPredicted(u, dt);
    AxisPredicted(w, dt);
    assert AxisPart(PredictFilter(f, dt).x, 1).At(0, 0) == PredictFilter(f, dt).x.At(1, 0);
    assert w.At(0, 0) == f.x.At(1, 0) && w.At(1, 0) == f.x.At(3, 0) && w.At(2, 0) == f.x.At(5, 0);
    assert AxisPart(PredictFilter(f, dt).x, 0).At(0, 0) == PredictFilter(f, dt).x.At(0, 0);
    assert u.At(0, 0) == f.x.At(0, 0) && u.At(1, 0) == f.x.At(2, 0) && u.At(2, 0) == f.x.At(4, 0);
  }

  /** At rest the state stays right, but the variance of its acceleration is 15.01 instead of 5.01. */
  lemma StaleVarianceExample(lib: MathLib, sensor: int)
    ensures Inv(FreshTable())
    ensures var m, cfg := TargetTrack(1, Vehicle, 0.0, 0.0, 0.0, 0.0, 0.9, 1000.0), Config(5.0, 0.3, 5);
      var r := RunTable(FreshTable(), [Batch([m], sensor), Tick(1001.0)], cfg, lib);
      && r.count == 1 && r.Live()[0].filter.x == PredictFilter(InitialFromTrack(m, lib), 1.0).x
      && r.Live()[0].filter.p.At(4, 4) == 15.01
      && PredictFilter(InitialFromTrack(m, lib), 1.0).p.At(4, 4) == 5.01
  {
    hide Inv, RunTable, PredictFilter, InitialVelocity;
    var m, cfg := TargetTrack(1, Vehicle, 0.0, 0.0, 0.0, 0.0, 0.9, 1000.0), Config(5.0, 0.3, 5);
    NoSpeed(m, lib);
    FirstPassFromEpoch(m, sensor, cfg, lib, 1001.0);
    var f := InitialFromTrack(m, lib);
    ForwardVariance(f, 1001.0);
    ForwardVariance(f, 1.0);
  }

  lemma NoSpeed(m: TargetTrack, lib: MathLib)
    requires m.velocity == 0.0
    ensures InitialVelocity(m, lib) == (0.0, 0.0)
  {
    var angle := Radians(m.heading, lib);
    ZeroTimes();
    assert m.velocity * lib.cos(angle) == Times(0.0, lib.cos(angle));
    assert m.velocity * lib.sin(angle) == Times(0.0, lib.sin(angle));
  }

  // ---- what the stale time does to the next association

  /** The square of the distance (dx, dy), over the variance s, is below the gate. */
  predicate InGate(dx: real, dy: real, gate: real, s: real) { dx * dx + dy * dy < gate * s }

  /** The position variance of a new track after a prediction by dt. */
  function FirstVariance(dt: real): real { 0.5 + 2.0 * dt * dt + 1.25 * dt * dt * dt * dt + 0.01 * dt }

  lemma FirstVarianceIs(dt: real)
    ensures var p := PredictCovariance(InitialCovariance(), dt);
            p.At(0, 0) == FirstVariance(dt) && p.At(1, 1) == FirstVariance(dt)
  {
    hide Embed, AxisPredictBlock, AxisInitialBlock, PredictCovariance, InitialCovariance, FirstVariance;
    InitialIsEmbedded();
    PredictEmbedded(AxisInitialBlock(), dt);
    FirstAxisVariance(dt);
  }

  lemma FirstAxisVariance(dt: real)
    ensures AxisPredictBlock(AxisInitialBlock(), dt).At(0, 0) == FirstVariance(dt)
  {
    hide Times, Matrix.At, Sum, AxisEntry;
    var f, c := AxisTransition(dt), AxisInitialBlock();
    var g, ft := Mul(f, c), Transpose(AxisTransition(dt));
    ZeroTimes();
    SumSingle(Terms(f, c, 0, 0), 0, 3);
    SumSingle(Terms(f, c, 0, 1), 1, 3);
    SumSingle(Terms(f, c, 0, 2), 2, 3);
    Unroll3(Terms(g, ft, 0, 0));
    FirstTerms(dt);
    assert Scale(0.01 * dt, Identity(3)).At(0, 0) == Times(0.01 * dt, 1.0);
  }

  lemma FirstTerms(dt: real)
    ensures Times(Times(AxisEntry(0, 0, dt), InitialVariance(0)), AxisEntry(0, 0, dt))
              + Times(Times(AxisEntry(0, 1, dt), InitialVariance(1)), AxisEntry(0, 1, dt))
              + Times(Times(AxisEntry(0, 2, dt), InitialVariance(2)), AxisEntry(0, 2, dt))
              + 0.01 * dt == FirstVariance(dt)
  {
    var h := 0.5 * dt * dt;
    assert h * 5.0 * h == 1.25 * dt * dt * dt * dt;
  }

  /**
   After the first pass on a new processor the next measurement is fused into the one track exactly when
   its squared distance from where that track is put is below the squared threshold times about
   1.25 * now^4, where a pass by the true time would have used the age of the track.
   */
  lemma FirstPassGate(m: TargetTrack, sensor: int, cfg: Config, lib: MathLib, now: real, z: TargetTrack)
    requires 1 <= cfg.maxTrackAge && m.confidence >= cfg.confidenceThreshold && now > 0.0
    ensures Inv(FreshTable())
    ensures var r := RunTable(FreshTable(), [Batch([m], sensor), Tick(now)], cfg, lib);
      && r.count == 1 && AllGateable(r.Live())
      && r.Live()[0].id == 1
      && var v := InitialVelocity(m, lib);
      && var dx, dy := z.longitude - Ahead(m.longitude, v.0, now), z.latitude - Ahead(m.latitude, v.1, now);
      Decide(r, z, cfg) == Updated(0) <==> InGate(dx, dy, Gate(cfg), FirstVariance(now) + 0.1)
  {
    hide Inv, RunTable, InitialVelocity, PredictCovariance, InitialCovariance, FirstVariance, Gate, DistanceSq, InGate,
         Ahead, Decide, Mul, Transition, Gateable, Matrix.At;
    FirstPassFromEpoch(m, sensor, cfg, lib, now);
    var r := RunTable(FreshTable(), [Batch([m], sensor), Tick(now)], cfg, lib);
    InvGateable(r);
    FirstVarianceIs(now);
    var f, v := r.Live()[0].filter, InitialVelocity(m, lib);
    InitialComponents(m, lib);
    PredictedPosition(InitialFromTrack(m, lib), now);
    ConstantVelocity(m.longitude, v.0, now);
    ConstantVelocity(m.latitude, v.1, now);
    var dx, dy := z.longitude - Ahead(m.longitude, v.0, now), z.latitude - Ahead(m.latitude, v.1, now);
    EqualVarianceGate(f, z, FirstVariance(now) + 0.1, Gate(cfg), dx, dy);
    OneTrackDecision(r, z, cfg);
  }

  /** Where a new track starts. */
  lemma InitialComponents(m: TargetTrack, lib: MathLib)
    ensures var x, v := InitialFromTrack(m, lib).x, InitialVelocity(m, lib);
      && x.At(0, 0) == m.longitude && x.At(1, 0) == m.latitude
      && x.At(2, 0) == v.0 && x.At(3, 0) == v.1 && x.At(4, 0) == 0.0 && x.At(5, 0) == 0.0
  {
    hide InitialVelocity, InitialCovariance;
  }

  /** Uniform motion for dt. */
  function Ahead(x: real, v: real, dt: real): real { x + dt * v }

  lemma ConstantVelocity(x: real, v: real, dt: real)
    ensures x + dt * v + 0.5 * dt * dt * 0.0 == Ahead(x, v, dt)
  {
  }

  lemma OneTrackDecision(tab: Table, z: TargetTrack, cfg: Config)
    requires tab.Shaped() && tab.count == 1 && AllGateable(tab.Live())
    ensures Decide(tab, z, cfg) == Updated(0) <==> DistanceSq(tab.Live()[0].filter, z) < Gate(cfg)
  {
    hide DistanceSq, Gate, Gateable;
    assert Closest(tab.Live(), z, Gate(cfg), Nearest(tab.Live(), z, Gate(cfg)));
  }

  lemma InvGateable(tab: Table)
    requires Inv(tab)
    ensures tab.Shaped() && AllGateable(tab.Live())
  {
    hide Genuine, Gateable;
    GenuineGateable(tab.Live());
  }

  lemma EqualVarianceGate(f: Filter, z: TargetTrack, s: real, gate: real, dx: real, dy: real)
    requires Gateable(f) && f.p.At(0, 0) + 0.1 == s && f.p.At(1, 1) + 0.1 == s
    requires dx == z.longitude - f.x.At(0, 0) && dy == z.latitude - f.x.At(1, 0)
    ensures DistanceSq(f, z) < gate <==> InGate(dx, dy, gate, s)
  {
    OverVariance(dx * dx, dy * dy, s, gate);
  }

  lemma OverVariance(a: real, b: real, s: real, gate: real)
    requires s > 0.0
    ensures a / s + b / s < gate <==> a + b < gate * s
  {
    var q := a / s + b / s;
    assert q * s == a + b;
    if q < gate {
      PositiveTimes(gate - q, s);
      assert Times(gate - q, s) == gate * s - q * s;
    } else if gate < q {
      PositiveTimes(q - gate, s);
      assert Times(q - gate, s) == q * s - gate * s;
    }
  }
}
