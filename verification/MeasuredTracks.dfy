/** What a measurement makes of a track, in the numbers that were measured. */
module MeasuredTracks {
  import opened Matrices
  import opened FilterModel
  import opened FilterRuns
  import opened KalmanFilter
  import opened Tracks
  import opened TrackTable
  import opened Maintenance

  function Square(x: real): real { x * x }

  // ---- a track that is fused with a measurement

  /** What is left of a difference to the measurement when the position variance was v. */
  function Remaining(difference: real, v: real): real
    requires v > 0.0
  {
    difference * (0.1 / (v + 0.1))
  }

  /**
   u is t after the measurement m: both coordinates move to the measured ones by the weight of the
   position variance, three tenths of the confidence are the new one's, and time starts anew.
   */
  ghost predicate IsFused(t: Track, m: TargetTrack, u: Track) {
    && t.filter.p.At(0, 0) > 0.0
    && var v := t.filter.p.At(0, 0);
    && m.longitude - u.filter.x.At(0, 0) == Remaining(m.longitude - t.filter.x.At(0, 0), v)
    && m.latitude - u.filter.x.At(1, 0) == Remaining(m.latitude - t.filter.x.At(1, 0), v)
    && u.filter.p.At(0, 0) == u.filter.p.At(1, 1) == Remaining(v, v) < 0.1
    && u.confidence - m.confidence == 0.7 * (t.confidence - m.confidence)
    && u.id == t.id && u.kind == t.kind && u.age == 0
    && u.lastUpdate == u.filter.lastUpdate == m.timestamp
    && forall now: real :: Process(u, now).filter == PredictFilter(u.filter, now - m.timestamp)
  }

  lemma FusedIs(t: Track, m: TargetTrack)
    requires Genuine(t.filter)
    ensures t.filter.Shaped() && IsFused(t, m, Fuse(t, m)) && Fuse(t, m).sensors == t.sensors
  {
    hide Reachable, PredictFilter, UpdateState, UpdateCovariance, Rejects, Matrix.At;
    UpdateContracts(t.filter, m.longitude, m.latitude, m.timestamp);
  }

  /** The same in the table, of the track that the association chose. */
  lemma MeasurementFused(tab: Table, m: TargetTrack, sensor: int, cfg: Config, lib: MathLib)
    requires Inv(tab)
    ensures AllGateable(tab.Live())
    ensures var r, o := AddOne(tab, m, sensor, cfg, lib), Decide(tab, m, cfg);
      o.Updated? ==>
        && IsFused(tab.slots[o.index], m, r.slots[o.index])
        && r.slots[o.index].sensors == tab.slots[o.index].sensors + {sensor}
  {
    hide Genuine, AllGateable, Decide, Fuse, IsFused, Create, PredictFilter;
    GenuineGateable(tab.Live());
    var o := Decide(tab, m, cfg);
    if o.Updated? {
      assert tab.Live()[o.index] == tab.slots[o.index];
      var t := tab.slots[o.index];
      FusedIs(t, m);
      WithSensor(t, m, Fuse(t, m), t.sensors + {sensor});
    }
  }

  lemma WithSensor(t: Track, m: TargetTrack, u: Track, sensors: set<int>)
    requires IsFused(t, m, u)
    ensures IsFused(t, m, u.(sensors := sensors))
  {
    hide PredictFilter;
    forall now: real ensures Process(u.(sensors := sensors), now).filter == PredictFilter(u.filter, now - m.timestamp) {
      assert Process(u, now).filter == PredictFilter(u.filter, now - m.timestamp);
    }
  }

  // ---- a track that is created from a measurement

  /** The gating distance from a new track is the distance to where it was measured, over the first variance. */
  lemma InitialDistance(m: TargetTrack, lib: MathLib, z: TargetTrack)
    ensures Gateable(InitialFromTrack(m, lib))
    ensures DistanceSq(InitialFromTrack(m, lib), z) ==
            (Square(z.longitude - m.longitude) + Square(z.latitude - m.latitude)) / 0.6
    ensures DistanceSq(InitialFromTrack(m, lib), m) == 0.0
  {
    hide Genuine, InitialVelocity;
    InitialGenuine(m, lib);
    InitialGateable(m, lib);
    var f := InitialFromTrack(m, lib);
    assert f.x.At(0, 0) == m.longitude && f.x.At(1, 0) == m.latitude;
    assert f.p.At(0, 0) == 0.5 && f.p.At(1, 1) == 0.5;
  }

  lemma InitialGateable(m: TargetTrack, lib: MathLib)
    requires Genuine(InitialFromTrack(m, lib))
    ensures Gateable(InitialFromTrack(m, lib))
  {
  }

  /** A measurement that matches nothing becomes the last live track, with what was measured of it. */
  lemma MeasurementCreates(tab: Table, m: TargetTrack, sensor: int, cfg: Config, lib: MathLib)
    requires Inv(tab)
    ensures AllGateable(tab.Live())
    ensures var r := AddOne(tab, m, sensor, cfg, lib);
      Decide(tab, m, cfg).Created? ==>
        && r.count == tab.count + 1 && r.nextId == tab.nextId + 1
        && var u := r.slots[tab.count];
        && u.id == tab.nextId && u.kind == m.kind && u.confidence == m.confidence && u.age == 0 && u.sensors == {sensor}
        && u.lastUpdate == tab.slots[tab.count].lastUpdate && u.filter.lastUpdate == m.timestamp
        && u.filter.x.At(0, 0) == m.longitude && u.filter.x.At(1, 0) == m.latitude
        && u.filter.x.At(4, 0) == 0.0 && u.filter.x.At(5, 0) == 0.0
  {
    hide Genuine, AllGateable, Decide, Fuse, InitialVelocity, InitialCovariance;
    GenuineGateable(tab.Live());
  }

  // ---- from the measurement to the published track

  /** What C's mathematics library does with an angle and a length: resolve and recover. */
  predicate Polar(lib: MathLib, angle: real, r: real) {
    && Square(lib.cos(angle)) + Square(lib.sin(angle)) == 1.0
    && lib.atan2(r * lib.sin(angle), r * lib.cos(angle)) == angle
  }

  /** A track that was just created is published as it was measured, under its new id and at the new time. */
  lemma PublishedAsMeasured(slot: Track, id: int, m: TargetTrack, sensor: int, lib: MathLib, now: real)
    requires TakesRoots(lib) && m.velocity >= 0.0 && Polar(lib, Radians(m.heading, lib), m.velocity)
    ensures Publish(Create(slot, id, m, sensor, lib), now, lib) == m.(id := id, timestamp := now)
  {
    hide InitialCovariance, InitialVelocity, TakesRoots, Polar, Speed, HeadingDegrees, Radians;
    var t, v := Create(slot, id, m, sensor, lib), InitialVelocity(m, lib);
    assert t.filter.x.At(2, 0) == v.0 && t.filter.x.At(3, 0) == v.1;
    SpeedRecovered(m, lib);
    HeadingRecovered(m, lib);
  }

  lemma SpeedRecovered(m: TargetTrack, lib: MathLib)
    requires TakesRoots(lib) && m.velocity >= 0.0 && Polar(lib, Radians(m.heading, lib), m.velocity)
    ensures var v := InitialVelocity(m, lib); Speed(v.0, v.1, lib) == m.velocity
  {
    hide TakesRoots, Radians, Square, Speed;
    var r, a, v := m.velocity, Radians(m.heading, lib), InitialVelocity(m, lib);
    Resolved(r, lib.cos(a), lib.sin(a), v.0, v.1);
    SpeedIs(r, v.0, v.1, lib);
  }

  lemma SpeedIs(r: real, vx: real, vy: real, lib: MathLib)
    requires TakesRoots(lib) && r >= 0.0 && vx * vx + vy * vy == r * r
    ensures Speed(vx, vy, lib) == r
  {
    hide TakesRoots;
    RootOf(lib, r, vx * vx + vy * vy);
  }

  lemma Resolved(r: real, c: real, s: real, vx: real, vy: real)
    requires Square(c) + Square(s) == 1.0 && vx == r * c && vy == r * s
    ensures vx * vx + vy * vy == r * r
  {
    assert vx * vx == (r * r) * (c * c) && vy * vy == (r * r) * (s * s);
    assert (r * r) * (c * c) + (r * r) * (s * s) == (r * r) * (c * c + s * s);
  }

  lemma RootOf(lib: MathLib, r: real, x: real)
    requires TakesRoots(lib) && r >= 0.0 && x == r * r
    ensures lib.sqrt(x) == r
  {
    assert x >= 0.0;
    assert IsRoot(lib.sqrt(x), x) && IsRoot(r, x);
    RootOrder(lib.sqrt(x), x, r, x);
    RootOrder(r, x, lib.sqrt(x), x);
  }

  lemma HeadingRecovered(m: TargetTrack, lib: MathLib)
    requires Polar(lib, Radians(m.heading, lib), m.velocity)
    ensures var v := InitialVelocity(m, lib); HeadingDegrees(v.0, v.1, lib) == m.heading
  {
    hide Radians, Square, HeadingDegrees;
    var r, a, v := m.velocity, Radians(m.heading, lib), InitialVelocity(m, lib);
    AngleRecovered(r, a, v.0, v.1, lib);
    HeadingIs(m.heading, v.0, v.1, lib);
  }

  lemma AngleRecovered(r: real, a: real, vx: real, vy: real, lib: MathLib)
    requires Polar(lib, a, r) && vx == r * lib.cos(a) && vy == r * lib.sin(a)
    ensures lib.atan2(vy, vx) == a
  {
  }

  lemma HeadingIs(h: real, vx: real, vy: real, lib: MathLib)
    requires lib.atan2(vy, vx) == Radians(h, lib)
    ensures HeadingDegrees(vx, vy, lib) == h
  {
    hide Radians;
    DegreesBack(h, lib);
  }

  lemma DegreesBack(h: real, lib: MathLib)
    ensures Radians(h, lib) * 180.0 / lib.pi == h
  {
    assert Radians(h, lib) * 180.0 == h * lib.pi;
  }
}
