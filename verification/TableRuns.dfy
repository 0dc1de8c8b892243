/** What every interleaving of measurement batches and maintenance passes keeps. */
module TableRuns {
  import opened FilterModel
  import opened KalmanFilter
  import opened Tracks
  import opened TrackTable
  import opened Maintenance

  datatype Step = Batch(tracks: seq<TargetTrack>, sensor: int) | Tick(now: real)

  ghost function AddBatch(tab: Table, ms: seq<TargetTrack>, sensor: int, cfg: Config, lib: MathLib): (r: Table)
    requires Inv(tab)
    ensures Inv(r)
    decreases |ms|
  {
    if ms == [] then tab
    else
      AddOneInv(tab, ms[0], sensor, cfg, lib);
      AddBatch(AddOne(tab, ms[0], sensor, cfg, lib), ms[1..], sensor, cfg, lib)
  }

  ghost function Apply(tab: Table, s: Step, cfg: Config, lib: MathLib): (r: Table)
    requires Inv(tab)
    ensures Inv(r)
  {
    match s
    case Batch(ms, sensor) => AddBatch(tab, ms, sensor, cfg, lib)
    case Tick(now) => PassInv(tab, now, cfg); Pass(tab, now, cfg)
  }

  /** The table after a run; that it is well defined says that every step keeps the invariant. */
  ghost function RunTable(tab: Table, ss: seq<Step>, cfg: Config, lib: MathLib): (r: Table)
    requires Inv(tab)
    ensures Inv(r)
    decreases |ss|
  {
    if ss == [] then tab else RunTable(Apply(tab, ss[0], cfg, lib), ss[1..], cfg, lib)
  }

  /** What became of the measurements of a batch, in order. */
  ghost function Outcomes(tab: Table, ms: seq<TargetTrack>, sensor: int, cfg: Config, lib: MathLib): (os: seq<Outcome>)
    requires Inv(tab)
    ensures |os| == |ms|
    decreases |ms|
  {
    if ms == [] then []
    else
      AddOneInv(tab, ms[0], sensor, cfg, lib);
      [Decide(tab, ms[0], cfg)] + Outcomes(AddOne(tab, ms[0], sensor, cfg, lib), ms[1..], sensor, cfg, lib)
  }

  function Updates(os: seq<Outcome>): nat {
    if os == [] then 0 else (if os[0].Updated? then 1 else 0) + Updates(os[1..])
  }

  function Creations(os: seq<Outcome>): nat {
    if os == [] then 0 else (if os[0].Created? then 1 else 0) + Creations(os[1..])
  }

  function Drops(os: seq<Outcome>): nat {
    if os == [] then 0 else (if os[0].Dropped? then 1 else 0) + Drops(os[1..])
  }

  function Min(a: int, b: int): int { if a <= b then a else b }

  /**
   The accounts of a whole batch: every measurement updates, creates or is dropped; the count and the
   next id grow by the creations; and as many of the measurements that update nothing create a track
   as there are free slots, so that nothing is dropped while one is left.
   */
  lemma {:induction false} BatchGrowth(tab: Table, ms: seq<TargetTrack>, sensor: int, cfg: Config, lib: MathLib)
    requires Inv(tab)
    ensures var r, os := AddBatch(tab, ms, sensor, cfg, lib), Outcomes(tab, ms, sensor, cfg, lib);
      && Updates(os) + Creations(os) + Drops(os) == |ms|
      && r.count - tab.count == r.nextId - tab.nextId == Creations(os) == Min(CAPACITY - tab.count, |ms| - Updates(os))
      && (Drops(os) > 0 ==> r.count == CAPACITY)
      && forall i | 0 <= i < tab.count :: r.slots[i].id == tab.slots[i].id && r.slots[i].kind == tab.slots[i].kind
    decreases |ms|
  {
    hide DistinctIds, IdsBelow, AllGenuine, Create, Decide, AddOne, AllGateable;
    if ms == [] {
    } else {
      AddOneInv(tab, ms[0], sensor, cfg, lib);
      AddOneEffect(tab, ms[0], sensor, cfg, lib);
      var next := AddOne(tab, ms[0], sensor, cfg, lib);
      OldTracksKept(tab, ms[0], sensor, cfg, lib);
      BatchGrowth(next, ms[1..], sensor, cfg, lib);
      var os := Outcomes(tab, ms, sensor, cfg, lib);
      assert os[0] == Decide(tab, ms[0], cfg) && os[1..] == Outcomes(next, ms[1..], sensor, cfg, lib);
    }
  }

  lemma OldTracksKept(tab: Table, m: TargetTrack, sensor: int, cfg: Config, lib: MathLib)
    requires tab.Shaped() && AllGateable(tab.Live())
    ensures var r := AddOne(tab, m, sensor, cfg, lib);
      && tab.count <= r.count <= tab.count + 1
      && forall i | 0 <= i < tab.count :: r.slots[i].id == tab.slots[i].id && r.slots[i].kind == tab.slots[i].kind
  {
    hide Create, Decide, AllGateable, Fuse;
    FuseKeeps(tab, m, cfg);
  }

  // ---- ids

  predicate HasId(tab: Table, g: int)
    requires tab.Shaped()
  {
    exists i | 0 <= i < tab.count :: tab.slots[i].id == g
  }

  /** An id that was given out and is gone stays gone after one more measurement. */
  lemma AddOneGone(tab: Table, m: TargetTrack, sensor: int, cfg: Config, lib: MathLib, g: int)
    requires tab.Shaped() && AllGateable(tab.Live()) && g < tab.nextId && !HasId(tab, g)
    ensures var r := AddOne(tab, m, sensor, cfg, lib);
            g < r.nextId && !HasId(r, g)
  {
    hide Decide, AllGateable, Fuse, InitialFromTrack;
    FuseKeeps(tab, m, cfg);
  }

  lemma {:induction false} BatchGone(tab: Table, ms: seq<TargetTrack>, sensor: int, cfg: Config, lib: MathLib, g: int)
    requires Inv(tab) && g < tab.nextId && !HasId(tab, g)
    ensures var r := AddBatch(tab, ms, sensor, cfg, lib); g < r.nextId && !HasId(r, g)
    decreases |ms|
  {
    hide DistinctIds, IdsBelow, AllGenuine, AddOne, HasId, AllGateable;
    if ms == [] {
    } else {
      AddOneInv(tab, ms[0], sensor, cfg, lib);
      AddOneGone(tab, ms[0], sensor, cfg, lib, g);
      BatchGone(AddOne(tab, ms[0], sensor, cfg, lib), ms[1..], sensor, cfg, lib, g);
    }
  }

  lemma PassGone(tab: Table, now: real, cfg: Config, g: int)
    requires tab.Shaped() && !HasId(tab, g)
    ensures !HasId(Pass(tab, now, cfg), g)
  {
    hide Keeps, Pass, PredictFilter;
    var r := Pass(tab, now, cfg);
    forall i | 0 <= i < r.count ensures r.slots[i].id != g {
      assert r.slots[i] == r.Live()[i];
      PassMembers(tab, now, cfg, r.slots[i]);
      var s :| s in tab.Live() && r.slots[i] == Process(s, now);
      var j :| 0 <= j < tab.count && tab.Live()[j] == s;
      assert tab.slots[j] == s;
    }
  }

  /** Ids are never reused: once given out and removed, an id is absent for the rest of every run. */
  lemma {:induction false} IdsNeverReused(tab: Table, ss: seq<Step>, cfg: Config, lib: MathLib, g: int)
    requires Inv(tab) && g < tab.nextId && !HasId(tab, g)
    ensures !HasId(RunTable(tab, ss, cfg, lib), g)
    decreases |ss|
  {
    hide DistinctIds, IdsBelow, AllGenuine, AddBatch, Pass, HasId;
    if ss == [] {
    } else {
      match ss[0] {
        case Batch(ms, sensor) => BatchGone(tab, ms, sensor, cfg, lib, g);
        case Tick(now) => PassGone(tab, now, cfg, g);
      }
      IdsNeverReused(Apply(tab, ss[0], cfg, lib), ss[1..], cfg, lib, g);
    }
  }

  // ---- confidences

  predicate Unit(c: real) { 0.0 <= c <= 1.0 }

  predicate UnitTracks(ts: seq<Track>) { forall i | 0 <= i < |ts| :: Unit(ts[i].confidence) }

  predicate UnitMeasurements(ss: seq<Step>) {
    forall i, j :: 0 <= i < |ss| && ss[i].Batch? && 0 <= j < |ss[i].tracks| ==> Unit(ss[i].tracks[j].confidence)
  }

  lemma AddOneUnit(tab: Table, m: TargetTrack, sensor: int, cfg: Config, lib: MathLib)
    requires tab.Shaped() && AllGateable(tab.Live()) && UnitTracks(tab.Live()) && Unit(m.confidence)
    ensures UnitTracks(AddOne(tab, m, sensor, cfg, lib).Live())
  {
    hide Decide, AllGateable, UpdateFilter, InitialFromTrack;
    FuseKeeps(tab, m, cfg);
    var r, o := AddOne(tab, m, sensor, cfg, lib), Decide(tab, m, cfg);
    forall i | 0 <= i < r.count ensures Unit(r.Live()[i].confidence) {
      assert i < tab.count ==> tab.Live()[i] == tab.slots[i];
    }
  }

  lemma {:induction false} BatchUnit(tab: Table, ms: seq<TargetTrack>, sensor: int, cfg: Config, lib: MathLib)
    requires Inv(tab) && UnitTracks(tab.Live()) && forall j | 0 <= j < |ms| :: Unit(ms[j].confidence)
    ensures UnitTracks(AddBatch(tab, ms, sensor, cfg, lib).Live())
    decreases |ms|
  {
    hide DistinctIds, IdsBelow, AllGenuine, AddOne, AllGateable, UnitTracks;
    if ms == [] {
    } else {
      AddOneInv(tab, ms[0], sensor, cfg, lib);
      AddOneUnit(tab, ms[0], sensor, cfg, lib);
      BatchUnit(AddOne(tab, ms[0], sensor, cfg, lib), ms[1..], sensor, cfg, lib);
    }
  }

  lemma PassUnit(tab: Table, now: real, cfg: Config)
    requires tab.Shaped() && UnitTracks(tab.Live())
    ensures UnitTracks(Pass(tab, now, cfg).Live())
  {
    hide Keeps, Pass, PredictFilter;
    var r := Pass(tab, now, cfg);
    forall i | 0 <= i < r.count ensures Unit(r.Live()[i].confidence) {
      PassMembers(tab, now, cfg, r.Live()[i]);
      var s :| s in tab.Live() && r.Live()[i] == Process(s, now);
    }
  }

  /** Confidences stay in [0, 1] over every run whose measurements have confidences in [0, 1]. */
  lemma {:induction false} ConfidencesStayUnit(tab: Table, ss: seq<Step>, cfg: Config, lib: MathLib)
    requires Inv(tab) && UnitTracks(tab.Live()) && UnitMeasurements(ss)
    ensures UnitTracks(RunTable(tab, ss, cfg, lib).Live())
    decreases |ss|
  {
    hide DistinctIds, IdsBelow, AllGenuine, AddBatch, Pass, UnitTracks;
    if ss == [] {
    } else {
      match ss[0] {
        case Batch(ms, sensor) => BatchUnit(tab, ms, sensor, cfg, lib);
        case Tick(now) => PassUnit(tab, now, cfg);
      }
      ConfidencesStayUnit(Apply(tab, ss[0], cfg, lib), ss[1..], cfg, lib);
    }
  }

  // ---- the life of a track that is not measured again

  /** No measurement of the batch is associated with the track of id g. */
  ghost predicate BatchMisses(tab: Table, ms: seq<TargetTrack>, sensor: int, cfg: Config, lib: MathLib, g: int)
    requires Inv(tab)
    decreases |ms|
  {
    ms == [] ||
    (GenuineGateable(tab.Live());
     AddOneInv(tab, ms[0], sensor, cfg, lib);
     && (var o := Decide(tab, ms[0], cfg); o.Updated? ==> tab.slots[o.index].id != g)
     && BatchMisses(AddOne(tab, ms[0], sensor, cfg, lib), ms[1..], sensor, cfg, lib, g))
  }

  ghost predicate RunMisses(tab: Table, ss: seq<Step>, cfg: Config, lib: MathLib, g: int)
    requires Inv(tab)
    decreases |ss|
  {
    ss == [] ||
    ((ss[0].Batch? ==> BatchMisses(tab, ss[0].tracks, ss[0].sensor, cfg, lib, g))
     && RunMisses(Apply(tab, ss[0], cfg, lib), ss[1..], cfg, lib, g))
  }

  lemma {:induction false} BatchKeepsMissed(tab: Table, ms: seq<TargetTrack>, sensor: int, cfg: Config, lib: MathLib,
                                            t: Track)
    requires Inv(tab) && t in tab.Live() && BatchMisses(tab, ms, sensor, cfg, lib, t.id)
    ensures t in AddBatch(tab, ms, sensor, cfg, lib).Live()
    decreases |ms|
  {
    hide DistinctIds, IdsBelow, AllGenuine, Decide, AllGateable, Fuse, Create;
    if ms == [] {
    } else {
      GenuineGateable(tab.Live());
      AddOneInv(tab, ms[0], sensor, cfg, lib);
      var next := AddOne(tab, ms[0], sensor, cfg, lib);
      var i :| 0 <= i < tab.count && tab.Live()[i] == t;
      assert tab.slots[i] == t;
      assert next.Live()[i] == t;
      BatchKeepsMissed(next, ms[1..], sensor, cfg, lib, t);
    }
  }

  /** The times of the passes of a run. */
  function TickTimes(ss: seq<Step>): (times: seq<real>)
    ensures |times| <= |ss|
  {
    if ss == [] then [] else (if ss[0].Tick? then [ss[0].now] else []) + TickTimes(ss[1..])
  }

  lemma PassOfTrack(tab: Table, now: real, cfg: Config, t: Track)
    requires Inv(tab) && t in tab.Live()
    ensures var r := Pass(tab, now, cfg);
            if Keeps(Process(t, now), cfg) then Process(t, now) in r.Live() else !HasId(r, t.id)
  {
    hide Keeps, Pass, PredictFilter, AllGenuine, IdsBelow;
    var r := Pass(tab, now, cfg);
    PassMembers(tab, now, cfg, Process(t, now));
    if !Keeps(Process(t, now), cfg) {
      forall i | 0 <= i < r.count ensures r.slots[i].id != t.id {
        assert r.slots[i] == r.Live()[i];
        PassMembers(tab, now, cfg, r.slots[i]);
        var s :| s in tab.Live() && r.slots[i] == Process(s, now) && Keeps(r.slots[i], cfg);
        SameIdSameTrack(tab.Live(), s, t);
      }
    }
  }

  lemma SameIdSameTrack(ts: seq<Track>, s: Track, t: Track)
    requires DistinctIds(ts) && s in ts && t in ts
    ensures s.id == t.id ==> s == t
  {
  }

  /** A track is still there after a pass exactly when it is young and confident enough. */
  lemma PassDecides(tab: Table, now: real, cfg: Config, t: Track)
    requires Inv(tab) && t in tab.Live()
    ensures HasId(Pass(tab, now, cfg), t.id) <==>
            t.age + 1 <= cfg.maxTrackAge && t.confidence >= cfg.confidenceThreshold
  {
    hide DistinctIds, AllGenuine, IdsBelow, Pass, PredictFilter;
    PassOfTrack(tab, now, cfg, t);
    var r, u := Pass(tab, now, cfg), Process(t, now);
    if u in r.Live() {
      var i :| 0 <= i < r.count && r.Live()[i] == u;
      assert r.slots[i].id == t.id;
    }
  }

  /**
   A track that no measurement reaches is live after the run exactly when there was no pass, or its
   confidence suffices and its age plus the number of passes does not exceed the maximum; and then it is
   the track processed at the times of the passes and nothing else.
   */
  lemma {:induction false} UnmeasuredLifetime(tab: Table, ss: seq<Step>, cfg: Config, lib: MathLib, t: Track)
    requires Inv(tab) && t in tab.Live() && RunMisses(tab, ss, cfg, lib, t.id)
    ensures var r, times := RunTable(tab, ss, cfg, lib), TickTimes(ss);
      if times == [] || (t.confidence >= cfg.confidenceThreshold && t.age + |times| <= cfg.maxTrackAge)
      then ProcessAll(t, times) in r.Live() else !HasId(r, t.id)
    decreases |ss|
  {
    hide DistinctIds, AllGenuine, AddBatch, Pass, HasId, PredictFilter, BatchMisses;
    if ss == [] {
    } else {
      var next, rest := Apply(tab, ss[0], cfg, lib), TickTimes(ss[1..]);
      match ss[0] {
        case Batch(ms, sensor) =>
          assert TickTimes(ss) == rest;
          BatchKeepsMissed(tab, ms, sensor, cfg, lib, t);
          UnmeasuredLifetime(next, ss[1..], cfg, lib, t);
        case Tick(now) =>
          assert TickTimes(ss)[0] == now && TickTimes(ss)[1..] == rest;
          PassOfTrack(tab, now, cfg, t);
          var u := Process(t, now);
          if Keeps(u, cfg) {
            UnmeasuredLifetime(next, ss[1..], cfg, lib, u);
          } else {
            assert t.id < next.nextId by {
              var i :| 0 <= i < tab.count && tab.Live()[i] == t;
            }
            IdsNeverReused(next, ss[1..], cfg, lib, t.id);
          }
      }
    }
  }
}
