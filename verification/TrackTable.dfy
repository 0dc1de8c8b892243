/**
 The track table of the fusion processor as a value: association of one measurement, a batch, and
 the maintenance pass with its swap-with-last deletion.
 */
module TrackTable {
  import opened Matrices
  import opened QuadraticForms
  import opened FilterModel
  import opened AxisModel
  import opened FilterRuns
  import opened KalmanFilter
  import opened Tracks

  const CAPACITY := 100

  datatype Config = Config(associationThreshold: real, confidenceThreshold: real, maxTrackAge: int)

  /** A fused_track_t; sensors are the ids whose bits are set in the sensor mask. */
  datatype Track = Track(
    id: int, kind: TargetType, filter: Filter, confidence: real, age: int, sensors: set<int>, lastUpdate: real)

  /** All the slots of the table, the number of live ones, and the next id to give out. */
  datatype Table = Table(slots: seq<Track>, count: nat, nextId: int) {
    predicate Shaped() { |slots| == CAPACITY && count <= |slots| }

    function Live(): seq<Track>
      requires Shaped()
    {
      slots[..count]
    }
  }

  /** A slot of zeroed memory. */
  function BlankTrack(): Track { Track(0, Vehicle, ZeroFilter(), 0.0, 0, {}, 0.0) }

  /** The table of a new processor: zeroed slots, no track, and 1 as the next id. */
  function FreshTable(): (tab: Table)
    ensures tab.Shaped()
  {
    Table(seq(CAPACITY, _ => BlankTrack()), 0, 1)
  }

  /** A track the gating distance may be computed for. */
  predicate Gateable(f: Filter) {
    f.Shaped() && f.initialized && f.p.At(0, 0) > 0.0 && f.p.At(1, 1) > 0.0
  }

  /** A filter produced by some initialisation and run, with the consequences the table relies on. */
  ghost predicate Genuine(f: Filter) { Reachable(f) && Gateable(f) }

  lemma ReachableIsGenuine(f: Filter)
    requires Reachable(f)
    ensures Genuine(f) && f.Sound()
  {
    hide Reachable, Symmetric, PosDef, Embed, BlockOf, Rejects;
    ReachableDecoupled(f);
    NeverRejects(f.p);
  }

  lemma {:induction false} RunAppend(f: Filter, es: seq<Event>, e: Event)
    requires f.Shaped()
    ensures Run(f, es + [e]) == Step(Run(f, es), e)
    decreases |es|
  {
    hide Step;
    if es == [] {
      assert Run(Step(f, e), []) == Step(f, e);
      assert (es + [e])[1..] == [];
    } else {
      assert (es + [e])[1..] == es[1..] + [e];
      RunAppend(Step(f, es[0]), es[1..], e);
    }
  }

  lemma StepGenuine(f: Filter, e: Event)
    requires Genuine(f)
    ensures Genuine(Step(f, e))
  {
    hide Run, Step, InitialFilter;
    var lon, lat, vx, vy, time, es :| f == Reached(lon, lat, vx, vy, time, es);
    InitialShape(lon, lat, vx, vy, time);
    RunAppend(InitialFilter(lon, lat, vx, vy, time), es, e);
    assert Step(f, e) == Reached(lon, lat, vx, vy, time, es + [e]);
    ReachableIsGenuine(Step(f, e));
  }

  lemma InitialShape(lon: real, lat: real, vx: real, vy: real, time: real)
    ensures InitialFilter(lon, lat, vx, vy, time).Shaped()
  {
  }

  lemma InitialGenuine(m: TargetTrack, lib: MathLib)
    ensures Genuine(InitialFromTrack(m, lib))
  {
    hide InitialFilter, Step, InitialVelocity;
    var v := InitialVelocity(m, lib);
    InitialShape(m.longitude, m.latitude, v.0, v.1, m.timestamp);
    assert InitialFromTrack(m, lib) == Reached(m.longitude, m.latitude, v.0, v.1, m.timestamp, []);
    ReachableIsGenuine(InitialFromTrack(m, lib));
  }

  // ---- association

  /** Square of the association threshold; nothing is ever below a non-positive threshold. */
  function Gate(cfg: Config): real {
    if cfg.associationThreshold > 0.0 then cfg.associationThreshold * cfg.associationThreshold else 0.0
  }

  /** Square of the distance of calculate_track_distance. */
  function DistanceSq(f: Filter, m: TargetTrack): (d: real)
    requires Gateable(f)
  {
    SimplifiedSq(f.p, m.longitude - f.x.At(0, 0), m.latitude - f.x.At(1, 0))
  }

  /** The distance of calculate_track_distance. */
  function Distance(f: Filter, m: TargetTrack, lib: MathLib): real
    requires Gateable(f)
  {
    lib.sqrt(DistanceSq(f, m))
  }

  /** The library takes square roots. */
  ghost predicate TakesRoots(lib: MathLib) {
    forall x: real | x >= 0.0 :: IsRoot(lib.sqrt(x), x)
  }

  predicate IsRoot(r: real, x: real) { r >= 0.0 && r * r == x }

  lemma DistanceSqNonNegative(f: Filter, m: TargetTrack)
    requires Gateable(f)
    ensures DistanceSq(f, m) >= 0.0
  {
    QuotientOfSquare(m.longitude - f.x.At(0, 0), f.p.At(0, 0) + 0.1);
    QuotientOfSquare(m.latitude - f.x.At(1, 0), f.p.At(1, 1) + 0.1);
  }

  lemma QuotientOfSquare(a: real, s: real)
    requires s > 0.0
    ensures a * a / s >= 0.0
  {
    assert a * a >= 0.0;
  }

  /** Roots compare as what they are roots of. */
  lemma RootOrder(r: real, x: real, s: real, y: real)
    requires IsRoot(r, x) && IsRoot(s, y)
    ensures r < s <==> x < y
  {
    if r < s {
      RootBelow(r, s);
    } else if s < r {
      RootBelow(s, r);
    }
  }

  lemma RootBelow(r: real, s: real)
    requires 0.0 <= r < s
    ensures r * r < s * s
  {
    PositiveTimes(s - r, s + r);
    assert Times(s - r, s + r) == s * s - r * r;
  }

  /** A distance is below the threshold exactly when its square is below the gate. */
  lemma BelowThreshold(r: real, x: real, cfg: Config)
    requires IsRoot(r, x)
    ensures r < cfg.associationThreshold <==> x < Gate(cfg)
  {
    if cfg.associationThreshold > 0.0 {
      RootOrder(r, x, cfg.associationThreshold, Gate(cfg));
    }
  }

  /** The test of the association loop, on distances and on their squares. */
  lemma SameComparison(f: Filter, g: Filter, m: TargetTrack, cfg: Config, lib: MathLib)
    requires Gateable(f) && Gateable(g) && TakesRoots(lib)
    ensures Distance(f, m, lib) < cfg.associationThreshold <==> DistanceSq(f, m) < Gate(cfg)
    ensures Distance(f, m, lib) < Distance(g, m, lib) <==> DistanceSq(f, m) < DistanceSq(g, m)
  {
    hide DistanceSq, Gate, Gateable, IsRoot;
    DistanceSqNonNegative(f, m);
    DistanceSqNonNegative(g, m);
    BelowThreshold(Distance(f, m, lib), DistanceSq(f, m), cfg);
    RootOrder(Distance(f, m, lib), DistanceSq(f, m), Distance(g, m, lib), DistanceSq(g, m));
  }

  predicate AllGateable(ts: seq<Track>) { forall i | 0 <= i < |ts| :: Gateable(ts[i].filter) }

  /** b is the first index of the least distance below the gate, or -1 when no distance is below it. */
  predicate Closest(ts: seq<Track>, m: TargetTrack, gate: real, b: int)
    requires AllGateable(ts)
  {
    if b < 0 then b == -1 && forall j | 0 <= j < |ts| :: gate <= DistanceSq(ts[j].filter, m)
    else
      && b < |ts|
      && DistanceSq(ts[b].filter, m) < gate
      && (forall j | 0 <= j < b :: DistanceSq(ts[b].filter, m) < DistanceSq(ts[j].filter, m))
      && (forall j | b < j < |ts| :: DistanceSq(ts[b].filter, m) <= DistanceSq(ts[j].filter, m))
  }

  function Nearest(ts: seq<Track>, m: TargetTrack, gate: real): (b: int)
    requires AllGateable(ts)
    ensures Closest(ts, m, gate, b)
  {
    hide DistanceSq;
    if ts == [] then -1
    else
      var n := |ts| - 1;
      var b := Nearest(ts[..n], m, gate);
      assert b < n;
      if DistanceSq(ts[n].filter, m) < (if b < 0 then gate else DistanceSq(ts[..n][b].filter, m)) then n else b
  }

  /** One iteration of the association loop. */
  lemma ClosestStep(ts: seq<Track>, j: nat, m: TargetTrack, gate: real, b: int)
    requires AllGateable(ts) && j < |ts| && Closest(ts[..j], m, gate, b)
    ensures -1 <= b < j
    ensures var least := if b < 0 then gate else DistanceSq(ts[b].filter, m);
            Closest(ts[..j + 1], m, gate, if DistanceSq(ts[j].filter, m) < least then j else b)
  {
    hide DistanceSq, Gateable;
  }

  /** The association choice is determined. */
  lemma ClosestUnique(ts: seq<Track>, m: TargetTrack, gate: real, b: int, c: int)
    requires AllGateable(ts) && Closest(ts, m, gate, b) && Closest(ts, m, gate, c)
    ensures b == c
  {
    hide DistanceSq;
  }

  function Fuse(t: Track, m: TargetTrack): Track
    requires t.filter.Shaped()
  {
    t.(filter := UpdateFilter(t.filter, m.longitude, m.latitude, m.timestamp),
       confidence := 0.7 * t.confidence + 0.3 * m.confidence,
       age := 0,
       lastUpdate := m.timestamp)
  }

  /** The track created in a free slot: its lastUpdate is whatever the slot held before. */
  function Create(slot: Track, id: int, m: TargetTrack, sensor: int, lib: MathLib): Track {
    Track(id, m.kind, InitialFromTrack(m, lib), m.confidence, 0, {sensor}, slot.lastUpdate)
  }

  datatype Outcome = Updated(index: nat) | Created | Dropped

  function Decide(tab: Table, m: TargetTrack, cfg: Config): (o: Outcome)
    requires tab.Shaped() && AllGateable(tab.Live())
    ensures o.Updated? ==> o.index < tab.count
    ensures o.Created? ==> tab.count < CAPACITY
  {
    var b := Nearest(tab.Live(), m, Gate(cfg));
    if b >= 0 then Updated(b) else if tab.count < CAPACITY then Created else Dropped
  }

  function AddOne(tab: Table, m: TargetTrack, sensor: int, cfg: Config, lib: MathLib): (r: Table)
    requires tab.Shaped() && AllGateable(tab.Live())
    ensures r.Shaped()
  {
    match Decide(tab, m, cfg)
    case Updated(b) =>
      assert tab.slots[b] == tab.Live()[b];
      var t := Fuse(tab.slots[b], m);
      tab.(slots := tab.slots[b := t.(sensors := t.sensors + {sensor})])
    case Created =>
      Table(tab.slots[tab.count := Create(tab.slots[tab.count], tab.nextId, m, sensor, lib)],
            tab.count + 1, tab.nextId + 1)
    case Dropped => tab
  }

  /** AddOne by the index the association returns. */
  lemma AddOneCases(tab: Table, m: TargetTrack, sensor: int, cfg: Config, lib: MathLib, b: int)
    requires tab.Shaped() && AllGateable(tab.Live()) && b == Nearest(tab.Live(), m, Gate(cfg))
    ensures b < tab.count
    ensures b >= 0 ==> tab.slots[b].filter.Shaped()
    ensures AddOne(tab, m, sensor, cfg, lib) ==
      if b >= 0 then
        var t := Fuse(tab.slots[b], m);
        tab.(slots := tab.slots[b := t.(sensors := t.sensors + {sensor})])
      else if tab.count < CAPACITY then
        Table(tab.slots[tab.count := Create(tab.slots[tab.count], tab.nextId, m, sensor, lib)],
              tab.count + 1, tab.nextId + 1)
      else tab
  {
    hide Fuse, Create;
    assert b >= 0 ==> tab.slots[b] == tab.Live()[b];
  }

  // ---- the invariant of the table

  predicate DistinctIds(ts: seq<Track>) {
    forall i, j | 0 <= i < j < |ts| :: ts[i].id != ts[j].id
  }

  predicate IdsBelow(ts: seq<Track>, bound: int) {
    forall i | 0 <= i < |ts| :: 1 <= ts[i].id < bound
  }

  ghost predicate AllGenuine(ts: seq<Track>) { forall i | 0 <= i < |ts| :: Genuine(ts[i].filter) }

  ghost predicate Inv(tab: Table) {
    && tab.Shaped() && 1 <= tab.nextId
    && DistinctIds(tab.Live()) && IdsBelow(tab.Live(), tab.nextId) && AllGenuine(tab.Live())
  }

  lemma FreshTableInv()
    ensures Inv(FreshTable())
  {
    hide Genuine;
  }

  lemma InvShape(tab: Table)
    requires Inv(tab)
    ensures tab.Shaped()
  {
  }

  lemma GenuineGateable(ts: seq<Track>)
    requires AllGenuine(ts)
    ensures AllGateable(ts)
  {
    hide Reachable, Gateable;
  }

  /** One measurement updates one track, creates one, or is dropped, and only a full table drops. */
  lemma AddOneEffect(tab: Table, m: TargetTrack, sensor: int, cfg: Config, lib: MathLib)
    requires tab.Shaped() && AllGateable(tab.Live())
    ensures var r, o := AddOne(tab, m, sensor, cfg, lib), Decide(tab, m, cfg);
      && (o.Updated? ==>
            && r.count == tab.count && r.nextId == tab.nextId
            && r.Live() == tab.Live()[o.index := r.slots[o.index]]
            && r.slots[o.index].id == tab.slots[o.index].id && r.slots[o.index].kind == tab.slots[o.index].kind
            && r.slots[o.index].sensors == tab.slots[o.index].sensors + {sensor}
            && r.slots[o.index].age == 0)
      && (o.Created? ==>
            && r.nextId == tab.nextId + 1
            && r.Live() == tab.Live() + [Create(tab.slots[tab.count], tab.nextId, m, sensor, lib)])
      && (o.Dropped? ==> r == tab && tab.count == CAPACITY)
      && r.count - tab.count == r.nextId - tab.nextId
  {
    hide AllGateable, Fuse, Create, Nearest;
    var o := Decide(tab, m, cfg);
    assert o.Updated? ==> tab.Live()[o.index] == tab.slots[o.index];
    FuseKeeps(tab, m, cfg);
  }

  lemma FuseKeeps(tab: Table, m: TargetTrack, cfg: Config)
    requires tab.Shaped() && AllGateable(tab.Live())
    ensures var o := Decide(tab, m, cfg);
      o.Updated? ==>
        && var t := tab.slots[o.index];
        && t == tab.Live()[o.index] && t.filter.Shaped()
        && Fuse(t, m).id == t.id && Fuse(t, m).kind == t.kind && Fuse(t, m).age == 0 && Fuse(t, m).sensors == t.sensors
  {
    hide Decide, Rejects, UpdateState, UpdateCovariance;
  }

  lemma AddOneInv(tab: Table, m: TargetTrack, sensor: int, cfg: Config, lib: MathLib)
    requires Inv(tab)
    ensures AllGateable(tab.Live())
    ensures Inv(AddOne(tab, m, sensor, cfg, lib))
  {
    hide Genuine, AllGateable, Decide, Fuse, Create;
    GenuineGateable(tab.Live());
    AddOneEffect(tab, m, sensor, cfg, lib);
    var r, o := AddOne(tab, m, sensor, cfg, lib), Decide(tab, m, cfg);
    match o {
      case Updated(b) =>
        assert tab.Live()[b] == tab.slots[b];
        FuseGenuine(tab.slots[b], m);
        assert r.slots[b].filter == Fuse(tab.slots[b], m).filter;
      case Created =>
        CreateGenuine(tab.slots[tab.count], tab.nextId, m, sensor, lib);
      case Dropped =>
    }
  }

  lemma FuseGenuine(t: Track, m: TargetTrack)
    requires Genuine(t.filter)
    ensures t.filter.Shaped() && Genuine(Fuse(t, m).filter)
  {
    hide Reachable, UpdateFilter;
    StepGenuine(t.filter, Update(m.longitude, m.latitude, m.timestamp));
  }

  lemma CreateGenuine(slot: Track, id: int, m: TargetTrack, sensor: int, lib: MathLib)
    ensures Genuine(Create(slot, id, m, sensor, lib).filter) && Create(slot, id, m, sensor, lib).id == id
  {
    hide Genuine, InitialFromTrack;
    InitialGenuine(m, lib);
  }
}
