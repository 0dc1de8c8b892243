/** The fusion processor: a fixed table of slot objects updated in place, and the published list. */
module FusionProcessing {
  import opened Matrices
  import opened FilterModel
  import opened FilterRuns
  import opened KalmanFilter
  import opened Tracks
  import opened TrackLists
  import opened TrackTable
  import opened Maintenance
  import opened TableRuns

  /** One slot of the track table: a fused_track_t with its filter embedded. */
  class FusedTrack {
    const filter: KalmanState
    var id: int
    var kind: TargetType
    var confidence: real
    var age: int
    var sensors: set<int>
    var lastUpdate: real

    ghost function Repr(): set<object> { {this} + filter.Repr() }

    ghost function Value(): Track
      reads Repr()
    {
      Track(id, kind, filter.Value(), confidence, age, sensors, lastUpdate)
    }

    constructor ()
      ensures fresh(Repr()) && filter.Valid() && Value() == BlankTrack()
    {
      filter := new KalmanState();
      id, kind, confidence, age, sensors, lastUpdate := 0, Vehicle, 0.0, 0, {}, 0.0;
    }

    /** Struct assignment. */
    method CopyFrom(other: FusedTrack)
      requires filter.Valid() && other.filter.Valid() && Repr() !! other.Repr()
      modifies Repr()
      ensures Value() == old(other.Value())
    {
      hide Flat;
      forall i | 0 <= i < 6 { filter.state[i] := other.filter.state[i]; }
      forall i | 0 <= i < 36 { filter.covariance[i] := other.filter.covariance[i]; }
      filter.lastUpdate := other.filter.lastUpdate;
      filter.initialized := other.filter.initialized;
      id, kind, confidence, age := other.id, other.kind, other.confidence, other.age;
      sensors, lastUpdate := other.sensors, other.lastUpdate;
      assert filter.state[..] == old(other.filter.state[..]);
      assert filter.covariance[..] == old(other.filter.covariance[..]);
    }

    /** Predicts the filter up to now and counts one more pass; lastUpdate does not move. */
    method PredictAndAge(now: real)
      requires filter.Valid()
      modifies Repr()
      ensures Value() == Process(old(Value()), now)
    {
      hide PredictFilter, Flat;
      var dt := now - lastUpdate;
      var _ := filter.Predict(dt);
      age := age + 1;
    }

    /** Fuses a measurement into the track. */
    method FuseMeasurement(m: TargetTrack)
      requires filter.Valid()
      modifies Repr()
      ensures old(Value()).filter.Shaped() && Value() == Fuse(old(Value()), m)
    {
      hide UpdateFilter, Rejects, Flat;
      var _ := filter.Update(m);
      confidence := 0.7 * confidence + 0.3 * m.confidence;
      age := 0;
      lastUpdate := m.timestamp;
    }

    /** Notes that a sensor saw the track. */
    method SeenBy(sensor: int)
      modifies this
      ensures Value() == old(Value()).(sensors := old(Value()).sensors + {sensor})
    {
      hide Flat;
      sensors := sensors + {sensor};
    }

    /** Makes the slot a new track; lastUpdate keeps whatever the slot held. */
    method StartTrack(newId: int, m: TargetTrack, sensor: int, lib: MathLib)
      requires filter.Valid()
      modifies Repr()
      ensures Value() == Create(old(Value()), newId, m, sensor, lib)
    {
      hide InitialFromTrack, Flat;
      id := newId;
      kind := m.kind;
      confidence := m.confidence;
      age := 0;
      sensors := {sensor};
      filter.Initialize(m, lib);
    }

    lemma PositionCells()
      requires filter.Valid()
      ensures var f := Value().filter;
        && filter.state[0] == f.x.At(0, 0) && filter.state[1] == f.x.At(1, 0)
        && filter.covariance[0] == f.p.At(0, 0) && filter.covariance[7] == f.p.At(1, 1)
    {
      hide Flat;
      CellAt(filter.state[..], 6, 1, 0, 0);
      CellAt(filter.state[..], 6, 1, 1, 0);
      CellAt(filter.covariance[..], 6, 6, 0, 0);
      CellAt(filter.covariance[..], 6, 6, 1, 1);
    }

    /** The gating distance, of any filter for which the source divides by no zero. */
    function Distance(m: TargetTrack, lib: MathLib): (d: real)
      requires filter.Valid()
      requires var p := Value().filter.p; p.At(0, 0) + 0.1 != 0.0 && p.At(1, 1) + 0.1 != 0.0
      reads Repr()
      ensures var f := Value().filter;
              d == lib.sqrt(SimplifiedSq(f.p, m.longitude - f.x.At(0, 0), m.latitude - f.x.At(1, 0)))
    {
      hide SimplifiedSq, FusedTrack.Value;
      PositionCells();
      var dx, dy := m.longitude - filter.state[0], m.latitude - filter.state[1];
      var varX, varY := filter.covariance[0] + 0.1, filter.covariance[7] + 0.1;
      SimplifiedIs(Value().filter.p, dx, dy, varX, varY);
      lib.sqrt(dx * dx / varX + dy * dy / varY)
    }
  }

  lemma SimplifiedIs(p: Matrix, dx: real, dy: real, vx: real, vy: real)
    requires vx == p.At(0, 0) + 0.1 != 0.0 && vy == p.At(1, 1) + 0.1 != 0.0
    ensures SimplifiedSq(p, dx, dy) == dx * dx / vx + dy * dy / vy
  {
  }

  lemma DistanceFormula(f: Filter, m: TargetTrack, lib: MathLib)
    requires Gateable(f)
    ensures f.p.At(0, 0) + 0.1 != 0.0 && f.p.At(1, 1) + 0.1 != 0.0
    ensures Distance(f, m, lib) == lib.sqrt(SimplifiedSq(f.p, m.longitude - f.x.At(0, 0), m.latitude - f.x.At(1, 0)))
  {
  }

  /** The objects of a table of slots. */
  ghost function SlotObjects(slots: seq<FusedTrack>): set<object> {
    set i, o | 0 <= i < |slots| && o in slots[i].Repr() :: o
  }

  /** A full table of slots that are separate pieces of memory. */
  ghost predicate SlotsApart(slots: seq<FusedTrack>) {
    && |slots| == CAPACITY
    && (forall i | 0 <= i < |slots| :: slots[i].filter.Valid())
    && (forall i, j | 0 <= i < |slots| && 0 <= j < |slots| && i != j :: slots[i].Repr() !! slots[j].Repr())
  }

  /** A table of zeroed slots, each its own piece of memory. */
  method NewSlots() returns (slots: seq<FusedTrack>)
    ensures SlotsApart(slots) && fresh(SlotObjects(slots))
    ensures forall i | 0 <= i < |slots| :: fresh(slots[i].Repr()) && slots[i].Value() == BlankTrack()
  {
    hide FusedTrack.Value, BlankTrack;
    slots := [];
    while |slots| < CAPACITY
      invariant |slots| <= CAPACITY
      invariant forall i | 0 <= i < |slots| ::
        fresh(slots[i].Repr()) && slots[i].filter.Valid() && slots[i].Value() == BlankTrack()
      invariant forall i, j | 0 <= i < |slots| && 0 <= j < |slots| && i != j :: slots[i].Repr() !! slots[j].Repr()
    {
      var slot := new FusedTrack();
      slots := slots + [slot];
    }
  }

  class FusionProcessor {
    const tracks: seq<FusedTrack>
    const config: Config
    const lib: MathLib
    /** Null when there was no memory for it, which the source does not check. */
    const output: TrackList?
    var trackCount: nat
    var nextGlobalId: int

    /** The objects of the slots; it never changes. */
    ghost function Footprint(): set<object> {
      SlotObjects(tracks)
    }

    /** The slots are separate pieces of memory. */
    ghost predicate Separate() {
      && SlotsApart(tracks)
      && this !in Footprint() && (output != null ==> output !in Footprint())
    }

    ghost function Slots(): (s: seq<Track>)
      reads Footprint()
      ensures |s| == |tracks| && forall i | 0 <= i < |s| :: s[i] == tracks[i].Value()
    {
      seq(|tracks|, i requires 0 <= i < |tracks| reads Footprint() => tracks[i].Value())
    }

    ghost function Value(): Table
      reads this, Footprint()
    {
      Table(Slots(), trackCount, nextGlobalId)
    }

    /** The live tracks, in table order. */
    ghost function Live(): (ts: seq<Track>)
      requires Valid()
      reads this, Footprint(), if output == null then {} else {output}
      ensures |ts| == trackCount <= CAPACITY
    {
      Value().Live()
    }

    ghost predicate Valid()
      reads this, Footprint(), if output == null then {} else {output}
    {
      Separate() && Inv(Value()) && TakesRoots(lib) && OutputFits()
    }

    /** The output list, if there is one. */
    ghost function Output(): set<object> { if output == null then {} else {output} }

    /** The output list and its buffer. */
    ghost function OutputParts(): set<object>
      reads Output()
    {
      if output == null then {} else {output as object, output.tracks}
    }

    /** The output list, if there is one, can hold every track. */
    ghost predicate OutputFits()
      reads Output()
    {
      output != null ==> output.Valid() && output.capacity >= CAPACITY
    }

    /** The output list, if there is one, describes these tracks. */
    ghost predicate Published(ts: seq<Track>, now: real)
      requires OutputFits()
      reads OutputParts(), Output()
    {
      output != null ==> output.Contents() == PublishAll(ts, now, lib)
    }

    /** The output list keeps its buffer. */
    twostate predicate SameOutput()
      reads Output()
    {
      output != null ==> output.tracks == old(output.tracks) && output.capacity == old(output.capacity)
    }

    /** outputLeft says whether there is memory for the output list. */
    constructor (config: Config, lib: MathLib, outputLeft: bool)
      requires TakesRoots(lib)
      ensures Valid() && fresh(this) && fresh(Footprint()) && fresh(OutputParts())
      ensures |tracks| == 100 && Value() == FreshTable() && this.config == config && this.lib == lib
      ensures output == null <==> !outputLeft
      ensures output != null ==> output.Contents() == [] && output.capacity == CAPACITY
    {
      hide FusedTrack.Value, BlankTrack, Inv, TakesRoots, SlotsApart, SlotObjects, FusionProcessor.Slots;
      var list := CreateList(CAPACITY, outputLeft);
      var slots := NewSlots();
      output := list;
      tracks := slots;
      this.config := config;
      this.lib := lib;
      trackCount := 0;
      nextGlobalId := 1;
      new;
      FreshTableInv();
      BlankSlots();
      ProcessorOutside();
    }

    lemma ProcessorOutside()
      ensures this !in Footprint()
    {
    }

    lemma BlankSlots()
      requires SlotsApart(tracks) && forall i | 0 <= i < |tracks| :: tracks[i].Value() == BlankTrack()
      ensures Slots() == FreshTable().slots
    {
      hide FusedTrack.Value, BlankTrack;
    }

    /** When only slot b changed, the table changed in that slot only. */
    twostate lemma OneSlotChanged(b: nat)
      requires Separate() && b < |tracks|
      requires forall j | 0 <= j < |tracks| && j != b :: tracks[j].Value() == old(tracks[j].Value())
      ensures Slots() == old(Slots())[b := tracks[b].Value()]
    {
      hide FusedTrack.Value;
    }

    /** When only objects of slot b were touched, the table changed in that slot only. */
    twostate lemma OnlySlotTouched(b: nat)
      requires Separate() && b < |tracks|
      requires forall o | o in Footprint() && o !in tracks[b].Repr() :: unchanged(o)
      ensures Slots() == old(Slots())[b := tracks[b].Value()]
    {
      forall j | 0 <= j < |tracks| && j != b ensures tracks[j].Value() == old(tracks[j].Value()) {
        assert forall o | o in tracks[j].Repr() :: o in Footprint() && o !in tracks[b].Repr();
      }
      OneSlotChanged(b);
    }

    /** The closest live track below the association threshold, or -1. */
    method FindNearest(m: TargetTrack, ghost live: seq<Track>) returns (best: int)
      requires Separate() && trackCount <= |tracks| && live == Value().Live() && AllGateable(live) && TakesRoots(lib)
      ensures best == Nearest(live, m, Gate(config)) && best < |live|
    {
      hide DistanceSq, Distance, FusedTrack.Distance, Gate, Gateable, Closest, Nearest, TakesRoots, FusedTrack.Value,
           FusionProcessor.Slots, FusionProcessor.Separate;
      ghost var gate := Gate(config);
      best := -1;
      var minDist := config.associationThreshold;
      NoneClosest(m, gate);
      SlotCount();
      for j := 0 to trackCount
        invariant -1 <= best < j
        invariant live == Value().Live()
        invariant Closest(live[..j], m, gate, best)
        invariant minDist == if best < 0 then config.associationThreshold else Distance(live[best].filter, m, lib)
      {
        SlotDistance(j, live, m);
        var d := tracks[j].Distance(m, lib);
        ClosestStep(live, j, m, gate, best);
        SameComparison(live[j].filter, live[if best < 0 then j else best].filter, m, config, lib);
        if d < minDist {
          minDist := d;
          best := j;
        }
      }
      assert live[..trackCount] == live;
      ClosestUnique(live, m, gate, best, Nearest(live, m, gate));
    }

    lemma SlotDistance(j: nat, live: seq<Track>, m: TargetTrack)
      requires Separate() && j < trackCount <= |tracks| && live == Value().Live() && AllGateable(live)
      ensures var p := tracks[j].Value().filter.p; p.At(0, 0) + 0.1 != 0.0 && p.At(1, 1) + 0.1 != 0.0
      ensures tracks[j].filter.Valid() && Gateable(live[j].filter)
      ensures tracks[j].Distance(m, lib) == Distance(live[j].filter, m, lib)
    {
      hide FusedTrack.Value, FusedTrack.Distance, Distance, SimplifiedSq, Gateable;
      assert live[j] == tracks[j].Value();
      DistanceFormula(live[j].filter, m, lib);
    }

    lemma NoneClosest(m: TargetTrack, gate: real)
      ensures Closest([], m, gate, -1)
    {
    }

    /** Associates one measurement. */
    method AddMeasurement(m: TargetTrack, sensor: int)
      requires Valid()
      modifies this, Footprint()
      ensures Valid() && AllGateable(old(Value()).Live())
      ensures Value() == AddOne(old(Value()), m, sensor, config, lib)
    {
      hide Genuine, Nearest, Closest, InitialFromTrack, UpdateFilter, DistinctIds, IdsBelow, Gateable,
           TakesRoots, KalmanState.Value;
      AddOneInv(Value(), m, sensor, config, lib);
      Associate(m, sensor);
    }

    method Associate(m: TargetTrack, sensor: int)
      requires Separate() && trackCount <= |tracks| && AllGateable(Value().Live()) && TakesRoots(lib)
      modifies this, Footprint()
      ensures Value() == AddOne(old(Value()), m, sensor, config, lib)
    {
      hide Nearest, Closest, Fuse, Create, AllGateable, AddOne, TakesRoots,
           FusionProcessor.Separate, FusionProcessor.Slots, KalmanState.Value;
      SlotCount();
      ghost var tab := Value();
      var best := FindNearest(m, tab.Live());
      assert Value() == tab;
      AddOneCases(tab, m, sensor, config, lib, best);
      if best >= 0 {
        FuseInto(best, m, sensor);
      } else if trackCount < |tracks| {
        StartNext(m, sensor);
      }
    }

    lemma SlotOutside(i: nat)
      requires Separate() && i < |tracks|
      ensures tracks[i].filter.Valid() && (output != null ==> output !in Footprint())
    {
    }

    lemma SlotCount()
      requires Separate()
      ensures |tracks| == CAPACITY
    {
    }

    method FuseInto(b: nat, m: TargetTrack, sensor: int)
      requires Separate() && b < |tracks|
      modifies Footprint()
      ensures old(Value()).slots[b].filter.Shaped()
      ensures var t := Fuse(old(Value()).slots[b], m);
              Value() == old(Value()).(slots := old(Value()).slots[b := t.(sensors := t.sensors + {sensor})])
    {
      hide Fuse, FusedTrack.Value, FusionProcessor.Slots;
      SlotOutside(b);
      tracks[b].FuseMeasurement(m);
      tracks[b].SeenBy(sensor);
      OnlySlotTouched(b);
    }

    /** Makes the first free slot a track with the next id. */
    method StartNext(m: TargetTrack, sensor: int)
      requires Separate() && trackCount < |tracks|
      modifies this, Footprint()
      ensures var tab := old(Value());
              Value() == Table(tab.slots[tab.count := Create(tab.slots[tab.count], tab.nextId, m, sensor, lib)],
                               tab.count + 1, tab.nextId + 1)
    {
      hide Create, FusedTrack.Value, FusionProcessor.Slots;
      SlotOutside(trackCount);
      tracks[trackCount].StartTrack(nextGlobalId, m, sensor, lib);
      OnlySlotTouched(trackCount);
      trackCount := trackCount + 1;
      nextGlobalId := nextGlobalId + 1;
    }

    /** Associates every measurement of a list, in order; a null list is refused. */
    method AddTracks(list: TrackList?, sensor: int) returns (rc: int)
      requires Valid()
      requires list != null ==> list.Valid() && list !in Footprint() && list != output
      modifies this, Footprint()
      ensures Valid()
      ensures rc == if list == null then -1 else 0
      ensures list == null ==> Value() == old(Value())
      ensures list != null ==> Value() == AddBatch(old(Value()), old(list.Contents()), sensor, config, lib)
    {
      hide Inv, AddOne, FusionProcessor.Separate, FusionProcessor.Slots, FusionProcessor.Footprint, KalmanState.Value;
      if list == null {
        return -1;
      }
      ghost var ms, start := list.Contents(), Value();
      for i := 0 to list.count
        invariant list.Valid() && list.Contents() == ms
        invariant Valid()
        invariant AddBatch(Value(), ms[i..], sensor, config, lib) == AddBatch(start, ms, sensor, config, lib)
      {
        ListBufferOutside(list.tracks);
        assert list.tracks[i] == ms[i];
        assert ms[i..][1..] == ms[i + 1..] && ms[i..][0] == ms[i];
        AddMeasurement(list.tracks[i], sensor);
      }
      return 0;
    }

    /** One maintenance pass at time now; the published list describes the survivors in table order. */
    method RunPass(now: real)
      requires Valid()
      modifies this, Footprint(), OutputParts()
      ensures Valid()
      ensures Value() == Pass(old(Value()), now, config)
      ensures SameOutput() && Published(Value().Live(), now)
    {
      hide Inv, Pass, PublishAll, TakesRoots, KalmanState.Value;
      InvShape(Value());
      PassInv(Value(), now, config);
      SweepSlots(now);
    }

    lemma ListBufferOutside(a: array<TargetTrack>)
      ensures a !in Footprint()
    {
    }

    lemma OutputOutside()
      requires Separate()
      ensures OutputParts() !! Footprint()
    {
      if output != null {
        ListBufferOutside(output.tracks);
      }
    }

    /** The output list, if there is one, is emptied. */
    method ClearOutput(now: real)
      requires Separate() && OutputFits()
      modifies OutputParts()
      ensures OutputFits() && SameOutput() && Slots() == old(Slots()) && Published([], now)
    {
      hide FusedTrack.Value, FusionProcessor.Separate, FusionProcessor.Slots, PublishAll;
      ghost var before := Slots();
      OutputOutside();
      if output != null {
        output.Clear();
        NothingPublished(now);
      }
      assert Slots() == before;
    }

    lemma NothingPublished(now: real)
      ensures PublishAll([], now, lib) == []
    {
    }

    /** The loop of the pass. */
    method SweepSlots(now: real)
      requires Separate() && trackCount <= |tracks|
      requires OutputFits()
      modifies this`trackCount, Footprint(), OutputParts()
      ensures Value() == Pass(old(Value()), now, config)
      ensures OutputFits() && SameOutput() && Published(Value().Live(), now)
    {
      hide Process, Keeps, Compacted, Sweep, Publish, PublishAll, FusedTrack.Value, SlotObjects,
           FusionProcessor.Published;
      ghost var start, n := Slots(), trackCount;
      ClearOutput(now);
      var i := 0;
      while i < trackCount
        invariant 0 <= i <= trackCount <= |tracks|
        invariant OutputFits() && SameOutput()
        invariant Sweep(Slots(), trackCount, i, now, config) == Sweep(start, n, 0, now, config)
        invariant Published(Slots()[..i], now)
        decreases trackCount - i
      {
        var kept := SweepSlot(i, now);
        if !kept {
          i := i - 1;
        }
        i := i + 1;
      }
      SweepDone(Slots(), i, now, config);
      assert Slots()[..i] == Value().Live();
    }

    /** The body of the loop: processes slot i and, when it is kept, publishes it. */
    method SweepSlot(i: nat, now: real) returns (kept: bool)
      requires Separate() && i < trackCount <= |tracks|
      requires OutputFits() && Published(Slots()[..i], now)
      modifies this`trackCount, Footprint(), OutputParts()
      ensures OutputFits() && SameOutput()
      ensures trackCount == if kept then old(trackCount) else old(trackCount) - 1
      ensures var next := if kept then i + 1 else i;
        && next <= trackCount
        && Sweep(Slots(), trackCount, next, now, config) == old(Sweep(Slots(), trackCount, i, now, config))
        && Published(Slots()[..next], now)
    {
      hide Process, Keeps, Compacted, Sweep, Publish, PublishAll, FusedTrack.Value, SlotObjects;
      ghost var before := Slots();
      SweepStep(before, trackCount, i, now, config);
      OutputOutside();
      kept := ProcessSlot(i, now);
      assert Slots()[..i] == before[..i];
      if kept {
        PublishSlot(i, now);
      }
    }

    /** Appends the published form of slot i to the output. */
    method PublishSlot(i: nat, now: real)
      requires Separate() && i < |tracks| && OutputFits() && Published(Slots()[..i], now)
      modifies OutputParts()
      ensures OutputFits() && SameOutput()
      ensures Slots() == old(Slots()) && Published(Slots()[..i + 1], now)
    {
      hide Publish, PublishAll, FusedTrack.Value, FusionProcessor.Separate, FusionProcessor.Slots;
      ghost var before := Slots();
      SlotCount();
      SlotOutside(i);
      var out := Described(tracks[i], now);
      OutputOutside();
      if output != null {
        var _ := output.Add(out, false);
      }
      PublishNext(before[..i], before[i], now, lib);
      assert Slots() == before;
      assert before[..i + 1] == before[..i] + [before[i]];
    }

    /** Predicts and ages slot i; when the track fails the test, the last live slot takes its place. */
    method ProcessSlot(i: nat, now: real) returns (kept: bool)
      requires Separate() && i < trackCount <= |tracks|
      modifies this`trackCount, Footprint()
      ensures var t := Process(old(Slots())[i], now);
        && kept == Keeps(t, config)
        && trackCount == (if kept then old(trackCount) else old(trackCount) - 1)
        && Slots() == if kept then old(Slots())[i := t] else Compacted(old(Slots()), old(trackCount), i, t)
    {
      hide Process, KalmanState.Value, FusionProcessor.Slots;
      SlotOutside(i);
      var t := tracks[i];
      t.PredictAndAge(now);
      OnlySlotTouched(i);
      if t.age > config.maxTrackAge || t.confidence < config.confidenceThreshold {
        DeleteSlot(i);
        return false;
      }
      return true;
    }

    /** Swap-with-last deletion of slot i. */
    method DeleteSlot(i: nat)
      requires Separate() && i < trackCount <= |tracks|
      modifies this`trackCount, Footprint()
      ensures trackCount == old(trackCount) - 1
      ensures Slots() ==
        if i < old(trackCount) - 1 then old(Slots())[i := old(Slots())[old(trackCount) - 1]] else old(Slots())
    {
      hide FusedTrack.Value, FusionProcessor.Slots;
      if i < trackCount - 1 {
        SlotOutside(i);
        SlotOutside(trackCount - 1);
        tracks[i].CopyFrom(tracks[trackCount - 1]);
        OnlySlotTouched(i);
      }
      trackCount := trackCount - 1;
    }

    /** The published form of a slot. */
    method Described(t: FusedTrack, now: real) returns (out: TargetTrack)
      requires t.filter.Valid()
      ensures out == Publish(t.Value(), now, lib)
    {
      hide Speed, HeadingDegrees;
      StateCells(t.filter.state[..]);
      var vx, vy := t.filter.state[2], t.filter.state[3];
      out := TargetTrack(t.id, t.kind, t.filter.state[0], t.filter.state[1],
                         Speed(vx, vy, lib), HeadingDegrees(vx, vy, lib), t.confidence, now);
    }
  }

  /** fusion_processor_create, given whether there is memory for it and for its output list. */
  method CreateProcessor(config: Config, lib: MathLib, memoryLeft: bool, outputLeft: bool)
    returns (p: FusionProcessor?)
    requires TakesRoots(lib)
    ensures p == null <==> !memoryLeft
    ensures p != null ==>
      && fresh(p) && p.Valid() && p.Value() == FreshTable() && p.config == config && p.lib == lib
      && (p.output == null <==> !outputLeft) && (p.output != null ==> p.output.Contents() == [])
  {
    if !memoryLeft {
      return null;
    }
    p := new FusionProcessor(config, lib, outputLeft);
  }
}
