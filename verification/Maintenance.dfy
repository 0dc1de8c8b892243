/** The maintenance pass: every live track is predicted and aged once, and deleted by swap-with-last. */
module Maintenance {
  import opened FilterModel
  import opened FilterRuns
  import opened Tracks
  import opened TrackTable

  function Process(t: Track, now: real): Track {
    t.(filter := PredictFilter(t.filter, now - t.lastUpdate), age := t.age + 1)
  }

  /** A track after the passes at the given times. */
  function ProcessAll(t: Track, times: seq<real>): Track
    decreases |times|
  {
    if times == [] then t else ProcessAll(Process(t, times[0]), times[1..])
  }

  /** Processing predicts and ages; nothing else of a track changes. */
  lemma {:induction false} ProcessAllKeeps(t: Track, times: seq<real>)
    ensures var u := ProcessAll(t, times);
      && u.id == t.id && u.kind == t.kind && u.confidence == t.confidence && u.sensors == t.sensors
      && u.age == t.age + |times| && u.lastUpdate == t.lastUpdate
      && u.filter.lastUpdate == t.filter.lastUpdate && u.filter.initialized == t.filter.initialized
    decreases |times|
  {
    hide PredictCovariance;
    if times == [] {
    } else {
      ProcessAllKeeps(Process(t, times[0]), times[1..]);
    }
  }

  predicate Keeps(t: Track, cfg: Config) {
    t.age <= cfg.maxTrackAge && t.confidence >= cfg.confidenceThreshold
  }

  function Publish(t: Track, now: real, lib: MathLib): TargetTrack {
    var vx, vy := t.filter.x.At(2, 0), t.filter.x.At(3, 0);
    TargetTrack(t.id, t.kind, t.filter.x.At(0, 0), t.filter.x.At(1, 0),
                Speed(vx, vy, lib), HeadingDegrees(vx, vy, lib), t.confidence, now)
  }

  function Speed(vx: real, vy: real, lib: MathLib): real { lib.sqrt(vx * vx + vy * vy) }

  function HeadingDegrees(vx: real, vy: real, lib: MathLib): real { lib.atan2(vy, vx) * 180.0 / lib.pi }

  function PublishAll(ts: seq<Track>, now: real, lib: MathLib): (os: seq<TargetTrack>)
    ensures |os| == |ts| && forall i | 0 <= i < |ts| :: os[i] == Publish(ts[i], now, lib)
  {
    seq(|ts|, i requires 0 <= i < |ts| => Publish(ts[i], now, lib))
  }

  /** The slots and live count after the loop of the pass, from index i on. */
  function Sweep(slots: seq<Track>, n: nat, i: nat, now: real, cfg: Config): (r: (seq<Track>, nat))
    requires i <= n <= |slots|
    ensures |r.0| == |slots| && i <= r.1 <= n && r.0[..i] == slots[..i]
    decreases n - i
  {
    hide Process, Keeps, Compacted;
    if i == n then (slots, n)
    else
      var t := Process(slots[i], now);
      if Keeps(t, cfg) then
        var r := Sweep(slots[i := t], n, i + 1, now, cfg);
        ShorterPrefix(r.0, slots, i, t);
        r
      else Sweep(Compacted(slots, n, i, t), n - 1, i, now, cfg)
  }

  lemma ShorterPrefix<T>(r: seq<T>, s: seq<T>, i: nat, t: T)
    requires |r| == |s| && i < |s| && r[..i + 1] == s[i := t][..i + 1]
    ensures r[..i] == s[..i]
  {
    assert r[..i] == r[..i + 1][..i] == s[i := t][..i];
  }

  /** Slot i, rewritten to t, is overwritten by the last live slot unless it is the last one. */
  function Compacted(slots: seq<Track>, n: nat, i: nat, t: Track): (r: seq<Track>)
    requires i < n <= |slots|
    ensures |r| == |slots| && r[..i] == slots[..i]
  {
    if i < n - 1 then slots[i := t][i := slots[n - 1]] else slots[i := t]
  }

  /** One iteration of the loop. */
  lemma SweepStep(slots: seq<Track>, n: nat, i: nat, now: real, cfg: Config)
    requires i < n <= |slots|
    ensures var t := Process(slots[i], now);
            Sweep(slots, n, i, now, cfg) ==
            if Keeps(t, cfg) then Sweep(slots[i := t], n, i + 1, now, cfg)
            else Sweep(Compacted(slots, n, i, t), n - 1, i, now, cfg)
  {
    hide Process, Keeps, Compacted;
  }

  lemma SweepDone(slots: seq<Track>, n: nat, now: real, cfg: Config)
    requires n <= |slots|
    ensures Sweep(slots, n, n, now, cfg) == (slots, n)
  {
  }

  lemma PublishNext(ts: seq<Track>, t: Track, now: real, lib: MathLib)
    ensures PublishAll(ts + [t], now, lib) == PublishAll(ts, now, lib) + [Publish(t, now, lib)]
  {
    hide Publish;
  }

  function Pass(tab: Table, now: real, cfg: Config): (r: Table)
    requires tab.Shaped()
    ensures r.Shaped() && r.nextId == tab.nextId && r.count <= tab.count
  {
    var (slots, n) := Sweep(tab.slots, tab.count, 0, now, cfg);
    Table(slots, n, tab.nextId)
  }

  /** What the pass is for: the processed tracks that meet the age and confidence test. */
  function Survivors(ts: seq<Track>, now: real, cfg: Config): multiset<Track> {
    if ts == [] then multiset{}
    else
      var t := Process(ts[0], now);
      (if Keeps(t, cfg) then multiset{t} else multiset{}) + Survivors(ts[1..], now, cfg)
  }

  lemma {:induction false} SurvivorsConcat(a: seq<Track>, b: seq<Track>, now: real, cfg: Config)
    ensures Survivors(a + b, now, cfg) == Survivors(a, now, cfg) + Survivors(b, now, cfg)
  {
    hide Process, Keeps, Compacted;
    if a == [] {
      assert a + b == b;
    } else {
      assert (a + b)[1..] == a[1..] + b;
      SurvivorsConcat(a[1..], b, now, cfg);
    }
  }

  /** The first unprocessed track is set apart from the others. */
  lemma SurvivorsFirst(slots: seq<Track>, n: nat, i: nat, now: real, cfg: Config)
    requires i < n <= |slots|
    ensures Survivors(slots[i..n], now, cfg) ==
            (if Keeps(Process(slots[i], now), cfg) then multiset{Process(slots[i], now)} else multiset{})
              + Survivors(slots[i + 1..n], now, cfg)
  {
    hide Process, Keeps, Compacted;
    assert slots[i..n][1..] == slots[i + 1..n];
  }

  /** Bringing the last track to the front does not change who survives. */
  lemma SurvivorsRotate(slots: seq<Track>, n: nat, i: nat, now: real, cfg: Config)
    requires i < n - 1 < |slots|
    ensures Survivors([slots[n - 1]] + slots[i + 1..n - 1], now, cfg) == Survivors(slots[i + 1..n], now, cfg)
  {
    hide Survivors;
    var last, mid := [slots[n - 1]], slots[i + 1..n - 1];
    assert slots[i + 1..n] == mid + last;
    SurvivorsConcat(last, mid, now, cfg);
    SurvivorsConcat(mid, last, now, cfg);
  }

  /** Every track of the unprocessed part is processed exactly once, whatever the deletions move around. */
  lemma {:induction false} SweepSurvivors(slots: seq<Track>, n: nat, i: nat, now: real, cfg: Config)
    requires i <= n <= |slots|
    ensures var r := Sweep(slots, n, i, now, cfg);
            multiset(r.0[..r.1]) == multiset(slots[..i]) + Survivors(slots[i..n], now, cfg)
    decreases n - i
  {
    hide Process, Keeps, Survivors, Compacted;
    if i == n {
      assert slots[i..n] == [];
      SurvivorsNone(now, cfg);
    } else {
      var t := Process(slots[i], now);
      SurvivorsFirst(slots, n, i, now, cfg);
      if Keeps(t, cfg) {
        KeepSlices(slots, n, i, t);
        SweepSurvivors(slots[i := t], n, i + 1, now, cfg);
      } else {
        DropSlices(slots, n, i, t, now, cfg);
        SweepSurvivors(Compacted(slots, n, i, t), n - 1, i, now, cfg);
      }
    }
  }

  lemma KeepSlices(slots: seq<Track>, n: nat, i: nat, t: Track)
    requires i < n <= |slots|
    ensures multiset(slots[i := t][..i + 1]) == multiset(slots[..i]) + multiset{t}
    ensures slots[i := t][i + 1..n] == slots[i + 1..n]
  {
    assert slots[i := t][..i + 1] == slots[..i] + [t];
  }

  lemma DropSlices(slots: seq<Track>, n: nat, i: nat, t: Track, now: real, cfg: Config)
    requires i < n <= |slots|
    ensures Compacted(slots, n, i, t)[..i] == slots[..i]
    ensures Survivors(Compacted(slots, n, i, t)[i..n - 1], now, cfg) == Survivors(slots[i + 1..n], now, cfg)
  {
    hide Survivors;
    if i < n - 1 {
      assert Compacted(slots, n, i, t)[i..n - 1] == [slots[n - 1]] + slots[i + 1..n - 1];
      SurvivorsRotate(slots, n, i, now, cfg);
    } else {
      assert Compacted(slots, n, i, t)[i..n - 1] == slots[i + 1..n];
    }
  }

  lemma SurvivorsNone(now: real, cfg: Config)
    ensures Survivors([], now, cfg) == multiset{}
  {
  }

  /** The survivors of a pass are, as a multiset, exactly the processed tracks that meet the test. */
  lemma PassSurvivors(tab: Table, now: real, cfg: Config)
    requires tab.Shaped()
    ensures multiset(Pass(tab, now, cfg).Live()) == Survivors(tab.Live(), now, cfg)
  {
    hide Sweep, Survivors;
    SweepSurvivors(tab.slots, tab.count, 0, now, cfg);
    assert tab.slots[..0] == [];
    assert tab.slots[0..tab.count] == tab.Live();
  }

  /** t came out of the pass because it was processed from some live track and passed the test. */
  lemma {:induction false} SurvivorOrigin(ts: seq<Track>, now: real, cfg: Config, t: Track)
    ensures t in Survivors(ts, now, cfg) <==>
            exists i | 0 <= i < |ts| :: t == Process(ts[i], now) && Keeps(t, cfg)
  {
    hide Process, Keeps, Compacted;
    if ts == [] {
    } else {
      SurvivorOrigin(ts[1..], now, cfg, t);
      if t in Survivors(ts, now, cfg) {
        if t == Process(ts[0], now) && Keeps(t, cfg) {
        } else {
          var i :| 0 <= i < |ts[1..]| && t == Process(ts[1..][i], now) && Keeps(t, cfg);
          assert ts[1..][i] == ts[i + 1];
        }
      }
      forall i | 0 <= i < |ts| && t == Process(ts[i], now) && Keeps(t, cfg) ensures t in Survivors(ts, now, cfg) {
        if i > 0 {
          assert ts[1..][i - 1] == ts[i];
        }
      }
    }
  }

  /** Membership in the table after a pass. */
  lemma PassMembers(tab: Table, now: real, cfg: Config, t: Track)
    requires tab.Shaped()
    ensures t in Pass(tab, now, cfg).Live() <==>
            exists s | s in tab.Live() :: t == Process(s, now) && Keeps(t, cfg)
  {
    hide Process, Keeps, Survivors, Pass;
    PassSurvivors(tab, now, cfg);
    var after := Pass(tab, now, cfg).Live();
    assert t in after <==> t in multiset(after);
    SurvivorOrigin(tab.Live(), now, cfg, t);
  }

  /** Survivors of tracks with distinct ids occur once each. */
  lemma {:induction false} SurvivorsDistinct(ts: seq<Track>, now: real, cfg: Config)
    requires DistinctIds(ts)
    ensures forall s, t | s in Survivors(ts, now, cfg) && t in Survivors(ts, now, cfg) && s.id == t.id :: s == t
    ensures forall t | t in Survivors(ts, now, cfg) :: Survivors(ts, now, cfg)[t] == 1
  {
    hide Keeps, PredictFilter;
    if ts == [] {
    } else {
      var rest := ts[1..];
      SurvivorsDistinct(rest, now, cfg);
      forall t | t in Survivors(rest, now, cfg) ensures t.id != ts[0].id {
        SurvivorOrigin(rest, now, cfg, t);
        var i :| 0 <= i < |rest| && t == Process(rest[i], now);
        assert rest[i] == ts[i + 1];
      }
    }
  }

  lemma DistinctFromMultiset(ts: seq<Track>, m: multiset<Track>)
    requires multiset(ts) == m
    requires forall s, t | s in m && t in m && s.id == t.id :: s == t
    requires forall t | t in m :: m[t] == 1
    ensures DistinctIds(ts)
  {
    forall i, j | 0 <= i < j < |ts| ensures ts[i].id != ts[j].id {
      assert ts[i] in m && ts[j] in m;
      Occurrences(ts, i, j);
    }
  }

  lemma Occurrences(ts: seq<Track>, i: nat, j: nat)
    requires i < j < |ts|
    ensures ts[i] == ts[j] ==> multiset(ts)[ts[i]] >= 2
  {
    assert ts == ts[..j] + ts[j..];
    assert ts[..j][i] == ts[i] && ts[j..][0] == ts[j];
    assert ts[i] in multiset(ts[..j]) && ts[j] in multiset(ts[j..]);
  }

  lemma ProcessGenuine(t: Track, now: real)
    requires Genuine(t.filter)
    ensures Genuine(Process(t, now).filter)
  {
    hide Reachable, PredictFilter;
    StepGenuine(t.filter, Predict(now - t.lastUpdate));
  }

  /** Every track left by the pass meets the test and comes from a live one. */
  lemma PassTrack(tab: Table, now: real, cfg: Config, i: nat)
    requires Inv(tab) && i < Pass(tab, now, cfg).count
    ensures var t := Pass(tab, now, cfg).Live()[i];
            Genuine(t.filter) && Keeps(t, cfg) && 1 <= t.id < tab.nextId
  {
    hide Genuine, Keeps, Survivors, Pass, PredictFilter, DistinctIds;
    var t := Pass(tab, now, cfg).Live()[i];
    PassMembers(tab, now, cfg, t);
    var s :| s in tab.Live() && t == Process(s, now);
    var j :| 0 <= j < tab.count && tab.Live()[j] == s;
    ProcessGenuine(s, now);
  }

  lemma PassDistinct(tab: Table, now: real, cfg: Config)
    requires tab.Shaped() && DistinctIds(tab.Live())
    ensures DistinctIds(Pass(tab, now, cfg).Live())
  {
    hide Keeps, Survivors, Pass, DistinctIds;
    PassSurvivors(tab, now, cfg);
    SurvivorsDistinct(tab.Live(), now, cfg);
    DistinctFromMultiset(Pass(tab, now, cfg).Live(), Survivors(tab.Live(), now, cfg));
  }

  /** The pass keeps the invariant, and leaves only tracks that are young and confident enough. */
  lemma PassInv(tab: Table, now: real, cfg: Config)
    requires Inv(tab)
    ensures Inv(Pass(tab, now, cfg))
    ensures forall i | 0 <= i < Pass(tab, now, cfg).count ::
      var t := Pass(tab, now, cfg).Live()[i]; t.age <= cfg.maxTrackAge && t.confidence >= cfg.confidenceThreshold
  {
    hide Genuine, Pass, DistinctIds;
    PassDistinct(tab, now, cfg);
    forall i | 0 <= i < Pass(tab, now, cfg).count
      ensures var t := Pass(tab, now, cfg).Live()[i];
              Genuine(t.filter) && Keeps(t, cfg) && 1 <= t.id < tab.nextId
    {
      PassTrack(tab, now, cfg, i);
    }
  }
}
