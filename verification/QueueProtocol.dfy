/**
 The message queue as a step system: any number of producers and consumers, the mutex, the
 condition variable, and the references that threads and messages hold on track lists. Every
 locked section of the source is one step.
 */
module QueueProtocol {
  import opened BoundedFifo

  type Thread = int
  type List = int

  type Message = Msg<List>

  /**
   waiting are the consumers blocked on the condition variable that no signal has reached; woken
   are those that were woken and have not yet reacquired the mutex; timed are the blocked ones, of
   either kind, whose call has a timeout. holders counts the references
   outside the queue, freed how often each list was freed. sent, received and dropped record the
   messages pushed, popped, and still queued at destruction. The queue is alive until it is destroyed.
   */
  datatype System = System(
    alive: bool, capacity: nat, queue: seq<Message>, waiting: set<Thread>, woken: set<Thread>, timed: set<Thread>,
    refs: map<List, int>, holders: multiset<List>, freed: multiset<List>,
    sent: seq<Message>, received: seq<Message>, dropped: seq<Message>)

  datatype Patience = NoWait | Timed | Forever

  datatype Step =
    | Create(l: List)
    | Push(m: Message, signalled: set<Thread>)
    | Pop(t: Thread, patience: Patience)
    | Resume(t: Thread)
    | Spurious(t: Thread)
    | TimeOut(t: Thread)
    | TimeOutSignalled(t: Thread)
    | Release(l: List)
    | Destroy

  function Initial(capacity: nat): System {
    System(true, capacity, [], {}, {}, {}, map[], multiset{}, multiset{}, [], [], [])
  }

  /** What a step needs to be possible. A signal reaches at least one blocked thread if there is one. */
  predicate Enabled(s: System, e: Step) {
    match e
    case Create(l) => l !in s.refs
    case Push(m, w) => s.alive && m.list in s.holders && w <= s.waiting && (s.waiting != {} ==> w != {})
    case Pop(t, _) => s.alive && t !in s.waiting && t !in s.woken
    case Resume(t) => t in s.woken
    case Spurious(t) => t in s.waiting
    case TimeOut(t) => t in s.waiting && t in s.timed
    case TimeOutSignalled(t) => t in s.woken && t in s.timed
    case Release(l) => l in s.holders
    case Destroy => s.alive && s.waiting == {} && s.woken == {}
  }

  /** Gives up one reference to a list, freeing it at zero: track_list_release. */
  function Drop(s: System, l: List): System
    requires l in s.refs
  {
    var n := s.refs[l] - 1;
    s.(refs := s.refs[l := n], freed := if n <= 0 then s.freed + multiset{l} else s.freed)
  }

  function TakeOne(s: System): System
    requires s.queue != []
  {
    var (m, rest) := Take(s.queue);
    s.(queue := rest, received := s.received + [m], holders := s.holders + multiset{m.list})
  }

  /** The tail of mec_queue_pop once the mutex is held: leave with a message, or wait again. */
  function Recheck(s: System, t: Thread): System {
    if s.queue != [] then TakeOne(s).(timed := s.timed - {t}) else s.(waiting := s.waiting + {t})
  }

  function ReleaseQueue(s: System): (r: System)
    requires forall m | m in s.queue :: m.list in s.refs
    ensures r.queue == [] && r.holders == s.holders && r.sent == s.sent && r.received == s.received
    ensures r.alive == s.alive && r.waiting == s.waiting && r.woken == s.woken && r.timed == s.timed
    ensures r.capacity == s.capacity
    decreases |s.queue|
  {
    if s.queue == [] then s
    else ReleaseQueue(HeadReleased(s))
  }

  /** Every list that a holder or a message refers to exists. */
  predicate Known(s: System) {
    (forall l | l in s.holders :: l in s.refs) && (forall m | m in s.queue :: m.list in s.refs)
  }

  function Apply(s: System, e: Step): System
    requires Enabled(s, e) && Known(s)
  {
    match e
    case Create(l) => s.(refs := s.refs[l := 1], holders := s.holders + multiset{l})
    case Push(m, w) =>
      var (q, ok) := Offer(s.queue, s.capacity, m);
      var l: List := m.list;
      assert l in s.holders;
      if !ok then s
      else s.(queue := q, sent := s.sent + [m], refs := s.refs[l := s.refs[l] + 1],
              waiting := s.waiting - w, woken := s.woken + w)
    case Pop(t, patience) =>
      if s.queue == [] && patience == NoWait then s
      else Recheck(if patience == Timed then s.(timed := s.timed + {t}) else s, t)
    case Resume(t) => Recheck(s.(woken := s.woken - {t}), t)
    case Spurious(t) => s.(waiting := s.waiting - {t}, woken := s.woken + {t})
    case TimeOut(t) => s.(waiting := s.waiting - {t}, timed := s.timed - {t})
    case TimeOutSignalled(t) => s.(woken := s.woken - {t}, timed := s.timed - {t})
    case Release(l) => Drop(s.(holders := s.holders - multiset{l}), l)
    case Destroy => ReleaseQueue(s).(alive := false)
  }

  // ---- messages and references

  predicate Fifo(s: System) {
    && |s.queue| <= s.capacity && s.sent == s.received + s.dropped + s.queue
    && (if s.alive then s.dropped == [] else s.queue == [])
  }

  /** A list's count is its holders outside the queue plus its occurrences in it; it is freed once, at zero. */
  ghost predicate Counted(s: System, l: List) {
    if l in s.refs then
      && s.refs[l] == s.holders[l] + Occurs(s.queue, l)
      && s.freed[l] == if s.refs[l] == 0 then 1 else 0
    else s.holders[l] == 0 && Occurs(s.queue, l) == 0 && s.freed[l] == 0
  }

  ghost predicate RefInv(s: System) {
    Known(s) && forall l: List :: Counted(s, l)
  }

  lemma TakeCounts(s: System)
    requires RefInv(s) && s.queue != []
    ensures RefInv(TakeOne(s))
  {
    hide Occurs;
    var r := TakeOne(s);
    forall l: List ensures Counted(r, l) {
      assert Counted(s, l);
      OccursFirst(s.queue, l);
    }
  }

  /** The queue after its head was released at destruction. */
  function HeadReleased(s: System): System
    requires s.queue != [] && s.queue[0].list in s.refs
  {
    Drop(s, s.queue[0].list).(queue := s.queue[1..], dropped := s.dropped + [s.queue[0]])
  }

  lemma HeadReleasedCounts(s: System)
    requires RefInv(s) && s.queue != []
    ensures RefInv(HeadReleased(s))
  {
    hide Occurs;
    var r := HeadReleased(s);
    forall l: List ensures Counted(r, l) {
      assert Counted(s, l);
      OccursFirst(s.queue, l);
    }
  }

  lemma {:induction false} ReleaseQueueCounts(s: System)
    requires RefInv(s)
    ensures RefInv(ReleaseQueue(s))
    ensures ReleaseQueue(s).dropped == s.dropped + s.queue
    decreases |s.queue|
  {
    hide Occurs, Counted;
    if s.queue == [] {
      assert s.dropped + s.queue == s.dropped;
    } else {
      HeadReleasedCounts(s);
      ReleaseQueueCounts(HeadReleased(s));
      assert s.dropped + s.queue == (s.dropped + [s.queue[0]]) + s.queue[1..];
    }
  }

  /** The counts do not depend on who waits for what. */
  lemma SameCounts(s: System, r: System)
    requires RefInv(s) && r.refs == s.refs && r.holders == s.holders && r.freed == s.freed && r.queue == s.queue
    ensures RefInv(r)
  {
    hide Occurs;
    forall l: List ensures Counted(r, l) { assert Counted(s, l); }
  }

  lemma RecheckCounts(s: System, t: Thread)
    requires RefInv(s)
    ensures RefInv(Recheck(s, t))
  {
    hide RefInv, Occurs, Counted, TakeOne;
    if s.queue != [] {
      TakeCounts(s);
      SameCounts(TakeOne(s), Recheck(s, t));
    } else {
      SameCounts(s, Recheck(s, t));
    }
  }

  lemma CreateCounts(s: System, l: List)
    requires RefInv(s) && Enabled(s, Create(l))
    ensures RefInv(Apply(s, Create(l)))
  {
    hide Occurs;
    var r := Apply(s, Create(l));
    forall k: List ensures Counted(r, k) { assert Counted(s, k); }
  }

  lemma PushCounts(s: System, m: Message, w: set<Thread>)
    requires RefInv(s) && Enabled(s, Push(m, w))
    ensures RefInv(Apply(s, Push(m, w)))
  {
    hide Occurs;
    var r := Apply(s, Push(m, w));
    forall l: List ensures Counted(r, l) {
      assert Counted(s, l);
      OccursConcat(s.queue, [m], l);
      OccursOne(m, l);
    }
  }

  lemma ReleaseCounts(s: System, l: List)
    requires RefInv(s) && Enabled(s, Release(l))
    ensures RefInv(Apply(s, Release(l)))
  {
    hide Occurs;
    var r := Apply(s, Release(l));
    forall k: List ensures Counted(r, k) { assert Counted(s, k); }
  }

  /** Every step keeps the reference counts exact. */
  lemma StepCounts(s: System, e: Step)
    requires RefInv(s) && Enabled(s, e)
    ensures RefInv(Apply(s, e))
  {
    hide Occurs, Counted, Recheck, ReleaseQueue, Drop;
    var r := Apply(s, e);
    match e {
      case Create(l) => CreateCounts(s, l);
      case Push(m, w) => PushCounts(s, m, w);
      case Pop(t, patience) =>
        SameCounts(s, s.(timed := s.timed + {t}));
        RecheckCounts(if patience == Timed then s.(timed := s.timed + {t}) else s, t);
      case Resume(t) =>
        SameCounts(s, s.(woken := s.woken - {t}));
        RecheckCounts(s.(woken := s.woken - {t}), t);
      case Release(l) => ReleaseCounts(s, l);
      case Destroy =>
        ReleaseQueueCounts(s);
        SameCounts(ReleaseQueue(s), r);
      case _ => SameCounts(s, r);
    }
  }

  lemma StepFifo(s: System, e: Step)
    requires RefInv(s) && Fifo(s) && Enabled(s, e)
    ensures Fifo(Apply(s, e))
  {
    hide Occurs, ReleaseQueue;
    match e {
      case Push(m, w) =>
        assert s.received + s.dropped + (s.queue + [m]) == (s.received + s.dropped + s.queue) + [m];
      case Pop(t, _) => TakeOrder(s);
      case Resume(t) =>
        TakeOrder(s.(woken := s.woken - {t}));
      case Destroy =>
        ReleaseQueueCounts(s);
        assert s.received + (s.dropped + s.queue) + [] == s.received + s.dropped + s.queue;
      case _ =>
    }
  }

  lemma TakeOrder(s: System)
    requires Fifo(s)
    ensures s.queue != [] ==> Fifo(TakeOne(s))
  {
    if s.queue != [] {
      assert s.queue == [s.queue[0]] + s.queue[1..];
      assert s.received + [] + s.queue == (s.received + [s.queue[0]]) + [] + s.queue[1..];
    }
  }

  // ---- wake-ups

  /** No consumer is blocked unless enough woken ones are on their way to take every message. */
  predicate WakeInv(s: System) {
    s.waiting !! s.woken && (s.waiting != {} ==> |s.queue| <= |s.woken|)
  }

  lemma RecheckWakes(s: System, t: Thread)
    requires WakeInv(s) && t !in s.woken
    ensures WakeInv(Recheck(s, t))
  {
  }

  lemma PushWakes(s: System, m: Message, w: set<Thread>)
    requires Known(s) && WakeInv(s) && Enabled(s, Push(m, w))
    ensures WakeInv(Apply(s, Push(m, w)))
  {
    hide Known;
    SizeGrows(s.woken, w);
  }

  lemma ResumeWakes(s: System, t: Thread)
    requires WakeInv(s) && t in s.woken
    ensures WakeInv(Recheck(s.(woken := s.woken - {t}), t))
  {
    assert |s.woken - {t}| == |s.woken| - 1;
  }

  lemma SpuriousWakes(s: System, t: Thread)
    requires WakeInv(s) && t in s.waiting
    ensures WakeInv(s.(waiting := s.waiting - {t}, woken := s.woken + {t}))
  {
    SizeGrows(s.woken, {t});
  }

  /** Every step other than a timeout that swallows a signal keeps the wake-up invariant. */
  lemma StepWakes(s: System, e: Step)
    requires Known(s) && WakeInv(s) && Enabled(s, e) && !e.TimeOutSignalled?
    ensures WakeInv(Apply(s, e))
  {
    hide Occurs, Recheck;
    match e {
      case Push(m, w) => PushWakes(s, m, w);
      case Pop(t, patience) => RecheckWakes(if patience == Timed then s.(timed := s.timed + {t}) else s, t);
      case Resume(t) => ResumeWakes(s, t);
      case Spurious(t) => SpuriousWakes(s, t);
      case _ =>
    }
  }

  lemma SizeGrows(a: set<Thread>, b: set<Thread>)
    requires a !! b
    ensures |a + b| == |a| + |b| && (b != {} ==> |b| >= 1)
  {
    assert a * b == {};
  }

  // ---- runs

  /** A run is a sequence of steps each possible where it is taken. */
  ghost predicate Possible(s: System, es: seq<Step>)
    requires RefInv(s)
    decreases |es|
  {
    es == [] ||
    (Enabled(s, es[0]) && (StepCounts(s, es[0]); Possible(Apply(s, es[0]), es[1..])))
  }

  ghost function Run(s: System, es: seq<Step>): (r: System)
    requires RefInv(s) && Possible(s, es)
    ensures RefInv(r)
    decreases |es|
  {
    if es == [] then s else StepCounts(s, es[0]); Run(Apply(s, es[0]), es[1..])
  }

  lemma InitialInv(capacity: nat)
    ensures RefInv(Initial(capacity)) && Fifo(Initial(capacity)) && WakeInv(Initial(capacity))
  {
  }

  /** Over every run messages come out in the order they went in, none lost and none duplicated. */
  lemma {:induction false} RunFifo(s: System, es: seq<Step>)
    requires RefInv(s) && Fifo(s) && Possible(s, es)
    ensures Fifo(Run(s, es))
    decreases |es|
  {
    hide Occurs, Counted, Fifo, Apply, Enabled;
    if es == [] {
    } else {
      StepCounts(s, es[0]);
      StepFifo(s, es[0]);
      RunFifo(Apply(s, es[0]), es[1..]);
    }
  }

  predicate SwallowsNoSignal(es: seq<Step>) { forall i | 0 <= i < |es| :: !es[i].TimeOutSignalled? }

  /** No lost wake-up, over every run in which no timeout swallows a signal. */
  lemma {:induction false} RunWakes(s: System, es: seq<Step>)
    requires RefInv(s) && WakeInv(s) && Possible(s, es) && SwallowsNoSignal(es)
    ensures WakeInv(Run(s, es))
    decreases |es|
  {
    hide WakeInv, Apply, Enabled, Occurs;
    if es == [] {
    } else {
      StepCounts(s, es[0]);
      assert !es[0].TimeOutSignalled?;
      StepWakes(s, es[0]);
      RunWakes(Apply(s, es[0]), es[1..]);
    }
  }

  /** The consumers that ever wait are these, and only the impatient ones wait with a timeout. */
  predicate By(e: Step, consumers: set<Thread>, impatient: set<Thread>) {
    e.Pop? && e.patience != NoWait ==> e.t in consumers && (e.patience == Timed ==> e.t in impatient)
  }

  predicate AllBy(es: seq<Step>, consumers: set<Thread>, impatient: set<Thread>) {
    forall i | 0 <= i < |es| :: By(es[i], consumers, impatient)
  }

  lemma StepThreads(s: System, e: Step, consumers: set<Thread>, impatient: set<Thread>)
    requires Known(s) && Enabled(s, e) && By(e, consumers, impatient)
    requires s.waiting + s.woken <= consumers && s.timed <= impatient
    ensures Apply(s, e).waiting + Apply(s, e).woken <= consumers && Apply(s, e).timed <= impatient
  {
    hide Occurs;
  }

  lemma SafeStepWakes(s: System, e: Step, consumers: set<Thread>, impatient: set<Thread>)
    requires Known(s) && WakeInv(s) && Enabled(s, e) && By(e, consumers, impatient)
    requires s.waiting + s.woken <= consumers && s.timed <= impatient && (|consumers| <= 1 || impatient == {})
    ensures WakeInv(Apply(s, e))
  {
    hide Known, Occurs;
    if e.TimeOutSignalled? {
      Only(consumers, e.t);
      assert s.waiting == {};
    } else {
      StepWakes(s, e);
    }
  }

  lemma Only(c: set<Thread>, t: Thread)
    requires t in c && |c| <= 1
    ensures c == {t}
  {
    assert |c - {t}| == 0;
    assert c == (c - {t}) + {t};
  }

  /** With one waiting consumer, or none that waits with a timeout, no wake-up is lost, whatever timeouts consume. */
  lemma {:induction false} SafeRunWakes(s: System, es: seq<Step>, consumers: set<Thread>, impatient: set<Thread>)
    requires RefInv(s) && WakeInv(s) && Possible(s, es) && AllBy(es, consumers, impatient)
    requires s.waiting + s.woken <= consumers && s.timed <= impatient && (|consumers| <= 1 || impatient == {})
    ensures WakeInv(Run(s, es))
    decreases |es|
  {
    hide Occurs, Counted, WakeInv, Apply, By;
    if es == [] {
    } else {
      StepCounts(s, es[0]);
      assert By(es[0], consumers, impatient);
      SafeStepWakes(s, es[0], consumers, impatient);
      StepThreads(s, es[0], consumers, impatient);
      SafeRunWakes(Apply(s, es[0]), es[1..], consumers, impatient);
    }
  }

  /** With the one waiting consumer of the program, no wake-up is lost even when timeouts swallow signals. */
  lemma OneConsumerWakes(s: System, es: seq<Step>, t: Thread)
    requires RefInv(s) && WakeInv(s) && Possible(s, es) && s.waiting + s.woken <= {t}
    requires forall i | 0 <= i < |es| :: es[i].Pop? && es[i].patience != NoWait ==> es[i].t == t
    ensures WakeInv(Run(s, es))
  {
    hide Occurs, RefInv, WakeInv, Possible, Run;
    SafeRunWakes(s, es, {t}, s.timed + {t});
  }

  /**
   Two consumers, one of which waits with a timeout that swallows its signal: a message is queued,
   the other consumer sleeps on, and nobody is woken.
   */
  lemma LostWakeUp(capacity: nat, t: Thread, u: Thread, m: Message)
    requires capacity >= 1 && t != u
    ensures RefInv(Initial(capacity))
    ensures exists es: seq<Step> :: Possible(Initial(capacity), es) && AllBy(es, {t, u}, {t}) &&
              var s := Run(Initial(capacity), es); s.queue == [m] && s.waiting == {u} && s.woken == {}
  {
    hide Occurs, Counted, Run, Possible;
    var e0, e1, e2, e3, e4 := Create(m.list), Pop(t, Timed), Pop(u, Forever), Push(m, {t}), TimeOutSignalled(t);
    InitialInv(capacity);
    var s0 := Initial(capacity);
    StepCounts(s0, e0);
    var s1 := Apply(s0, e0);
    StepCounts(s1, e1);
    var s2 := Apply(s1, e1);
    StepCounts(s2, e2);
    var s3 := Apply(s2, e2);
    StepCounts(s3, e3);
    var s4 := Apply(s3, e3);
    assert s4.waiting == {u} && s4.woken == {t} && s4.timed == {t} && s4.queue == [m];
    RunLast(s4, e4);
    RunMore(s3, e3, [e4]);
    RunMore(s2, e2, [e3] + [e4]);
    RunMore(s1, e1, [e2] + ([e3] + [e4]));
    RunMore(s0, e0, [e1] + ([e2] + ([e3] + [e4])));
    assert AllBy([e0] + ([e1] + ([e2] + ([e3] + [e4]))), {t, u}, {t});
  }

  lemma HasMember(c: set<Thread>)
    requires c != {}
    ensures exists t: Thread :: t in c
  {
    if forall t: Thread :: t !in c {
      assert false;
    }
  }

  /**
   Wake-ups are safe in every run in which these are the consumers that ever wait, and these of them
   the ones that wait with a timeout, exactly when at most one waits or none waits with a timeout.
   Consumers that only poll do not matter.
   */
  lemma NoLostWakeUpIff(capacity: nat, consumers: set<Thread>, impatient: set<Thread>)
    requires capacity >= 1 && impatient <= consumers
    ensures RefInv(Initial(capacity))
    ensures (forall es: seq<Step> | Possible(Initial(capacity), es) && AllBy(es, consumers, impatient) ::
               WakeInv(Run(Initial(capacity), es))) <==>
            |consumers| <= 1 || impatient == {}
  {
    hide RefInv, Possible, Run, AllBy;
    InitialInv(capacity);
    if |consumers| <= 1 || impatient == {} {
      forall es: seq<Step> | Possible(Initial(capacity), es) && AllBy(es, consumers, impatient)
        ensures WakeInv(Run(Initial(capacity), es))
      {
        SafeRunWakes(Initial(capacity), es, consumers, impatient);
      }
    } else {
      HasMember(impatient);
      var t :| t in impatient;
      assert |consumers - {t}| == |consumers| - 1;
      HasMember(consumers - {t});
      var u :| u in consumers - {t};
      var m := Msg(1, 7, 0.0);
      LostWakeUp(capacity, t, u, m);
      var es :| Possible(Initial(capacity), es) && AllBy(es, {t, u}, {t}) &&
                var s := Run(Initial(capacity), es); s.queue == [m] && s.waiting == {u} && s.woken == {};
      WiderBy(es, {t, u}, {t}, consumers, impatient);
      assert !WakeInv(Run(Initial(capacity), es));
    }
  }

  lemma WiderBy(es: seq<Step>, c: set<Thread>, i: set<Thread>, consumers: set<Thread>, impatient: set<Thread>)
    requires AllBy(es, c, i) && c <= consumers && i <= impatient
    ensures AllBy(es, consumers, impatient)
  {
  }

  lemma RunLast(s: System, e: Step)
    requires RefInv(s) && Enabled(s, e)
    ensures RefInv(Apply(s, e)) && Possible(s, [e]) && Run(s, [e]) == Apply(s, e)
  {
    hide RefInv, Apply, Enabled;
    StepCounts(s, e);
    assert [e][1..] == [];
  }

  lemma RunMore(s: System, e: Step, es: seq<Step>)
    requires RefInv(s) && Enabled(s, e)
    requires RefInv(Apply(s, e)) && Possible(Apply(s, e), es)
    ensures Possible(s, [e] + es) && Run(s, [e] + es) == Run(Apply(s, e), es)
  {
    hide RefInv, Apply, Enabled;
    assert ([e] + es)[1..] == es;
  }

  // ---- lifetime of lists

  /** In every reachable state a queued list is alive. */
  lemma QueuedListsAlive(capacity: nat, es: seq<Step>, m: Message)
    requires RefInv(Initial(capacity)) && Possible(Initial(capacity), es)
    requires m in Run(Initial(capacity), es).queue
    ensures var s := Run(Initial(capacity), es); m.list in s.refs && s.refs[m.list] >= 1 && s.freed[m.list] == 0
  {
    hide Possible, Run, Occurs;
    var s := Run(Initial(capacity), es);
    assert Counted(s, m.list);
    OccursMember(s.queue, m);
  }

  /**
   Once the queue was destroyed and every holder has let go, in whatever order, each list was freed
   exactly once, and every message was received or dropped.
   */
  lemma ShutdownFreesEachOnce(capacity: nat, es: seq<Step>)
    requires RefInv(Initial(capacity)) && Possible(Initial(capacity), es)
    requires var s := Run(Initial(capacity), es); !s.alive && s.holders == multiset{}
    ensures var s := Run(Initial(capacity), es);
            (forall l | l in s.refs :: s.refs[l] == 0 && s.freed[l] == 1) && s.sent == s.received + s.dropped
  {
    hide Occurs, Run, Possible;
    InitialInv(capacity);
    RunFifo(Initial(capacity), es);
    var s := Run(Initial(capacity), es);
    forall l | l in s.refs ensures s.refs[l] == 0 && s.freed[l] == 1 {
      assert Counted(s, l);
      OccursNone(l);
    }
  }
}
