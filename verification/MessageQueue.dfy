/** The bounded ring buffer of messages, each holding one reference to its track list. */
module MessageQueues {
  import opened TrackLists
  import opened BoundedFifo

  type Message = Msg<TrackList?>

  /** Every message carries a list. */
  ghost predicate AllListed(q: seq<Message>) { forall i | 0 <= i < |q| :: q[i].list != null }

  // ---- what other threads do while a consumer waits

  datatype Act = Arrive(msg: Message) | Steal

  /** What happens to the queue in one wait, and whether the wait ends because its time is up. */
  datatype Wait = Wait(acts: seq<Act>, timedOut: bool)

  datatype PopResult = Got(msg: Message) | Refused | Asleep

  /** The queue after others pushed and popped. */
  function After(q: seq<Message>, capacity: nat, acts: seq<Act>): seq<Message>
    decreases |acts|
  {
    if acts == [] then q
    else
      var next :=
        if acts[0].Arrive? then (if acts[0].msg.list == null then q else Offer(q, capacity, acts[0].msg).0)
        else if q == [] then q else Take(q).1;
      After(next, capacity, acts[1..])
  }

  /** An arrival joins the end of a queue with room; a steal takes the front. */
  lemma OneAct(q: seq<Message>, capacity: nat, msg: Message)
    ensures After(q, capacity, [Arrive(msg)]) == if msg.list != null && |q| < capacity then q + [msg] else q
    ensures After(q, capacity, [Steal]) == if q == [] then [] else q[1..]
  {
    assert [Arrive(msg)][1..] == [] && [Steal][1..] == [];
  }

  /**
   A whole call of mec_queue_pop: the result and the queue it leaves. Without a further wait the
   caller sleeps on. A negative timeout never expires; at zero the call does not wait.
   */
  function PopCall(q: seq<Message>, capacity: nat, timeout: int, waits: seq<Wait>): (PopResult, seq<Message>)
    decreases |waits|
  {
    if q != [] then (Got(Take(q).0), Take(q).1)
    else if timeout == 0 then (Refused, q)
    else if waits == [] then (Asleep, q)
    else
      var next := After(q, capacity, waits[0].acts);
      if timeout > 0 && waits[0].timedOut then (Refused, next) else PopCall(next, capacity, timeout, waits[1..])
  }

  /** Every wait leaves the queue empty and none ends because the time is up. */
  ghost predicate WaitsInVain(capacity: nat, timeout: int, waits: seq<Wait>) {
    forall i | 0 <= i < |waits| :: After([], capacity, waits[i].acts) == [] && !(timeout > 0 && waits[i].timedOut)
  }

  /**
   When a call comes back: on an empty queue without waiting it is refused; otherwise it sleeps on
   exactly as long as every wait leaves the queue empty and no time is up; it is refused exactly when
   the time is up first, even if messages have arrived; and without a timeout it is never refused.
   */
  lemma {:induction false} PopReturns(capacity: nat, timeout: int, waits: seq<Wait>)
    requires timeout != 0
    ensures PopCall([], capacity, timeout, waits).0 == Asleep <==> WaitsInVain(capacity, timeout, waits)
    ensures PopCall([], capacity, timeout, waits).0 == Refused <==>
      timeout > 0 && exists i | 0 <= i < |waits| :: waits[i].timedOut && WaitsInVain(capacity, timeout, waits[..i])
    decreases |waits|
  {
    hide After;
    if waits == [] {
    } else if timeout > 0 && waits[0].timedOut {
      assert WaitsInVain(capacity, timeout, waits[..0]);
      assert !WaitsInVain(capacity, timeout, waits);
    } else if After([], capacity, waits[0].acts) != [] {
      forall i | 0 < i <= |waits| ensures !WaitsInVain(capacity, timeout, waits[..i]) {
        VainFirst(capacity, timeout, waits[..i]);
      }
      assert waits[..|waits|] == waits;
    } else {
      var rest := waits[1..];
      PopReturns(capacity, timeout, rest);
      VainFirst(capacity, timeout, waits);
      forall i | 0 <= i < |rest| ensures WaitsInVain(capacity, timeout, waits[..i + 1]) <==>
                                         WaitsInVain(capacity, timeout, rest[..i])
      {
        VainFirst(capacity, timeout, waits[..i + 1]);
        assert waits[..i + 1][1..] == rest[..i];
      }
      forall i | 0 <= i < |rest| && rest[i].timedOut && WaitsInVain(capacity, timeout, rest[..i])
        ensures waits[i + 1].timedOut && WaitsInVain(capacity, timeout, waits[..i + 1])
      {
      }
      forall i | 0 <= i < |waits| && waits[i].timedOut && WaitsInVain(capacity, timeout, waits[..i]) && timeout > 0
        ensures rest[i - 1].timedOut && WaitsInVain(capacity, timeout, rest[..i - 1])
      {
      }
    }
  }

  /** The queue as the waiting call finds it after its waits. */
  function AfterAll(q: seq<Message>, capacity: nat, waits: seq<Wait>): seq<Message>
    decreases |waits|
  {
    if waits == [] then q else AfterAll(After(q, capacity, waits[0].acts), capacity, waits[1..])
  }

  /** A call that gets a message takes the oldest of the queue it finds, and nothing else. */
  lemma {:induction false} PopTakesOldest(q: seq<Message>, capacity: nat, timeout: int, waits: seq<Wait>)
    requires PopCall(q, capacity, timeout, waits).0.Got?
    ensures var r := PopCall(q, capacity, timeout, waits);
      exists i | 0 <= i <= |waits| :: [r.0.msg] + r.1 == AfterAll(q, capacity, waits[..i])
    decreases |waits|
  {
    hide After;
    var r := PopCall(q, capacity, timeout, waits);
    if q != [] {
      assert waits[..0] == [] && AfterAll(q, capacity, waits[..0]) == q;
      assert [r.0.msg] + r.1 == q;
    } else {
      var next, rest := After(q, capacity, waits[0].acts), waits[1..];
      PopTakesOldest(next, capacity, timeout, rest);
      var i :| 0 <= i <= |rest| && [r.0.msg] + r.1 == AfterAll(next, capacity, rest[..i]);
      assert waits[..i + 1][0] == waits[0] && waits[..i + 1][1..] == rest[..i];
      assert [r.0.msg] + r.1 == AfterAll(q, capacity, waits[..i + 1]);
    }
  }

  lemma VainFirst(capacity: nat, timeout: int, waits: seq<Wait>)
    requires waits != []
    ensures WaitsInVain(capacity, timeout, waits) <==>
      && After([], capacity, waits[0].acts) == [] && !(timeout > 0 && waits[0].timedOut)
      && WaitsInVain(capacity, timeout, waits[1..])
  {
    hide After;
    if WaitsInVain(capacity, timeout, waits[1..]) {
      forall i | 0 < i < |waits| ensures
        After([], capacity, waits[i].acts) == [] && !(timeout > 0 && waits[i].timedOut)
      {
        assert waits[i] == waits[1..][i - 1];
      }
    }
  }

  /** The lists that others push during the waits. */
  function Pushed(waits: seq<Wait>): set<TrackList> {
    set i, j | 0 <= i < |waits| && 0 <= j < |waits[i].acts|
               && waits[i].acts[j].Arrive? && waits[i].acts[j].msg.list != null :: waits[i].acts[j].msg.list
  }

  class MecQueue {
    const buffer: array<Message>
    const capacity: nat
    var head: nat
    var tail: nat
    var count: nat

    ghost predicate Valid()
      reads this, buffer
    {
      && 0 < capacity == buffer.Length
      && head < capacity && tail < capacity && count <= capacity
      && tail == Wrap(head + count, capacity)
      && AllListed(Ring(buffer[..], head, count))
    }

    ghost function Contents(): (q: seq<Message>)
      requires Valid()
      reads this, buffer
      ensures |q| == count && AllListed(q)
    {
      Ring(buffer[..], head, count)
    }

    ghost function Lists(): set<TrackList>
      requires Valid()
      reads this, buffer
    {
      set m | m in Contents() :: m.list
    }

    constructor (capacity: nat)
      requires 0 < capacity
      ensures Valid() && fresh(buffer) && Contents() == [] && this.capacity == capacity
    {
      this.capacity := capacity;
      buffer := new Message[capacity](_ => Msg(0, null, 0.0));
      head, tail, count := 0, 0, 0;
    }

    /** Appends a message and takes a reference to its list; a missing list or a full queue is refused. */
    method Push(msg: Message) returns (rc: int)
      requires Valid()
      requires msg.list != null ==> !msg.list.freed
      modifies this, buffer, (if msg.list == null then {} else {msg.list})`refCount
      ensures Valid()
      ensures rc == if msg.list != null && Offer(old(Contents()), capacity, msg).1 then 0 else -1
      ensures Contents() == if msg.list == null then old(Contents()) else Offer(old(Contents()), capacity, msg).0
      ensures msg.list != null ==> msg.list.refCount == old(msg.list.refCount) + (if rc == 0 then 1 else 0)
    {
      if msg.list == null {
        return -1;
      }
      if count >= capacity {
        return -1;
      }
      ghost var q, b := Contents(), buffer[..];
      msg.list.Retain();
      buffer[tail] := msg;
      ModWrap(tail + 1, capacity);
      tail := (tail + 1) % capacity;
      count := count + 1;
      RingAppend(b, head, count - 1, msg);
      assert buffer[..] == b[Wrap(head + count - 1, capacity) := msg];
      assert Ring(buffer[..], head, count) == q + [msg];
      return 0;
    }

    /** Takes the oldest message; its reference passes to the caller. An empty queue is refused. */
    method TryPop() returns (rc: int, out: Message)
      requires Valid()
      modifies this, buffer
      ensures Valid()
      ensures rc == if old(Contents()) == [] then -1 else 0
      ensures old(Contents()) == [] ==> Contents() == []
      ensures old(Contents()) != [] ==> out == Take(old(Contents())).0 && Contents() == Take(old(Contents())).1
    {
      out := Msg(0, null, 0.0);
      if count == 0 {
        return -1, out;
      }
      ghost var q, b := Contents(), buffer[..];
      out := buffer[head];
      buffer[head] := out.(list := null);
      RingRemove(b, head, count, out.(list := null));
      assert buffer[..] == b[head := out.(list := null)];
      ModWrap(head + 1, capacity);
      head := (head + 1) % capacity;
      count := count - 1;
      assert Ring(buffer[..], head, count) == q[1..];
      return 0, out;
    }

    /** What others do to the queue during one wait. */
    method Others(acts: seq<Act>)
      requires Valid()
      requires forall j | 0 <= j < |acts| && acts[j].Arrive? && acts[j].msg.list != null :: !acts[j].msg.list.freed
      modifies this, buffer
      modifies (set j | 0 <= j < |acts| && acts[j].Arrive? && acts[j].msg.list != null :: acts[j].msg.list)`refCount
      ensures Valid() && Contents() == After(old(Contents()), capacity, acts)
    {
      hide Ring, AllListed;
      ghost var q := Contents();
      for j := 0 to |acts|
        invariant Valid()
        invariant After(Contents(), capacity, acts[j..]) == After(q, capacity, acts)
      {
        assert acts[j..][0] == acts[j] && acts[j..][1..] == acts[j + 1..];
        match acts[j] {
          case Arrive(msg) => var _ := Push(msg);
          case Steal => var _, _ := TryPop();
        }
      }
    }

    /** mec_queue_pop, given what happens in each of its waits. */
    method Pop(timeout: int, waits: seq<Wait>) returns (r: PopResult)
      requires Valid()
      requires forall l | l in Pushed(waits) :: !l.freed
      modifies this, buffer, Pushed(waits)`refCount
      ensures Valid()
      ensures (r, Contents()) == PopCall(old(Contents()), capacity, timeout, waits)
    {
      hide Ring, AllListed, After;
      ghost var q := Contents();
      var i := 0;
      while count == 0
        invariant Valid() && i <= |waits|
        invariant PopCall(Contents(), capacity, timeout, waits[i..]) == PopCall(q, capacity, timeout, waits)
        decreases |waits| - i
      {
        if timeout == 0 {
          return Refused;
        }
        if i == |waits| {
          return Asleep;
        }
        assert waits[i..][0] == waits[i] && waits[i..][1..] == waits[i + 1..];
        Others(waits[i].acts);
        if timeout > 0 && waits[i].timedOut {
          return Refused;
        }
        i := i + 1;
      }
      var _, out := TryPop();
      return Got(out);
    }

    lemma ListsAllocated()
      requires Valid()
      ensures forall l | l in Lists() :: allocated(l)
    {
    }

    /** Gives up the reference of the i-th queued message. */
    method ReleaseSlot(i: nat)
      requires Valid() && i < count && Contents()[i].list != null
      requires !Contents()[i].list.freed && !Contents()[i].list.bufferFreed
      modifies Contents()[i].list`refCount, Contents()[i].list`freed
      ensures Valid() && Contents() == old(Contents())
      ensures var l := Contents()[i].list;
        l != null && l.refCount == old(l.refCount) - 1 && (l.freed <==> l.refCount <= 0)
    {
      ModWrap(head + i, capacity);
      var l := buffer[(head + i) % capacity].list;
      if l != null {
        var _ := l.Release();
      }
    }

    /** Releases the reference of every message still queued, in order. */
    method Destroy()
      requires Valid()
      requires forall l | l in Lists() :: !l.freed && !l.bufferFreed && l.refCount >= Occurs(Contents(), l)
      modifies Lists()`refCount, Lists()`freed
      ensures Valid() && Contents() == old(Contents())
      ensures forall l | l in old(Lists()) ::
        l.refCount == old(l.refCount) - Occurs(Contents(), l) && (l.freed <==> l.refCount <= 0)
    {
      hide Occurs, MecQueue.Valid, MecQueue.Contents;
      ghost var q, lists := Contents(), Lists();
      ghost var refs := map l | l in lists :: l.refCount;
      ListsAllocated();
      NoneReleased(q, lists);
      for i := 0 to count
        invariant Valid() && Contents() == q && forall l | l in lists :: allocated(l)
        invariant forall l | l in lists :: l.refCount == refs[l] - Occurs(q[..i], l)
        invariant forall l | l in lists :: l.freed <==> l.refCount <= 0 && Occurs(q[..i], l) > 0
      {
        OccursNext(q, i, lists);
        assert q[i] in q && q[i].list in lists;
        ReleaseSlot(i);
      }
      assert q[..count] == q;
      forall l | l in lists ensures Occurs(q, l) > 0 {
        var m :| m in q && m.list == l;
        OccursMember(q, m);
      }
    }
  }

  /** mec_queue_create; memoryLeft says whether the system has memory for it. */
  method CreateQueue(capacity: int, memoryLeft: bool) returns (q: MecQueue?)
    ensures q == null <==> capacity <= 0 || !memoryLeft
    ensures q != null ==> fresh(q) && q.Valid() && q.Contents() == [] && q.capacity == capacity
  {
    if capacity <= 0 || !memoryLeft {
      return null;
    }
    q := new MecQueue(capacity);
  }

  lemma NoneReleased(q: seq<Message>, lists: set<TrackList>)
    ensures forall l | l in lists :: Occurs(q[..0], l) == 0
  {
  }

  lemma OccursNext(q: seq<Message>, i: nat, lists: set<TrackList>)
    requires i < |q|
    ensures forall l | l in lists ::
      && Occurs(q[..i + 1], l) == Occurs(q[..i], l) + (if q[i].list == l then 1 else 0)
      && Occurs(q[..i + 1], l) <= Occurs(q, l)
  {
    hide Occurs;
    forall l | l in lists
      ensures Occurs(q[..i + 1], l) == Occurs(q[..i], l) + (if q[i].list == l then 1 else 0)
      ensures Occurs(q[..i + 1], l) <= Occurs(q, l)
    {
      OccursPrefix(q, i, l);
    }
  }
}
