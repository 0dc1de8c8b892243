/**
 A message refers to its list and does not copy it, so whoever gets the message sees what became of the
 list while it was queued.
 */
module QueuedLists {
  import opened Tracks
  import opened TrackLists
  import opened BoundedFifo
  import opened MessageQueues

  /** What the owner of a list goes on doing to it; memoryLeft says whether a reallocation would succeed. */
  datatype Edit = Append(track: TargetTrack, memoryLeft: bool) | Empty

  /** The edits that take effect on a list of n tracks with the given capacity: appends may fail. */
  function Effective(n: nat, capacity: nat, es: seq<Edit>): seq<Edit>
    decreases |es|
  {
    if es == [] then []
    else match es[0]
      case Empty => [Empty] + Effective(0, capacity, es[1..])
      case Append(_, memoryLeft) =>
        if n < capacity then [es[0]] + Effective(n + 1, capacity, es[1..])
        else if memoryLeft then [es[0]] + Effective(n + 1, 2 * capacity, es[1..])
        else Effective(n, capacity, es[1..])
  }

  /** The contents after edits that all take effect. */
  function Edited(c: seq<TargetTrack>, es: seq<Edit>): seq<TargetTrack>
    decreases |es|
  {
    if es == [] then c else Edited(if es[0].Append? then c + [es[0].track] else [], es[1..])
  }

  /** The tracks appended since the list was last emptied, or at all. */
  function LastAppended(es: seq<Edit>): seq<TargetTrack> {
    if es == [] then []
    else if Empty in es[1..] || es[0] == Empty then LastAppended(es[1..])
    else [es[0].track] + LastAppended(es[1..])
  }

  lemma {:induction false} EditedIs(c: seq<TargetTrack>, es: seq<Edit>)
    ensures Edited(c, es) == (if Empty in es then [] else c) + LastAppended(es)
    decreases |es|
  {
    if es == [] {
    } else {
      EditedIs(if es[0].Append? then c + [es[0].track] else [], es[1..]);
      assert Empty in es <==> es[0] == Empty || Empty in es[1..];
      if Empty !in es {
        assert es[0].Append?;
        assert c + [es[0].track] + LastAppended(es[1..]) == c + ([es[0].track] + LastAppended(es[1..]));
      }
    }
  }

  /** Nothing was appended, or the list was emptied and the same was appended again. */
  predicate Restored(c: seq<TargetTrack>, es: seq<Edit>) {
    LastAppended(es) == if Empty in es then c else []
  }

  lemma SnapshotIff(c: seq<TargetTrack>, es: seq<Edit>)
    ensures Edited(c, es) == c <==> Restored(c, es)
  {
    EditedIs(c, es);
    if Edited(c, es) == c && Empty !in es {
      assert |c + LastAppended(es)| == |c| + |LastAppended(es)|;
    }
  }

  /** The contents of a list of the given capacity after edits of which some appends may fail. */
  function Outcome(c: seq<TargetTrack>, capacity: nat, es: seq<Edit>): seq<TargetTrack> {
    Edited(c, Effective(|c|, capacity, es))
  }

  lemma OutcomeStep(c: seq<TargetTrack>, capacity: nat, es: seq<Edit>)
    requires es != []
    ensures Outcome(c, capacity, es) ==
      match es[0]
      case Empty => Outcome([], capacity, es[1..])
      case Append(track, memoryLeft) =>
        if |c| < capacity then Outcome(c + [track], capacity, es[1..])
        else if memoryLeft then Outcome(c + [track], 2 * capacity, es[1..])
        else Outcome(c, capacity, es[1..])
  {
    var fx := Effective(|c|, capacity, es);
    if fx != [] {
      assert ([fx[0]] + fx[1..])[1..] == fx[1..];
    }
  }

  method EditList(list: TrackList, es: seq<Edit>)
    requires list.Valid() && list.capacity >= 1
    modifies list`tracks, list`count, list`capacity, list`bufferFreed, list.tracks
    ensures list.Valid() && list.Contents() == Outcome(old(list.Contents()), old(list.capacity), es)
  {
    hide Outcome;
    ghost var goal := Outcome(list.Contents(), list.capacity, es);
    for i := 0 to |es|
      invariant list.Valid() && list.capacity >= 1
      invariant list.tracks == old(list.tracks) || fresh(list.tracks)
      invariant Outcome(list.Contents(), list.capacity, es[i..]) == goal
    {
      OutcomeStep(list.Contents(), list.capacity, es[i..]);
      assert es[i..][0] == es[i] && es[i..][1..] == es[i + 1..];
      match es[i] {
        case Append(track, memoryLeft) => var _ := list.Add(track, memoryLeft);
        case Empty => list.Clear();
      }
    }
    assert es[|es|..] == [];
    OutcomeNone(list.Contents(), list.capacity);
  }

  lemma OutcomeNone(c: seq<TargetTrack>, capacity: nat)
    ensures Outcome(c, capacity, []) == c
  {
  }

  /**
   A list is pushed onto a queue with room, its owner goes on using it, and a consumer takes everything:
   what was queued before comes first, then the list itself, with what its owner did to it. That is what
   was pushed exactly when it was undone.
   */
  method PushEditPop(q: MecQueue, msg: Message, es: seq<Edit>) returns (popped: seq<Message>)
    requires q.Valid() && |q.Contents()| < q.capacity
    requires msg.list != null && msg.list.Valid() && msg.list.capacity >= 1 && !msg.list.freed
    modifies q, q.buffer, msg.list, msg.list.tracks
    ensures popped == old(q.Contents()) + [msg] && q.Valid() && q.Contents() == []
    ensures msg.list.Valid() && msg.list.Contents() == Outcome(old(msg.list.Contents()), old(msg.list.capacity), es)
    ensures var c := old(msg.list.Contents());
      msg.list.Contents() == c <==> Restored(c, Effective(|c|, old(msg.list.capacity), es))
  {
    hide Restored, Edited, Effective, Ring;
    ghost var c, capacity, all := msg.list.Contents(), msg.list.capacity, q.Contents() + [msg];
    var n := q.count;
    var _ := q.Push(msg);
    assert q.Contents() == all;
    EditList(msg.list, es);
    assert q.Contents() == all;
    popped := TakeAll(q, n + 1);
    SnapshotIff(c, Effective(|c|, capacity, es));
  }

  /** Pops n messages of a queue that holds them. */
  method TakeAll(q: MecQueue, n: nat) returns (popped: seq<Message>)
    requires q.Valid() && n == |q.Contents()|
    modifies q, q.buffer
    ensures q.Valid() && q.Contents() == [] && popped == old(q.Contents())
  {
    hide Ring, MecQueue.Valid, MecQueue.Contents;
    ghost var all := q.Contents();
    popped := [];
    for i := 0 to n
      invariant q.Valid() && |popped| == i && popped + q.Contents() == all
    {
      var _, out := q.TryPop();
      popped := popped + [out];
    }
    assert q.Contents() == [];
  }

  /** The radar thread appends to a list that is queued: the consumer gets a track that was never pushed. */
  lemma SnapshotExample(c: seq<TargetTrack>, capacity: nat, t: TargetTrack)
    requires |c| < capacity
    ensures !Restored(c, Effective(|c|, capacity, [Append(t, false)]))
    ensures Outcome(c, capacity, [Append(t, false)]) == c + [t]
  {
    var e := Append(t, false);
    assert [e][1..] == [] && Empty !in [e];
    assert Effective(|c|, capacity, [e]) == [e];
    EditedIs(c, [e]);
    assert LastAppended([e]) == [t] + LastAppended([]);
  }
}
