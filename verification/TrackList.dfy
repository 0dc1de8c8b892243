/** The reference-counted, growable list of targets that the producers, the queue and the fusion output share. */
module TrackLists {
  import opened Tracks

  class TrackList {
    var tracks: array<TargetTrack>
    var count: nat
    var capacity: nat
    var refCount: int
    /** The memory of the list was given back. */
    ghost var freed: bool
    /** The buffer was given back behind the back of the list, which still refers to it. */
    ghost var bufferFreed: bool

    ghost predicate Valid()
      reads this
    {
      count <= capacity == tracks.Length && !bufferFreed
    }

    ghost function Contents(): (s: seq<TargetTrack>)
      requires Valid()
      reads this, tracks
      ensures |s| == count
    {
      tracks[..count]
    }

    constructor (initialCapacity: nat)
      ensures Valid() && Contents() == [] && capacity == initialCapacity && fresh(tracks)
      ensures refCount == 1 && !freed
    {
      tracks := new TargetTrack[initialCapacity];
      count := 0;
      capacity := initialCapacity;
      refCount := 1;
      freed, bufferFreed := false, false;
    }

    method Retain()
      requires !freed
      modifies this`refCount
      ensures refCount == old(refCount) + 1
    {
      refCount := refCount + 1;
    }

    /** Gives up one reference; the last one frees the list. */
    method Release() returns (destroyed: bool)
      requires !freed && !bufferFreed
      modifies this`refCount, this`freed
      ensures refCount == old(refCount) - 1
      ensures destroyed == freed == (refCount <= 0)
    {
      refCount := refCount - 1;
      destroyed := refCount <= 0;
      if destroyed {
        freed := true;
      }
    }

    /**
     Appends a track, doubling a full buffer; memoryLeft says whether the reallocation would succeed.
     Doubling a capacity of zero asks for a buffer of no bytes, which frees the old one and fails.
     */
    method Add(track: TargetTrack, memoryLeft: bool) returns (ok: bool)
      requires Valid()
      modifies this`tracks, this`count, this`capacity, this`bufferFreed, tracks
      ensures Valid() <==> old(capacity) > 0
      ensures ok == (old(count) < old(capacity) || (old(capacity) > 0 && memoryLeft))
      ensures old(capacity) == 0 ==> bufferFreed && count == capacity == 0
      ensures Valid() ==> Contents() == if ok then old(Contents()) + [track] else old(Contents())
      ensures capacity == if ok && old(count) == old(capacity) then 2 * old(capacity) else old(capacity)
      ensures old(count) < old(capacity) ==> tracks == old(tracks)
      ensures tracks == old(tracks) || fresh(tracks)
    {
      if count >= capacity {
        var newCapacity := capacity * 2;
        if newCapacity == 0 {
          bufferFreed := true;
          return false;
        }
        if !memoryLeft {
          return false;
        }
        var newTracks := new TargetTrack[newCapacity];
        forall i | 0 <= i < count { newTracks[i] := tracks[i]; }
        assert newTracks[..count] == tracks[..count];
        tracks := newTracks;
        capacity := newCapacity;
      }
      tracks[count] := track;
      count := count + 1;
      return true;
    }

    method Clear()
      requires Valid()
      modifies this`count
      ensures Valid() && Contents() == []
    {
      count := 0;
    }
  }

  /** track_list_create; memoryLeft says whether the system has memory for it. */
  method CreateList(initialCapacity: int, memoryLeft: bool) returns (l: TrackList?)
    ensures l == null <==> initialCapacity < 0 || !memoryLeft
    ensures l != null ==>
      && fresh(l) && fresh(l.tracks) && l.Valid() && l.Contents() == [] && l.capacity == initialCapacity
      && l.refCount == 1 && !l.freed
  {
    if initialCapacity < 0 || !memoryLeft {
      return null;
    }
    l := new TrackList(initialCapacity);
  }
}
