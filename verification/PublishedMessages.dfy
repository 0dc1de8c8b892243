/** From a maintenance pass to the broadcast message, with the buffer of the main loop. */
module PublishedMessages {
  import opened TrackLists
  import opened TrackTable
  import opened Maintenance
  import opened FusionProcessing
  import opened RsmCodec

  const BUFFER_SIZE := 2048
  const RSU_ID := 0xABCD

  /** The encoding of the main loop: a list within the table capacity is never truncated. */
  method Broadcast(list: TrackList, ms: UInt64) returns (buf: array<Octet>, len: int)
    requires list.Valid() && list.count <= CAPACITY
    ensures fresh(buf) && len == 17 + 20 * list.count <= 2017 && buf.Length == 2048
    ensures Decode(buf[..len]) == Message(0xABCD, ms, OnWire(list.Contents(), list.count))
  {
    hide Quantise, Reduced, Decode, IsMessage;
    buf := new Octet[BUFFER_SIZE](_ => 0);
    ghost var before, ts := buf[..], list.Contents();
    var rc;
    rc, len := EncodeRsm(list, RSU_ID, ms, buf, BUFFER_SIZE);
    assert list.Contents() == ts;
    MessageRoundTrip(before, buf[..], ts, RSU_ID, ms);
  }

  /**
   After a pass, the main loop encodes the published list when there is one and it is not empty: one
   participant per live track, in table order, nothing truncated and the count byte right.
   */
  method PassAndBroadcast(p: FusionProcessor, now: real, ms: UInt64)
    returns (buf: array?<Octet>, len: int)
    requires p.Valid()
    modifies p, p.Footprint(), p.OutputParts()
    ensures p.Valid() && (buf != null <==> p.output != null && p.trackCount > 0)
    ensures buf != null ==> len == 17 + 20 * p.trackCount <= 2017 && buf.Length == 2048
    ensures buf != null ==>
      var m := Decode(buf[..len]);
      && m.Message? && m.deviceId == 0xABCD && m.timestamp == ms && |m.participants| == p.trackCount
      && forall i | 0 <= i < p.trackCount ::
           m.participants[i] == Reduced(Quantise(Publish(p.Live()[i], now, p.lib)))
  {
    hide Publish, Quantise, Reduced, Decode, Pass, FusionProcessor.Valid, FusionProcessor.Value;
    p.RunPass(now);
    ShapeOf(p);
    if p.output != null && p.output.count > 0 {
      assert p.output.Contents() == PublishAll(p.Live(), now, p.lib);
      buf, len := Broadcast(p.output, ms);
    } else {
      buf, len := null, 0;
    }
  }

  lemma ShapeOf(p: FusionProcessor)
    requires p.Valid()
    ensures p.Value().Shaped() && p.Live() == p.Value().Live() && p.OutputFits()
  {
  }
}
