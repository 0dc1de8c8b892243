/**
 The roadside safety message: a 16-byte header, a count byte, and 20 bytes per participant, in the
 natural alignment of the wire structures. Padding bytes are never written.
 */
module RsmCodec {
  import Indices
  import opened Tracks
  import opened TrackLists

  /** A byte as the number it stands for: the codec does arithmetic on bytes. */
  type Octet = x: int | 0 <= x < 0x100
  type UInt32 = x: int | 0 <= x < 0x1_0000_0000
  type UInt64 = x: int | 0 <= x < 0x1_0000_0000_0000_0000

  const HEADER_SIZE := 16
  const PARTICIPANT_SIZE := 20
  const MAGIC: Octet := 0x56
  const VERSION: Octet := 1
  const RSM: Octet := 1

  /** What the encoder does to a byte of the buffer. */
  datatype Cell = Keep | Put(value: Octet) {
    function On(b: Octet): Octet { if Put? then value else b }
  }

  /** Octet k of v, from the least significant, as if in two's complement of any width. */
  function ByteOf(v: int, k: nat): (b: Octet)
    decreases k
  {
    if k == 0 then v % 256 else ByteOf(v / 256, k - 1)
  }

  /** C's conversion of a floating value to an integer. */
  function Truncate(x: real): int { if x >= 0.0 then x.Floor else -((-x).Floor) }

  lemma TruncateNear(x: real)
    ensures x >= 0.0 ==> Truncate(x) as real <= x < Truncate(x) as real + 1.0
    ensures x < 0.0 ==> Truncate(x) as real - 1.0 < x <= Truncate(x) as real
  {
  }

  function TypeCode(k: TargetType): Octet {
    match k
    case Vehicle => 0
    case NonVehicle => 1
    case Pedestrian => 2
    case Obstacle => 3
  }

  /** The meanings that the interface gives to the type byte of a participant. */
  datatype WireType = Unknown | SmallCar | LargeCar | Walker | Bicycle

  function WireMeaning(code: int): WireType {
    match code
    case 1 => SmallCar
    case 2 => LargeCar
    case 3 => Walker
    case 4 => Bicycle
    case _ => Unknown
  }

  /** What a target of a kind would be on the wire; the interface has no code for an obstacle, nor one size of car. */
  predicate Means(w: WireType, k: TargetType) {
    match k
    case Vehicle => w == SmallCar || w == LargeCar
    case NonVehicle => w == Bicycle
    case Pedestrian => w == Walker
    case Obstacle => w == Unknown
  }

  /** The encoder copies the number of the kind, which never is the code for what the target is. */
  lemma TypeCodesDiffer(k: TargetType)
    ensures !Means(WireMeaning(TypeCode(k)), k)
    ensures WireMeaning(TypeCode(Vehicle)) == Unknown && WireMeaning(TypeCode(NonVehicle)) == SmallCar
    ensures WireMeaning(TypeCode(Pedestrian)) == LargeCar && WireMeaning(TypeCode(Obstacle)) == Walker
  {
  }

  /** A participant as the integers on the wire. */
  datatype Participant = Participant(id: int, kind: int, lat: int, lon: int, speed: int, heading: int, confidence: int)

  function Quantise(t: TargetTrack): Participant {
    Participant(t.id, TypeCode(t.kind), Truncate(t.latitude * 10000000.0), Truncate(t.longitude * 10000000.0),
                Truncate(t.velocity / 0.02), Truncate(t.heading / 0.0125), Truncate(t.confidence * 200.0))
  }

  /** Octet k of the 20 bytes of a participant; multi-byte fields are big-endian. */
  function ParticipantCell(p: Participant, k: nat): Cell
    requires k < PARTICIPANT_SIZE
  {
    if k < 2 then Put(ByteOf(p.id, 1 - k))
    else if k == 2 then Put(ByteOf(p.kind, 0))
    else if k == 3 then Keep
    else if k < 8 then Put(ByteOf(p.lat, 7 - k))
    else if k < 12 then Put(ByteOf(p.lon, 11 - k))
    else if k < 14 then Put(ByteOf(p.speed, 13 - k))
    else if k < 16 then Put(ByteOf(p.heading, 15 - k))
    else if k == 16 then Put(ByteOf(p.confidence, 0))
    else Keep
  }

  /** Octet k of the header; the device id is big-endian, the timestamp is in host order, least significant first. */
  function HeaderCell(rsuId: UInt32, ms: UInt64, k: nat): Cell
    requires k < HEADER_SIZE
  {
    if k == 0 then Put(MAGIC)
    else if k == 1 then Put(VERSION)
    else if k == 2 then Put(RSM)
    else if k == 3 then Keep
    else if k < 8 then Put(ByteOf(rsuId, 7 - k))
    else Put(ByteOf(ms, k - 8))
  }

  /** How many of count participants fit. */
  function Fitting(count: nat, maxLen: int): (n: nat)
    requires maxLen >= HEADER_SIZE + 1
    ensures n <= count && 17 + 20 * n <= maxLen
    ensures n < count ==> maxLen < 17 + 20 * (n + 1)
  {
    var room := (maxLen - 17) / 20;
    if count <= room then count else room
  }

  /** Octet i of a message that holds the first n of the tracks. */
  function MessageCell(ts: seq<TargetTrack>, n: nat, rsuId: UInt32, ms: UInt64, i: nat): Cell
    requires n <= |ts|
  {
    if i < HEADER_SIZE then HeaderCell(rsuId, ms, i)
    else if i == HEADER_SIZE then Put(|ts| % 256)
    else if i < 17 + 20 * n then ParticipantCell(Quantise(ts[(i - 17) / 20]), (i - 17) % 20)
    else Keep
  }

  /** b is the message of the first n tracks written over a. */
  ghost predicate IsMessage(a: seq<Octet>, b: seq<Octet>, ts: seq<TargetTrack>, n: nat, rsuId: UInt32, ms: UInt64)
    requires n <= |ts|
  {
    |a| == |b| && forall i: nat | i < |b| :: b[i] == MessageCell(ts, n, rsuId, ms, i).On(a[i])
  }

  // ---- the encoder

  method WriteHeader(buf: array<Octet>, rsuId: UInt32, ms: UInt64)
    requires buf.Length >= HEADER_SIZE
    modifies buf
    ensures forall i | 0 <= i < HEADER_SIZE :: buf[i] == HeaderCell(rsuId, ms, i).On(old(buf[i]))
    ensures forall i | HEADER_SIZE <= i < buf.Length :: buf[i] == old(buf[i])
  {
    hide ByteOf;
    buf[0] := MAGIC;
    buf[1] := VERSION;
    buf[2] := RSM;
    PutBe32(buf, 4, rsuId);
    for k := 0 to 8
      invariant buf[0] == MAGIC && buf[1] == VERSION && buf[2] == RSM && buf[3] == old(buf[3])
      invariant forall i | 4 <= i < 8 :: buf[i] == ByteOf(rsuId, 7 - i)
      invariant forall i | 8 <= i < 8 + k :: buf[i] == ByteOf(ms, i - 8)
      invariant forall i | 16 <= i < buf.Length :: buf[i] == old(buf[i])
    {
      buf[8 + k] := ByteOf(ms, k);
    }
  }

  method WriteParticipant(buf: array<Octet>, pos: nat, t: TargetTrack)
    requires pos + PARTICIPANT_SIZE <= buf.Length
    modifies buf
    ensures forall k | 0 <= k < PARTICIPANT_SIZE ::
      buf[pos + k] == ParticipantCell(Quantise(t), k).On(old(buf[pos + k]))
    ensures forall i | 0 <= i < buf.Length && !(pos <= i < pos + PARTICIPANT_SIZE) :: buf[i] == old(buf[i])
  {
    hide Quantise, ByteOf;
    var p := Quantise(t);
    PutBe16(buf, pos, p.id);
    buf[pos + 2] := ByteOf(p.kind, 0);
    PutBe32(buf, pos + 4, p.lat);
    PutBe32(buf, pos + 8, p.lon);
    PutBe16(buf, pos + 12, p.speed);
    PutBe16(buf, pos + 14, p.heading);
    buf[pos + 16] := ByteOf(p.confidence, 0);
  }

  /** Stores the low 16 bits, high byte first: htons. */
  method PutBe16(buf: array<Octet>, i: nat, v: int)
    requires i + 2 <= buf.Length
    modifies buf
    ensures buf[i] == ByteOf(v, 1) && buf[i + 1] == ByteOf(v, 0)
    ensures forall j | 0 <= j < buf.Length && !(i <= j < i + 2) :: buf[j] == old(buf[j])
  {
    hide ByteOf;
    buf[i], buf[i + 1] := ByteOf(v, 1), ByteOf(v, 0);
  }

  /** Stores the low 32 bits, high byte first: htonl. */
  method PutBe32(buf: array<Octet>, i: nat, v: int)
    requires i + 4 <= buf.Length
    modifies buf
    ensures buf[i] == ByteOf(v, 3) && buf[i + 1] == ByteOf(v, 2)
    ensures buf[i + 2] == ByteOf(v, 1) && buf[i + 3] == ByteOf(v, 0)
    ensures forall j | 0 <= j < buf.Length && !(i <= j < i + 4) :: buf[j] == old(buf[j])
  {
    hide ByteOf;
    buf[i], buf[i + 1], buf[i + 2], buf[i + 3] := ByteOf(v, 3), ByteOf(v, 2), ByteOf(v, 1), ByteOf(v, 0);
  }

  /**
   Encodes the list into outBuf, of which maxLen bytes may be used. Refused without a list or when
   the header and count byte do not fit; a header that fits alone is still written.
   */
  method EncodeRsm(list: TrackList?, rsuId: UInt32, ms: UInt64, outBuf: array<Octet>, maxLen: int)
    returns (rc: int, outLen: int)
    requires maxLen <= outBuf.Length && (list != null ==> list.Valid())
    modifies outBuf
    ensures rc == if list == null || maxLen < HEADER_SIZE + 1 then -1 else 0
    ensures rc != 0 ==> outLen == maxLen
    ensures list == null || maxLen < HEADER_SIZE ==> outBuf[..] == old(outBuf[..])
    ensures rc == 0 ==>
      var n := Fitting(list.count, maxLen);
      outLen == 17 + 20 * n && IsMessage(old(outBuf[..]), outBuf[..], list.Contents(), n, rsuId, ms)
  {
    hide HeaderCell, ParticipantCell, Quantise;
    outLen := maxLen;
    if list == null {
      return -1, maxLen;
    }
    if maxLen < HEADER_SIZE {
      return -1, maxLen;
    }
    ghost var before, ts := outBuf[..], list.Contents();
    WriteHeader(outBuf, rsuId, ms);
    var pos := HEADER_SIZE;
    if pos + 1 > maxLen {
      return -1, maxLen;
    }
    outBuf[pos] := list.count % 256;
    pos := pos + 1;
    var i := 0;
    while i < list.count && pos + PARTICIPANT_SIZE <= maxLen
      invariant 0 <= i <= list.count && pos == 17 + 20 * i <= maxLen
      invariant IsMessage(before, outBuf[..], ts, i, rsuId, ms)
    {
      ghost var mid := outBuf[..];
      WriteParticipant(outBuf, pos, list.tracks[i]);
      MessageGrows(before, mid, outBuf[..], ts, i, rsuId, ms);
      pos := pos + PARTICIPANT_SIZE;
      i := i + 1;
    }
    return 0, pos;
  }

  lemma MessageGrows(a: seq<Octet>, b: seq<Octet>, c: seq<Octet>, ts: seq<TargetTrack>, n: nat,
                     rsuId: UInt32, ms: UInt64)
    requires n < |ts| && IsMessage(a, b, ts, n, rsuId, ms) && |c| == |b| && 17 + 20 * n + 20 <= |b|
    requires forall k | 0 <= k < 20 :: c[17 + 20 * n + k] == ParticipantCell(Quantise(ts[n]), k).On(b[17 + 20 * n + k])
    requires forall i | 0 <= i < |c| && !(17 + 20 * n <= i < 17 + 20 * n + 20) :: c[i] == b[i]
    ensures IsMessage(a, c, ts, n + 1, rsuId, ms)
  {
    hide HeaderCell, ParticipantCell, Quantise;
    forall i: nat | i < |c| ensures c[i] == MessageCell(ts, n + 1, rsuId, ms, i).On(a[i]) {
      if 17 + 20 * n <= i < 17 + 20 * n + 20 {
        var k := i - (17 + 20 * n);
        assert (i - 17) / 20 == n && (i - 17) % 20 == k;
        assert b[i] == a[i];
      }
    }
  }

  // ---- a decoder

  function Be16(b: seq<Octet>, i: nat): int
    requires i + 2 <= |b|
  {
    b[i] as int * 256 + b[i + 1] as int
  }

  function Be32(b: seq<Octet>, i: nat): int
    requires i + 4 <= |b|
  {
    ((b[i] as int * 256 + b[i + 1] as int) * 256 + b[i + 2] as int) * 256 + b[i + 3] as int
  }

  function Signed32(u: int): int { if u < 0x80000000 then u else u - 0x100000000 }

  function DecodeParticipant(b: seq<Octet>, i: nat): Participant
    requires i + PARTICIPANT_SIZE <= |b|
  {
    Participant(Be16(b, i), b[i + 2], Signed32(Be32(b, i + 4)), Signed32(Be32(b, i + 8)),
                Be16(b, i + 12), Be16(b, i + 14), b[i + 16])
  }

  function DecodeParticipants(b: seq<Octet>, n: nat): (ps: seq<Participant>)
    requires 17 + 20 * n <= |b|
    ensures |ps| == n && forall i | 0 <= i < n :: ps[i] == DecodeParticipant(b, 17 + 20 * i)
  {
    seq(n, i requires 0 <= i < n => DecodeParticipant(b, 17 + 20 * i))
  }

  /** The value of bytes that start with the least significant one. */
  function LittleEndian(b: seq<Octet>): nat {
    if b == [] then 0 else b[0] + 256 * LittleEndian(b[1..])
  }

  function Reversed(b: seq<Octet>): (r: seq<Octet>)
    ensures |r| == |b| && forall i | 0 <= i < |b| :: r[i] == b[|b| - 1 - i]
  {
    seq(|b|, i requires 0 <= i < |b| => b[|b| - 1 - i])
  }

  /** The value of bytes that start with the most significant one. */
  function BigEndian(b: seq<Octet>): nat { LittleEndian(Reversed(b)) }

  datatype Decoded = Malformed | Message(deviceId: int, timestamp: int, participants: seq<Participant>)

  /**
   Reads a message, the timestamp in the order of the host that wrote it; a message whose count byte
   promises more participants than it holds is malformed.
   */
  function Decode(b: seq<Octet>): Decoded {
    if |b| < 17 || b[0] != MAGIC || b[1] != VERSION || b[2] != RSM || |b| < 17 + 20 * (b[16] as int) then Malformed
    else Message(Be32(b, 4), LittleEndian(b[8..16]), DecodeParticipants(b, b[16]))
  }

  // ---- round trips

  lemma BytesOf(v: int)
    ensures ByteOf(v, 0) == v % 256 && ByteOf(v, 1) == v / 256 % 256
    ensures ByteOf(v, 2) == v / 256 / 256 % 256 && ByteOf(v, 3) == v / 256 / 256 / 256 % 256
  {
    assert ByteOf(v, 3) == ByteOf(v / 256, 2) == ByteOf(v / 256 / 256, 1) == ByteOf(v / 256 / 256 / 256, 0);
    assert ByteOf(v, 2) == ByteOf(v / 256, 1) == ByteOf(v / 256 / 256, 0);
  }

  lemma Split16(v: int)
    ensures v / 256 % 256 * 256 + v % 256 == v % 0x10000
  {
    var q, r, s := v / 256 / 256, v / 256 % 256, v % 256;
    assert v == (q * 256 + r) * 256 + s;
    assert v == q * 0x10000 + (r * 256 + s);
  }

  lemma Be16OfBytes(v: int)
    ensures ByteOf(v, 1) as int * 256 + ByteOf(v, 0) as int == v % 0x10000
  {
    hide ByteOf;
    BytesOf(v);
    Split16(v);
  }

  lemma Be32OfBytes(v: int)
    ensures v % 0x100000000 ==
            ((ByteOf(v, 3) as int * 256 + ByteOf(v, 2) as int) * 256 + ByteOf(v, 1) as int) * 256 + ByteOf(v, 0) as int
  {
    hide ByteOf;
    var high := v / 256 / 256;
    BytesOf(v);
    BytesOf(high);
    Be16OfBytes(v);
    Be16OfBytes(high);
    Join32(v, high);
  }

  lemma Join32(v: int, high: int)
    requires high == v / 256 / 256
    ensures v % 0x100000000 == high % 0x10000 * 0x10000 + v % 0x10000
  {
    assert high == v / 0x10000;
    var q, rest := high / 0x10000, high % 0x10000 * 0x10000 + v % 0x10000;
    assert high == q * 0x10000 + high % 0x10000 && v == high * 0x10000 + v % 0x10000;
    assert v == q * 0x100000000 + rest;
    Indices.DivModUnique(v / 0x100000000, v % 0x100000000, q, rest, 0x100000000);
  }

  /** What is read back: each field reduced to its width. */
  function Reduced(p: Participant): Participant {
    Participant(p.id % 0x10000, p.kind % 0x100, Signed32(p.lat % 0x100000000), Signed32(p.lon % 0x100000000),
                p.speed % 0x10000, p.heading % 0x10000, p.confidence % 0x100)
  }

  lemma ParticipantRoundTrip(a: seq<Octet>, w: seq<Octet>, p: Participant)
    requires |a| == |w| == 20 && forall k | 0 <= k < 20 :: w[k] == ParticipantCell(p, k).On(a[k])
    ensures DecodeParticipant(w, 0) == Reduced(p)
  {
    hide ByteOf;
    Be16OfBytes(p.id);
    Be32OfBytes(p.lat);
    Be32OfBytes(p.lon);
    Be16OfBytes(p.speed);
    Be16OfBytes(p.heading);
    LowByte(p.kind);
    LowByte(p.confidence);
  }

  lemma DecodeWindow(b: seq<Octet>, i: nat)
    requires i + 20 <= |b|
    ensures DecodeParticipant(b, i) == DecodeParticipant(b[i..i + 20], 0)
  {
  }

  lemma LowByte(v: int)
    ensures ByteOf(v, 0) == v % 0x100
  {
  }

  /** Participant i of a message reads back as track i. */
  lemma ParticipantAt(a: seq<Octet>, b: seq<Octet>, ts: seq<TargetTrack>, n: nat, rsuId: UInt32, ms: UInt64, i: nat)
    requires i < n <= |ts| && 17 + 20 * n <= |b| && IsMessage(a, b, ts, n, rsuId, ms)
    ensures DecodeParticipant(b, 17 + 20 * i) == Reduced(Quantise(ts[i]))
  {
    hide ByteOf, Quantise, Reduced, DecodeParticipant, HeaderCell, ParticipantCell;
    var at := 17 + 20 * i;
    var o, w := a[at..at + 20], b[at..at + 20];
    forall k | 0 <= k < 20 ensures w[k] == ParticipantCell(Quantise(ts[i]), k).On(o[k]) {
      var j := at + k;
      assert (j - 17) / 20 == i && (j - 17) % 20 == k && w[k] == b[j];
    }
    ParticipantRoundTrip(o, w, Quantise(ts[i]));
    DecodeWindow(b, at);
  }

  /** What a receiver gets of the first n tracks. */
  function OnWire(ts: seq<TargetTrack>, n: nat): (ps: seq<Participant>)
    requires n <= |ts|
    ensures |ps| == n && forall i | 0 <= i < n :: ps[i] == Reduced(Quantise(ts[i]))
  {
    seq(n, i requires 0 <= i < n => Reduced(Quantise(ts[i])))
  }

  /**
   A message of the first n of the tracks decodes to as many of them as its count byte says, in order,
   or is malformed when the count byte promises more than n.
   */
  lemma DecodesWritten(a: seq<Octet>, b: seq<Octet>, ts: seq<TargetTrack>, n: nat, rsuId: UInt32, ms: UInt64)
    requires n <= |ts| && IsMessage(a, b, ts, n, rsuId, ms) && 17 + 20 * n <= |b|
    ensures var c := |ts| % 256;
      Decode(b[..17 + 20 * n]) == if n < c then Malformed else Message(rsuId, ms, OnWire(ts, c))
  {
    hide ByteOf, Quantise, Reduced, DecodeParticipant, ParticipantCell, LittleEndian;
    var m, c := b[..17 + 20 * n], |ts| % 256;
    HeaderBytes(a, b, ts, n, rsuId, ms);
    Be32OfBytes(rsuId);
    TimestampByteOrder(a, b, ts, n, rsuId, ms);
    assert m[8..16] == b[8..16];
    if c <= n {
      forall i | 0 <= i < c ensures DecodeParticipant(m, 17 + 20 * i) == Reduced(Quantise(ts[i])) {
        ParticipantAt(a, b, ts, n, rsuId, ms, i);
        DecodeWindow(b, 17 + 20 * i);
        DecodeWindow(m, 17 + 20 * i);
        assert m[17 + 20 * i..17 + 20 * i + 20] == b[17 + 20 * i..17 + 20 * i + 20];
      }
      assert DecodeParticipants(m, c) == OnWire(ts, c);
    }
  }

  /** A message that holds all of at most 255 tracks decodes to the sender, the time and every track, in order. */
  lemma MessageRoundTrip(a: seq<Octet>, b: seq<Octet>, ts: seq<TargetTrack>, rsuId: UInt32, ms: UInt64)
    requires IsMessage(a, b, ts, |ts|, rsuId, ms) && |ts| <= 255 && 17 + 20 * |ts| <= |b|
    ensures Decode(b[..17 + 20 * |ts|]) == Message(rsuId, ms, OnWire(ts, |ts|))
  {
    hide Decode, OnWire;
    DecodesWritten(a, b, ts, |ts|, rsuId, ms);
  }

  lemma HeaderBytes(a: seq<Octet>, b: seq<Octet>, ts: seq<TargetTrack>, n: nat, rsuId: UInt32, ms: UInt64)
    requires n <= |ts| && IsMessage(a, b, ts, n, rsuId, ms) && 17 <= |b|
    ensures b[0] == 0x56 && b[1] == 0x01 && b[2] == 0x01 && b[16] == |ts| % 256
    ensures b[4] == ByteOf(rsuId, 3) && b[5] == ByteOf(rsuId, 2) && b[6] == ByteOf(rsuId, 1) && b[7] == ByteOf(rsuId, 0)
    ensures forall k | 0 <= k < 8 :: b[8 + k] == ByteOf(ms, k)
  {
    hide ByteOf, ParticipantCell;
  }

  /** The whole message of one track, byte by byte; the fourth byte and four more are padding. */
  lemma MessageExample(a: seq<Octet>, b: seq<Octet>)
    requires |a| == |b| == 37
    requires IsMessage(a, b, [ExampleTrack()], 1, 0xABCD, 0x0102_0304)
    ensures b[..17] == [0x56, 0x01, 0x01, a[3], 0x00, 0x00, 0xAB, 0xCD,
                        0x04, 0x03, 0x02, 0x01, 0x00, 0x00, 0x00, 0x00, 0x01]
    ensures b[17..] == [0x01, 0x02, 0x02, a[20], 0x17, 0x3E, 0xED, 0x80, 0x45, 0x24, 0x32, 0x00, 0x01, 0xF4, 0x1C, 0x20,
                        0xB4, a[34], a[35], a[36]]
  {
    hide IsMessage, ExampleTrack;
    ExampleHead(a, b);
    ExampleRest(a, b);
    ExampleCells(a[17..], b[17..]);
  }

  lemma ExampleHead(a: seq<Octet>, b: seq<Octet>)
    requires |a| == |b| == 37
    requires IsMessage(a, b, [ExampleTrack()], 1, 0xABCD, 0x0102_0304)
    ensures b[..17] == [0x56, 0x01, 0x01, a[3], 0x00, 0x00, 0xAB, 0xCD,
                        0x04, 0x03, 0x02, 0x01, 0x00, 0x00, 0x00, 0x00, 0x01]
  {
    hide ByteOf, IsMessage, ExampleTrack;
    HeaderBytes(a, b, [ExampleTrack()], 1, 0xABCD, 0x0102_0304);
    PaddingByte(a, b, [ExampleTrack()]);
    ExampleHeader();
    assert b[8 + 0] == 0x04 && b[8 + 1] == 0x03 && b[8 + 2] == 0x02 && b[8 + 3] == 0x01;
    assert b[8 + 4] == 0x00 && b[8 + 5] == 0x00 && b[8 + 6] == 0x00 && b[8 + 7] == 0x00;
  }

  lemma ExampleRest(a: seq<Octet>, b: seq<Octet>)
    requires |a| == |b| == 37
    requires IsMessage(a, b, [ExampleTrack()], 1, 0xABCD, 0x0102_0304)
    ensures forall k: nat | k < 20 :: b[17..][k] == ParticipantCell(Quantise(ExampleTrack()), k).On(a[17..][k])
  {
    hide ByteOf, Quantise, HeaderCell, ParticipantCell, ExampleTrack;
    forall k: nat | k < 20 ensures b[17..][k] == ParticipantCell(Quantise(ExampleTrack()), k).On(a[17..][k]) {
      assert (17 + k - 17) / 20 == 0 && (17 + k - 17) % 20 == k && b[17..][k] == b[17 + k];
    }
  }

  function ExampleTrack(): TargetTrack { TargetTrack(258, Pedestrian, 116.0, 39.0, 10.0, 90.0, 0.9, 0.0) }

  /** The wire integers of a pedestrian at 39 degrees north and 116 degrees east. */
  lemma ExampleQuantised()
    ensures Quantise(ExampleTrack()) == Participant(258, 2, 390000000, 1160000000, 500, 7200, 180)
  {
  }

  lemma PaddingByte(a: seq<Octet>, b: seq<Octet>, ts: seq<TargetTrack>)
    requires |a| == |b| == 37 && |ts| == 1 && IsMessage(a, b, ts, 1, 0xABCD, 0x0102_0304)
    ensures b[3] == a[3]
  {
    hide ByteOf, ParticipantCell;
  }

  lemma ExampleHeader()
    ensures ByteOf(0xABCD, 3) == 0x00 && ByteOf(0xABCD, 2) == 0x00
    ensures ByteOf(0xABCD, 1) == 0xAB && ByteOf(0xABCD, 0) == 0xCD
    ensures ByteOf(0x0102_0304, 0) == 0x04 && ByteOf(0x0102_0304, 1) == 0x03 && ByteOf(0x0102_0304, 2) == 0x02
    ensures ByteOf(0x0102_0304, 3) == 0x01 && ByteOf(0x0102_0304, 4) == ByteOf(0x0102_0304, 5) == 0x00
    ensures ByteOf(0x0102_0304, 6) == ByteOf(0x0102_0304, 7) == 0x00
  {
    hide ByteOf;
    BytesOf(0xABCD);
    BytesOf(0x0102_0304);
    HighBytes(0x0102_0304);
  }

  /** Nothing is left above the fourth byte of a 32-bit value. */
  lemma HighBytes(v: UInt32)
    ensures forall k: nat | 4 <= k < 8 :: ByteOf(v, k) == 0
  {
    forall k: nat | 4 <= k < 8 ensures ByteOf(v, k) == 0 {
      ZeroBytes(k - 4);
      assert ByteOf(v, k) == ByteOf(v / 256, k - 1) == ByteOf(v / 256 / 256, k - 2)
          == ByteOf(v / 256 / 256 / 256, k - 3) == ByteOf(v / 256 / 256 / 256 / 256, k - 4);
    }
  }

  lemma ExampleBytes()
    ensures Quantise(ExampleTrack()) == Participant(258, 2, 390000000, 1160000000, 500, 7200, 180)
    ensures ByteOf(258, 1) == 0x01 && ByteOf(258, 0) == 0x02 && ByteOf(2, 0) == 0x02
    ensures ByteOf(390000000, 3) == 0x17 && ByteOf(390000000, 2) == 0x3E
    ensures ByteOf(390000000, 1) == 0xED && ByteOf(390000000, 0) == 0x80
    ensures ByteOf(1160000000, 3) == 0x45 && ByteOf(1160000000, 2) == 0x24
    ensures ByteOf(1160000000, 1) == 0x32 && ByteOf(1160000000, 0) == 0x00
    ensures ByteOf(500, 1) == 0x01 && ByteOf(500, 0) == 0xF4 && ByteOf(7200, 1) == 0x1C && ByteOf(7200, 0) == 0x20
    ensures ByteOf(180, 0) == 0xB4
  {
    hide ByteOf;
    ExampleQuantised();
    BytesIs(258, 0x00, 0x00, 0x01, 0x02);
    BytesIs(2, 0x00, 0x00, 0x00, 0x02);
    BytesIs(390000000, 0x17, 0x3E, 0xED, 0x80);
    BytesIs(1160000000, 0x45, 0x24, 0x32, 0x00);
    BytesIs(500, 0x00, 0x00, 0x01, 0xF4);
    BytesIs(7200, 0x00, 0x00, 0x1C, 0x20);
    BytesIs(180, 0x00, 0x00, 0x00, 0xB4);
  }

  /** The four bytes of a value that is put together from them. */
  lemma BytesIs(v: int, a: Octet, b: Octet, c: Octet, d: Octet)
    requires v == ((a as int * 256 + b as int) * 256 + c as int) * 256 + d as int
    ensures ByteOf(v, 3) == a && ByteOf(v, 2) == b && ByteOf(v, 1) == c && ByteOf(v, 0) == d
  {
    hide ByteOf;
    BytesOf(v);
  }

  lemma ExampleCells(a: seq<Octet>, w: seq<Octet>)
    requires |a| == |w| == 20
    requires forall k: nat | k < 20 :: w[k] == ParticipantCell(Quantise(ExampleTrack()), k).On(a[k])
    ensures w == [0x01, 0x02, 0x02, a[3], 0x17, 0x3E, 0xED, 0x80, 0x45, 0x24, 0x32, 0x00, 0x01, 0xF4, 0x1C, 0x20, 0xB4,
                  a[17], a[18], a[19]]
  {
    hide ByteOf, Quantise;
    ExampleBytes();
  }

  // ---- the order of the bytes of the timestamp

  /** 256 to the n. */
  function Weight(n: nat): nat { if n == 0 then 1 else 256 * Weight(n - 1) }

  lemma {:induction false} LittleOfBytes(v: nat, b: seq<Octet>)
    requires v < Weight(|b|) && forall k | 0 <= k < |b| :: b[k] == ByteOf(v, k)
    ensures LittleEndian(b) == v
    decreases |b|
  {
    if b == [] {
    } else {
      assert b[0] == v % 256;
      forall k | 0 <= k < |b[1..]| ensures b[1..][k] == ByteOf(v / 256, k) {
        assert b[1..][k] == b[k + 1] == ByteOf(v, k + 1);
      }
      LittleOfBytes(v / 256, b[1..]);
    }
  }

  /** Bytes are determined by their value. */
  lemma {:induction false} LittleEndianInjective(a: seq<Octet>, b: seq<Octet>)
    requires |a| == |b| && LittleEndian(a) == LittleEndian(b)
    ensures a == b
    decreases |a|
  {
    if a == [] {
    } else {
      assert a[0] == LittleEndian(a) % 256 && b[0] == LittleEndian(b) % 256;
      LittleEndianInjective(a[1..], b[1..]);
      assert a == [a[0]] + a[1..] && b == [b[0]] + b[1..];
    }
  }

  lemma EightBytes()
    ensures Weight(8) == 0x1_0000_0000_0000_0000
  {
    assert Weight(4) == 0x1_0000_0000;
    assert Weight(8) == 256 * 256 * 256 * 256 * Weight(4);
  }

  /**
   The timestamp of a message is least significant byte first, unlike its other fields. Read in
   network order it is the time exactly when its eight bytes are the same in both directions.
   */
  lemma TimestampByteOrder(a: seq<Octet>, b: seq<Octet>, ts: seq<TargetTrack>, n: nat, rsuId: UInt32, ms: UInt64)
    requires n <= |ts| && IsMessage(a, b, ts, n, rsuId, ms) && 17 <= |b|
    ensures LittleEndian(b[8..16]) == ms
    ensures BigEndian(b[8..16]) == ms <==> forall k | 0 <= k < 8 :: ByteOf(ms, k) == ByteOf(ms, 7 - k)
  {
    hide ByteOf, LittleEndian, Weight;
    var time := b[8..16];
    HeaderBytes(a, b, ts, n, rsuId, ms);
    EightBytes();
    assert forall k | 0 <= k < 8 :: time[k] == b[8 + k];
    LittleOfBytes(ms, time);
    if BigEndian(time) == ms {
      LittleEndianInjective(Reversed(time), time);
    }
    if forall k | 0 <= k < 8 :: ByteOf(ms, k) == ByteOf(ms, 7 - k) {
      assert Reversed(time) == time;
    }
  }

  /** One millisecond, read in network order, is 2 to the 56 of them. */
  lemma ByteOrderExample(a: seq<Octet>, b: seq<Octet>, ts: seq<TargetTrack>, n: nat, rsuId: UInt32)
    requires n <= |ts| && IsMessage(a, b, ts, n, rsuId, 1) && 17 <= |b|
    ensures BigEndian(b[8..16]) == 0x100_0000_0000_0000
  {
    hide ByteOf, LittleEndian, Weight;
    var v := 0x100_0000_0000_0000;
    HeaderBytes(a, b, ts, n, rsuId, 1);
    OneInBytes();
    EightBytes();
    LittleOfBytes(v, Reversed(b[8..16]));
  }

  lemma OneInBytes()
    ensures forall k: nat | k < 8 :: ByteOf(0x100_0000_0000_0000, k) == ByteOf(1, 7 - k)
  {
    assert ByteOf(0x100_0000_0000_0000, 4) == ByteOf(0x100_0000, 0) == 0;
    assert ByteOf(0x100_0000_0000_0000, 5) == ByteOf(0x100_0000, 1) == 0;
    assert ByteOf(0x100_0000_0000_0000, 6) == ByteOf(0x100_0000, 2) == 0;
    assert ByteOf(0x100_0000_0000_0000, 7) == ByteOf(0x100_0000, 3) == 1;
    forall k: nat | 0 < k < 8 ensures ByteOf(1, k) == 0 {
      ZeroBytes(k - 1);
    }
  }

  lemma {:induction false} ZeroBytes(k: nat)
    ensures ByteOf(0, k) == 0
  {
    if k == 0 {
    } else {
      ZeroBytes(k - 1);
    }
  }

  lemma CoordinateNear(x: real)
    requires -214.7483648 <= x <= 214.7483647
    ensures -0.0000001 < x - Signed32(Truncate(x * 10000000.0) % 0x100000000) as real / 10000000.0 < 0.0000001
  {
    hide Truncate;
    var v := Truncate(x * 10000000.0);
    TruncateNear(x * 10000000.0);
    assert -0x80000000 <= v < 0x80000000;
    assert Signed32(v % 0x100000000) == v;
  }

  lemma SpeedNear(x: real)
    requires 0.0 <= x < 1310.72
    ensures 0.0 <= x - (Truncate(x / 0.02) % 0x10000) as real * 0.02 < 0.02
  {
    hide Truncate;
    TruncateNear(x / 0.02);
  }

  lemma HeadingNear(x: real)
    requires 0.0 <= x < 819.2
    ensures 0.0 <= x - (Truncate(x / 0.0125) % 0x10000) as real * 0.0125 < 0.0125
  {
    hide Truncate;
    TruncateNear(x / 0.0125);
  }

  lemma ConfidenceNear(x: real)
    requires 0.0 <= x <= 1.0
    ensures 0.0 <= x - (Truncate(x * 200.0) % 0x100) as real / 200.0 < 0.005
  {
    hide Truncate;
    TruncateNear(x * 200.0);
  }

  /** Each field whose value its wire width can represent comes back within one quantum. */
  lemma WithinOneQuantum(t: TargetTrack)
    ensures var p := Reduced(Quantise(t));
      && (0 <= t.id < 0x10000 ==> p.id == t.id)
      && p.kind == TypeCode(t.kind)
      && (-214.7483648 <= t.latitude <= 214.7483647 ==>
            -0.0000001 < t.latitude - p.lat as real / 10000000.0 < 0.0000001)
      && (-214.7483648 <= t.longitude <= 214.7483647 ==>
            -0.0000001 < t.longitude - p.lon as real / 10000000.0 < 0.0000001)
      && (0.0 <= t.velocity < 1310.72 ==> 0.0 <= t.velocity - p.speed as real * 0.02 < 0.02)
      && (0.0 <= t.heading < 819.2 ==> 0.0 <= t.heading - p.heading as real * 0.0125 < 0.0125)
      && (0.0 <= t.confidence <= 1.0 ==> 0.0 <= t.confidence - p.confidence as real / 200.0 < 0.005)
  {
    hide Truncate, Signed32;
    if -214.7483648 <= t.latitude <= 214.7483647 { CoordinateNear(t.latitude); }
    if -214.7483648 <= t.longitude <= 214.7483647 { CoordinateNear(t.longitude); }
    if 0.0 <= t.velocity < 1310.72 { SpeedNear(t.velocity); }
    if 0.0 <= t.heading < 819.2 { HeadingNear(t.heading); }
    if 0.0 <= t.confidence <= 1.0 { ConfidenceNear(t.confidence); }
  }

  /** The encoded message decodes to all the participants it holds in exactly these cases. */
  lemma CountTruthfulIff(a: seq<Octet>, b: seq<Octet>, ts: seq<TargetTrack>, maxLen: int, rsuId: UInt32, ms: UInt64)
    requires HEADER_SIZE + 1 <= maxLen <= |b| && IsMessage(a, b, ts, Fitting(|ts|, maxLen), rsuId, ms)
    ensures var n := Fitting(|ts|, maxLen);
      Decode(b[..17 + 20 * n]) == Message(rsuId, ms, OnWire(ts, n)) <==>
        (|ts| <= 255 && 17 + 20 * |ts| <= maxLen) || (|ts| > 255 && (maxLen - 17) / 20 == |ts| % 256)
  {
    hide Decode, IsMessage;
    var n := Fitting(|ts|, maxLen);
    DecodesWritten(a, b, ts, n, rsuId, ms);
    assert n == |ts| % 256 <==>
           (|ts| <= 255 && 17 + 20 * |ts| <= maxLen) || (|ts| > 255 && (maxLen - 17) / 20 == |ts| % 256);
  }

  /** Of 103 tracks the buffer of the main loop holds 101, and the count byte says 103. */
  lemma TruncationExample(a: seq<Octet>, b: seq<Octet>, ts: seq<TargetTrack>, rsuId: UInt32, ms: UInt64)
    requires |ts| == 103 && |b| == 2048 && IsMessage(a, b, ts, Fitting(103, 2048), rsuId, ms)
    ensures Fitting(103, 2048) == 101 && b[16] == 103 && Decode(b[..17 + 20 * 101]) == Malformed
  {
    hide Decode, IsMessage;
    HeaderBytes(a, b, ts, 101, rsuId, ms);
    DecodesWritten(a, b, ts, 101, rsuId, ms);
  }
}
