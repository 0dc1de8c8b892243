/** The radar reader: an automaton whose state, buffer and index survive from call to call. */
module RadarReading {
  import opened Bytes
  import opened RadarFrames

  datatype Mode = IdleMode | HeadMode | DataMode | CheckMode

  /** The decoded fields of a frame and the time at which its last byte was read. */
  datatype Detection = Detection(targetId: int, range: real, angle: real, velocity: real, rcs: real, time: real)

  /** Two bytes, the high one first. */
  function Word(hi: Byte, lo: Byte): bv16 { ((hi as bv16) << 8) | (lo as bv16) }

  /** A word as a number of tenths. */
  function Tenths(w: bv16): real { (w as int) as real * 0.1 }

  function Decode(p: seq<Byte>, now: real): Detection
    requires |p| == DATA_LENGTH
  {
    Detection(Word(p[0], p[1]) as int,
              Tenths(Word(p[2], p[3])),
              Tenths(Word(p[4], p[5])) - 180.0,
              Tenths(Word(p[6], p[7])),
              Tenths(Word(p[8], p[9])) - 50.0, now)
  }

  /** A word is its high byte times 256 and its low byte, and tenths of it are tenths. */
  lemma WordValue(hi: Byte, lo: Byte)
    ensures Word(hi, lo) as int == 256 * (hi as int) + lo as int
    ensures 10.0 * Tenths(Word(hi, lo)) == (256 * (hi as int) + lo as int) as real
  {
    assert Word(hi, lo) == (hi as bv16) * 256 + lo as bv16;
  }

  /**
   A frame as it comes over the wire: target 258 at 100.0, angle 0.2, speed 10.0, cross section 1.2. Its
   check byte is the exclusive or of the fourteen bytes before it.
   */
  lemma FrameExample(now: real)
    ensures var p: seq<Byte> := [0x01, 0x02, 0x03, 0xE8, 0x07, 0x0A, 0x00, 0x64, 0x02, 0x00, 0x00, 0x00, 0x00, 0x00];
      && ReadOne(Idle, [0xAA, 0x55] + p + [0x83]) == Reading(Idle, [p], [])
      && Decode(p, now) == Detection(258, 100.0, 0.2, 10.0, 1.2, now)
  {
    hide ReadOne, Xor;
    var p: seq<Byte> := [0x01, 0x02, 0x03, 0xE8, 0x07, 0x0A, 0x00, 0x64, 0x02, 0x00, 0x00, 0x00, 0x00, 0x00];
    ExampleCheck(p);
    assert FrameBytes(p, 0x83) == [0xAA, 0x55] + p + [0x83];
    WholeFrame(p, 0x83);
  }

  lemma ExampleCheck(p: seq<Byte>)
    requires p == [0x01, 0x02, 0x03, 0xE8, 0x07, 0x0A, 0x00, 0x64, 0x02, 0x00, 0x00, 0x00, 0x00, 0x00]
    ensures Xor(p) == 0x83
  {
    hide Xor;
    var a: seq<Byte>, b: seq<Byte> := [0x01, 0x02, 0x03, 0xE8, 0x07], [0x0A, 0x00, 0x64, 0x02, 0x00];
    var c: seq<Byte> := [0x00, 0x00, 0x00, 0x00];
    XorFive(0x01, 0x02, 0x03, 0xE8, 0x07);
    XorFive(0x0A, 0x00, 0x64, 0x02, 0x00);
    XorFive(0x00, 0x00, 0x00, 0x00, 0x00);
    XorConcat(a, b);
    XorConcat(c, [0x00]);
    XorOne(0x00);
    XorConcat(a + b, c);
    assert c + [0x00] == [0x00, 0x00, 0x00, 0x00, 0x00];
    assert p == a + b + c;
  }

  lemma XorFive(a: Byte, b: Byte, c: Byte, d: Byte, e: Byte)
    ensures Xor([a, b, c, d, e]) == a ^ b ^ c ^ d ^ e
  {
    hide Xor;
    XorOne(a);
    XorNext([a], b);
    XorNext([a, b], c);
    XorNext([a, b, c], d);
    XorNext([a, b, c, d], e);
    assert [a] + [b] == [a, b] && [a, b] + [c] == [a, b, c] && [a, b, c] + [d] == [a, b, c, d];
    assert [a, b, c, d] + [e] == [a, b, c, d, e];
  }

  lemma XorNext(s: seq<Byte>, b: Byte)
    ensures Xor(s + [b]) == Xor(s) ^ b
  {
    hide Xor;
    XorConcat(s, [b]);
    XorOne(b);
  }

  lemma WholeFrame(p: seq<Byte>, check: Byte)
    requires |p| == DATA_LENGTH && check == Xor(p)
    ensures ReadOne(Idle, FrameBytes(p, check)) == Reading(Idle, [p], [])
  {
    hide ReadOne, Feed, Xor;
    var bs := FrameBytes(p, check);
    FeedFrame(p, check);
    FoundFirst(Idle, bs);
    assert bs[..16] == [HEAD1, HEAD2] + p;
    TooShort(bs[..16], 0);
    FeedIsParse(bs[..16], 0);
    OnlyAtEnd(Idle, bs);
  }

  /** The payload that carries five words, high bytes first, and four bytes that are not used. */
  function Payload(id: bv16, range: bv16, angle: bv16, velocity: bv16, rcs: bv16, spare: seq<Byte>): (p: seq<Byte>)
    requires |spare| == 4
    ensures |p| == DATA_LENGTH
  {
    Bytes2(id) + Bytes2(range) + Bytes2(angle) + Bytes2(velocity) + Bytes2(rcs) + spare
  }

  function Bytes2(w: bv16): (b: seq<Byte>)
    ensures |b| == 2 && Word(b[0], b[1]) == w
  {
    [(w >> 8) as Byte, (w & 0xFF) as Byte]
  }

  /** Decoding a payload gives back the words it carries, scaled. */
  lemma DecodePayload(id: bv16, range: bv16, angle: bv16, velocity: bv16, rcs: bv16, spare: seq<Byte>, now: real)
    requires |spare| == 4
    ensures Decode(Payload(id, range, angle, velocity, rcs, spare), now) ==
            Detection(id as int, Tenths(range), Tenths(angle) - 180.0, Tenths(velocity), Tenths(rcs) - 50.0, now)
  {
    hide Word, Bytes2, Tenths;
  }

  /** The serial device: the bytes not read yet. */
  class SerialPort {
    var pending: seq<Byte>

    constructor ()
      ensures pending == []
    {
      pending := [];
    }

    method Read() returns (got: bool, ch: Byte)
      modifies this
      ensures got == (old(pending) != [])
      ensures got ==> ch == old(pending)[0] && pending == old(pending)[1..]
      ensures !got ==> pending == []
    {
      if pending == [] {
        return false, 0;
      }
      ch := pending[0];
      pending := pending[1..];
      return true, ch;
    }
  }

  /**
   The static state of the reading function. There is one, however many processors read: a call names
   the device of its processor and goes on where the last call of any of them stopped.
   */
  class RadarReader {
    var mode: Mode
    const frameBuf: array<Byte>
    var frameIdx: nat

    ghost predicate Valid()
      reads this, frameBuf
    {
      && frameBuf.Length == 16 && frameIdx <= DATA_LENGTH
      && (mode == DataMode ==> frameIdx < DATA_LENGTH)
      && (mode == CheckMode ==> frameIdx == DATA_LENGTH)
    }

    ghost function Value(): (s: State)
      requires Valid()
      reads this, frameBuf
      ensures s.Wf()
    {
      match mode
      case IdleMode => Idle
      case HeadMode => Head1
      case DataMode => Data(frameBuf[..frameIdx])
      case CheckMode => Check(frameBuf[..frameIdx])
    }

    constructor ()
      ensures Valid() && Value() == Idle && fresh(frameBuf)
    {
      mode := IdleMode;
      frameBuf := new Byte[16](_ => 0);
      frameIdx := 0;
    }

    /** The exclusive or of the data bytes. */
    method Checksum() returns (x: Byte)
      requires Valid()
      ensures x == Xor(frameBuf[..DATA_LENGTH])
    {
      x := 0;
      for i := 0 to DATA_LENGTH
        invariant x == Xor(frameBuf[..i])
      {
        assert frameBuf[..i + 1][..i] == frameBuf[..i];
        x := x ^ frameBuf[i];
      }
    }

    /** One byte of the automaton, read at the time now; done says that it completed a frame. */
    method Consume(ch: Byte, now: real) returns (done: bool, d: Detection)
      requires Valid()
      modifies this, frameBuf
      ensures Valid()
      ensures Value() == Step(old(Value()), ch).0
      ensures done == (Step(old(Value()), ch).1 != [])
      ensures done ==> d == Decode(Step(old(Value()), ch).1[0], now)
    {
      hide Xor, Decode;
      done, d := false, Detection(0, 0.0, 0.0, 0.0, 0.0, 0.0);
      match mode {
        case IdleMode =>
          if ch == HEAD1 {
            mode := HeadMode;
          }
        case HeadMode =>
          if ch == HEAD2 {
            mode := DataMode;
            frameIdx := 0;
          } else {
            mode := IdleMode;
          }
        case DataMode =>
          ghost var buf := frameBuf[..frameIdx];
          frameBuf[frameIdx] := ch;
          frameIdx := frameIdx + 1;
          assert frameBuf[..frameIdx] == buf + [ch];
          if frameIdx >= DATA_LENGTH {
            mode := CheckMode;
          }
        case CheckMode =>
          var sum := Checksum();
          if ch == sum {
            d := DecodeBuffer(now);
            done := true;
          }
          mode := IdleMode;
      }
    }

    method DecodeBuffer(now: real) returns (d: Detection)
      requires Valid()
      ensures d == Decode(frameBuf[..DATA_LENGTH], now)
    {
      hide Word, Tenths;
      d := Detection(Word(frameBuf[0], frameBuf[1]) as int,
                     Tenths(Word(frameBuf[2], frameBuf[3])),
                     Tenths(Word(frameBuf[4], frameBuf[5])) - 180.0,
                     Tenths(Word(frameBuf[6], frameBuf[7])),
                     Tenths(Word(frameBuf[8], frameBuf[9])) - 50.0, now);
    }

    /**
     One call: reads until a frame is complete, at the time now, or no byte is pending; a closed device
     is refused.
     */
    method ReadData(port: SerialPort, open: bool, now: real) returns (rc: int, d: Detection)
      requires Valid()
      modifies this, frameBuf, port
      ensures Valid()
      ensures !open ==> rc == -1 && Value() == old(Value()) && port.pending == old(port.pending)
      ensures open ==>
        var r := ReadOne(old(Value()), old(port.pending));
        && Value() == r.state && port.pending == r.rest
        && rc == (if r.found == [] then -1 else 0)
        && (r.found != [] ==> |r.found[0]| == DATA_LENGTH && d == Decode(r.found[0], now))
    {
      hide Decode, Step;
      d := Detection(0, 0.0, 0.0, 0.0, 0.0, 0.0);
      if !open {
        return -1, d;
      }
      ghost var goal := ReadOne(Value(), port.pending);
      var got, ch := true, 0;
      while got
        invariant Valid()
        invariant ReadOne(Value(), port.pending) == goal
        invariant !got ==> port.pending == []
        decreases |port.pending|, got
      {
        ghost var s, bs := Value(), port.pending;
        got, ch := port.Read();
        if got {
          StepPayload(s, ch);
          var done, e := Consume(ch, now);
          if done {
            return 0, e;
          }
        }
      }
      return -1, d;
    }
  }

  lemma StepPayload(s: State, ch: Byte)
    requires s.Wf()
    ensures var out := Step(s, ch).1; |out| <= 1 && (out != [] ==> |out[0]| == DATA_LENGTH)
  {
  }
}
