/**
 The radar frame automaton as a function on byte streams, and an independent reading of a stream:
 frames are 0xAA 0x55, 14 data bytes and the exclusive or of the data bytes.
 */
module RadarFrames {
  import opened Bytes

  const HEAD1: Byte := 0xAA
  const HEAD2: Byte := 0x55
  const DATA_LENGTH := 14
  const FRAME_LENGTH := 17

  datatype State = Idle | Head1 | Data(buf: seq<Byte>) | Check(buf: seq<Byte>) {
    /** The states the parser can be in. */
    predicate Wf() {
      match this
      case Idle => true
      case Head1 => true
      case Data(buf) => |buf| < DATA_LENGTH
      case Check(buf) => |buf| == DATA_LENGTH
    }
  }

  function Xor(bs: seq<Byte>): Byte {
    if bs == [] then 0 else Xor(bs[..|bs| - 1]) ^ bs[|bs| - 1]
  }

  lemma XorOne(b: Byte)
    ensures Xor([b]) == b
  {
    assert [b][..0] == [];
  }

  lemma {:induction false} XorConcat(a: seq<Byte>, b: seq<Byte>)
    ensures Xor(a + b) == Xor(a) ^ Xor(b)
  {
    if b == [] {
      assert a + b == a;
    } else {
      var n := |b| - 1;
      assert (a + b)[..|a + b| - 1] == a + b[..n];
      XorConcat(a, b[..n]);
      XorAssoc(Xor(a), Xor(b[..n]), b[n]);
    }
  }

  lemma XorAssoc(x: Byte, y: Byte, z: Byte)
    ensures (x ^ y) ^ z == x ^ (y ^ z)
  {
  }

  /** One byte; the second component is the payload of a completed frame, if any. */
  function Step(s: State, ch: Byte): (r: (State, seq<seq<Byte>>))
    requires s.Wf()
    ensures r.0.Wf()
  {
    match s
    case Idle => (if ch == HEAD1 then Head1 else Idle, [])
    case Head1 => (if ch == HEAD2 then Data([]) else Idle, [])
    case Data(buf) => (if |buf| + 1 >= DATA_LENGTH then Check(buf + [ch]) else Data(buf + [ch]), [])
    case Check(buf) => (Idle, if ch == Xor(buf) then [buf] else [])
  }

  /** A whole stream: the state reached and the payloads recognised, in order. */
  function Feed(s: State, bs: seq<Byte>): (r: (State, seq<seq<Byte>>))
    requires s.Wf()
    ensures r.0.Wf()
    decreases |bs|
  {
    if bs == [] then (s, [])
    else
      var (t, out) := Step(s, bs[0]);
      var (u, more) := Feed(t, bs[1..]);
      (u, out + more)
  }

  lemma {:induction false} FeedConcat(s: State, a: seq<Byte>, b: seq<Byte>)
    requires s.Wf()
    ensures var (t, x) := Feed(s, a);
            var (u, y) := Feed(t, b);
            Feed(s, a + b) == (u, x + y)
    decreases |a|
  {
    if a == [] {
      assert a + b == b;
      assert [] + Feed(s, b).1 == Feed(s, b).1;
    } else {
      assert (a + b)[1..] == a[1..] + b;
      var (t, out) := Step(s, a[0]);
      FeedConcat(t, a[1..], b);
      var (u, more) := Feed(t, a[1..]);
      assert out + (more + Feed(u, b).1) == (out + more) + Feed(u, b).1;
    }
  }

  lemma FeedOne(s: State, ch: Byte)
    requires s.Wf()
    ensures Feed(s, [ch]) == Step(s, ch)
  {
    var (t, out) := Step(s, ch);
    assert [ch][1..] == [];
    assert out + [] == out;
  }

  /** A byte that completes nothing. */
  lemma {:induction false} FeedSilent(s: State, bs: seq<Byte>)
    requires s.Wf() && bs != [] && Step(s, bs[0]).1 == []
    ensures Feed(s, bs) == Feed(Step(s, bs[0]).0, bs[1..])
  {
    hide Step;
    var (t, out) := Step(s, bs[0]);
    var (u, more) := Feed(t, bs[1..]);
    assert out + more == more;
    assert Feed(s, bs) == (u, out + more);
  }

  /** Data bytes collect until the buffer holds fourteen. */
  lemma {:induction false} FeedData(buf: seq<Byte>, d: seq<Byte>)
    requires |buf| < DATA_LENGTH && |buf| + |d| <= DATA_LENGTH
    ensures Feed(Data(buf), d) == (if |buf| + |d| < DATA_LENGTH then Data(buf + d) else Check(buf + d), [])
    decreases |d|
  {
    if d == [] {
      assert buf + d == buf;
    } else if |buf| + 1 < DATA_LENGTH {
      FeedData(buf + [d[0]], d[1..]);
      assert buf + [d[0]] + d[1..] == buf + d;
      FeedSilent(Data(buf), d);
    } else {
      assert d == [d[0]];
      FeedOne(Data(buf), d[0]);
    }
  }

  // ---- the independent reading of a stream

  datatype Frame = Frame(at: nat, payload: seq<Byte>)

  /**
   Reads a stream from the idle state without an automaton: skip to a header byte; a second byte
   other than 0x55 is skipped with it; otherwise seventeen bytes are taken, and kept if the check byte agrees.
   */
  function Parse(bs: seq<Byte>, at: nat): (fs: seq<Frame>)
    decreases |bs|
  {
    if bs == [] then []
    else if bs[0] != HEAD1 then Parse(bs[1..], at + 1)
    else if |bs| < 2 then []
    else if bs[1] != HEAD2 then Parse(bs[2..], at + 2)
    else if |bs| < FRAME_LENGTH then []
    else
      (if bs[16] == Xor(bs[2..16]) then [Frame(at, bs[2..16])] else []) + Parse(bs[17..], at + 17)
  }

  function Payloads(fs: seq<Frame>): (ps: seq<seq<Byte>>)
    ensures |ps| == |fs| && forall i | 0 <= i < |fs| :: ps[i] == fs[i].payload
  {
    seq(|fs|, i requires 0 <= i < |fs| => fs[i].payload)
  }

  lemma FeedWindow(bs: seq<Byte>)
    requires |bs| >= FRAME_LENGTH && bs[0] == HEAD1 && bs[1] == HEAD2
    ensures Feed(Idle, bs[..17]) == (Idle, if bs[16] == Xor(bs[2..16]) then [bs[2..16]] else [])
  {
    hide Feed, Xor;
    assert bs[..17] == [bs[0]] + ([bs[1]] + (bs[2..16] + [bs[16]]));
    FeedOne(Idle, bs[0]);
    FeedOne(Head1, bs[1]);
    FeedData([], bs[2..16]);
    assert [] + bs[2..16] == bs[2..16];
    FeedOne(Check(bs[2..16]), bs[16]);
    FeedConcat(Data([]), bs[2..16], [bs[16]]);
    var out := if bs[16] == Xor(bs[2..16]) then [bs[2..16]] else [];
    assert [] + out == out;
    FeedConcat(Head1, [bs[1]], bs[2..16] + [bs[16]]);
    FeedConcat(Idle, [bs[0]], [bs[1]] + (bs[2..16] + [bs[16]]));
  }

  /** A stream shorter than a frame that starts with a header emits nothing. */
  lemma FeedIncomplete(bs: seq<Byte>)
    requires 2 <= |bs| < FRAME_LENGTH && bs[0] == HEAD1 && bs[1] == HEAD2
    ensures Feed(Idle, bs).1 == []
  {
    hide Feed, Xor;
    assert bs == [bs[0]] + ([bs[1]] + bs[2..]);
    FeedOne(Idle, bs[0]);
    FeedOne(Head1, bs[1]);
    FeedData([], bs[2..]);
    FeedConcat(Head1, [bs[1]], bs[2..]);
    FeedConcat(Idle, [bs[0]], [bs[1]] + bs[2..]);
  }

  /** The byte-driven automaton recognises exactly what the reading of the stream contains. */
  lemma {:induction false} FeedIsParse(bs: seq<Byte>, at: nat)
    ensures Feed(Idle, bs).1 == Payloads(Parse(bs, at))
    decreases |bs|
  {
    hide Xor;
    if bs == [] {
    } else if bs[0] != HEAD1 {
      FeedIsParse(bs[1..], at + 1);
      assert [] + Feed(Idle, bs[1..]).1 == Feed(Idle, bs[1..]).1;
    } else if |bs| < 2 {
      assert bs == [bs[0]];
      FeedOne(Idle, bs[0]);
    } else if bs[1] != HEAD2 {
      FeedIsParse(bs[2..], at + 2);
      assert bs == [bs[0]] + ([bs[1]] + bs[2..]);
      FeedOne(Idle, bs[0]);
      FeedOne(Head1, bs[1]);
      FeedConcat(Head1, [bs[1]], bs[2..]);
      FeedConcat(Idle, [bs[0]], [bs[1]] + bs[2..]);
    } else if |bs| < FRAME_LENGTH {
      FeedIncomplete(bs);
    } else {
      FeedWindow(bs);
      FeedIsParse(bs[17..], at + 17);
      assert bs == bs[..17] + bs[17..];
      FeedConcat(Idle, bs[..17], bs[17..]);
    }
  }

  /** A frame occupies the window of seventeen bytes starting at f.at - origin. */
  predicate InWindow(bs: seq<Byte>, f: Frame, origin: nat) {
    && origin <= f.at && f.at - origin + FRAME_LENGTH <= |bs|
    && var k := f.at - origin;
    && bs[k] == HEAD1 && bs[k + 1] == HEAD2 && bs[k + 2..k + 16] == f.payload && bs[k + 16] == Xor(f.payload)
  }

  /** Every recognised frame is a contiguous well-formed window; the windows are disjoint and in order. */
  lemma {:induction false} ParseSound(bs: seq<Byte>, at: nat)
    ensures forall i | 0 <= i < |Parse(bs, at)| :: InWindow(bs, Parse(bs, at)[i], at)
    ensures forall i, j | 0 <= i < j < |Parse(bs, at)| :: Parse(bs, at)[i].at + FRAME_LENGTH <= Parse(bs, at)[j].at
    decreases |bs|
  {
    hide Xor;
    var fs := Parse(bs, at);
    if bs == [] {
    } else if bs[0] != HEAD1 {
      ParseSound(bs[1..], at + 1);
      assert fs == Parse(bs[1..], at + 1);
      forall i | 0 <= i < |fs| ensures InWindow(bs, fs[i], at) { WindowShift(bs, fs[i], at, 1); }
    } else if |bs| < 2 {
    } else if bs[1] != HEAD2 {
      ParseSound(bs[2..], at + 2);
      assert fs == Parse(bs[2..], at + 2);
      forall i | 0 <= i < |fs| ensures InWindow(bs, fs[i], at) { WindowShift(bs, fs[i], at, 2); }
    } else if |bs| < FRAME_LENGTH {
    } else {
      ParseSound(bs[17..], at + 17);
      var rest := Parse(bs[17..], at + 17);
      forall i | 0 <= i < |rest| ensures InWindow(bs, rest[i], at) { WindowShift(bs, rest[i], at, 17); }
    }
  }

  lemma WindowShift(bs: seq<Byte>, f: Frame, at: nat, n: nat)
    requires n <= |bs| && InWindow(bs[n..], f, at + n)
    ensures InWindow(bs, f, at)
  {
    var k := f.at - at - n;
    assert bs[n..][k + 2..k + 16] == bs[n..][k + 2..][..14];
    assert bs[n + k + 2..n + k + 16] == bs[n..][k + 2..k + 16];
  }

  // ---- what gets through

  function FrameBytes(p: seq<Byte>, check: Byte): seq<Byte> { [HEAD1, HEAD2] + p + [check] }

  datatype Segment =
    | Junk(bytes: seq<Byte>)
    | Sent(payload: seq<Byte>, check: Byte)

  predicate SegmentOk(g: Segment) {
    match g
    case Junk(bs) => HEAD1 !in bs
    case Sent(p, _) => |p| == DATA_LENGTH
  }

  function SegmentBytes(g: Segment): seq<Byte> {
    match g
    case Junk(bs) => bs
    case Sent(p, c) => FrameBytes(p, c)
  }

  function Stream(gs: seq<Segment>): seq<Byte> {
    if gs == [] then [] else SegmentBytes(gs[0]) + Stream(gs[1..])
  }

  /** The payload of a segment that is a correct frame. */
  function Payload(g: Segment): seq<seq<Byte>> { if g.Sent? && g.check == Xor(g.payload) then [g.payload] else [] }

  /** The payloads of the segments whose check byte is right. */
  function Intact(gs: seq<Segment>): seq<seq<Byte>> {
    if gs == [] then [] else Payload(gs[0]) + Intact(gs[1..])
  }

  lemma {:induction false} FeedJunk(bs: seq<Byte>)
    requires HEAD1 !in bs
    ensures Feed(Idle, bs) == (Idle, [])
  {
    if bs == [] {
    } else {
      FeedJunk(bs[1..]);
      FeedSilent(Idle, bs);
    }
  }

  lemma FeedFrame(p: seq<Byte>, check: Byte)
    requires |p| == DATA_LENGTH
    ensures Feed(Idle, FrameBytes(p, check)) == (Idle, if check == Xor(p) then [p] else [])
  {
    hide Feed, Xor;
    var bs := FrameBytes(p, check);
    assert bs[..17] == bs && bs[2..16] == p;
    FeedWindow(bs);
  }

  /** Of frames separated by junk without 0xAA, exactly those with the right check byte are recognised. */
  lemma {:induction false} StreamDecodes(gs: seq<Segment>)
    requires forall i | 0 <= i < |gs| :: SegmentOk(gs[i])
    ensures Feed(Idle, Stream(gs)) == (Idle, Intact(gs))
  {
    hide Feed, Xor, FrameBytes;
    if gs == [] {
      FeedJunk([]);
    } else {
      var g := gs[0];
      assert SegmentOk(g);
      if g.Junk? {
        FeedJunk(g.bytes);
      } else {
        FeedFrame(g.payload, g.check);
      }
      StreamDecodes(gs[1..]);
      FeedConcat(Idle, SegmentBytes(g), Stream(gs[1..]));
    }
  }

  /** Changing one byte changes the exclusive or. */
  lemma {:induction false} XorChanges(p: seq<Byte>, i: nat, b: Byte)
    requires i < |p|
    ensures Xor(p[i := b]) == Xor(p) ^ p[i] ^ b
  {
    var n := |p| - 1;
    if i == n {
      assert p[i := b][..n] == p[..n];
      XorCancel(Xor(p[..n]), p[n], b);
    } else {
      assert p[i := b][..n] == p[..n][i := b];
      XorChanges(p[..n], i, b);
      XorSwap(Xor(p[..n]), p[i], b, p[n]);
    }
  }

  lemma XorCancel(x: Byte, y: Byte, b: Byte)
    ensures x ^ b == x ^ y ^ y ^ b
  {
  }

  lemma XorSwap(x: Byte, y: Byte, b: Byte, z: Byte)
    ensures x ^ y ^ b ^ z == x ^ z ^ y ^ b
  {
  }

  lemma XorDiffers(x: Byte, y: Byte, b: Byte)
    requires y != b
    ensures x ^ y ^ b != x
  {
  }

  /** A correct frame with any one payload or check byte changed is a frame with a wrong check byte. */
  lemma OneByteCorrupted(p: seq<Byte>, k: nat, b: Byte)
    requires |p| == DATA_LENGTH && 2 <= k < FRAME_LENGTH && b != FrameBytes(p, Xor(p))[k]
    ensures var q := if k < 16 then p[k - 2 := b] else p;
            var c := if k < 16 then Xor(p) else b;
            FrameBytes(p, Xor(p))[k := b] == FrameBytes(q, c) && c != Xor(q)
  {
    hide Xor;
    if k < 16 {
      XorChanges(p, k - 2, b);
      XorDiffers(Xor(p), p[k - 2], b);
    }
  }

  lemma {:induction false} StreamConcat(a: seq<Segment>, b: seq<Segment>)
    ensures Stream(a + b) == Stream(a) + Stream(b) && Intact(a + b) == Intact(a) + Intact(b)
  {
    hide Stream, Intact, SegmentBytes, Payload;
    if a == [] {
      NoSegments();
      assert a + b == b;
    } else {
      assert (a + b)[0] == a[0] && (a + b)[1..] == a[1..] + b;
      FirstSegment(a);
      FirstSegment(a + b);
      StreamConcat(a[1..], b);
      assert SegmentBytes(a[0]) + (Stream(a[1..]) + Stream(b)) == SegmentBytes(a[0]) + Stream(a[1..]) + Stream(b);
      assert Payload(a[0]) + (Intact(a[1..]) + Intact(b)) == Payload(a[0]) + Intact(a[1..]) + Intact(b);
    }
  }

  lemma NoSegments()
    ensures Stream([]) == [] && Intact([]) == []
  {
  }

  lemma FirstSegment(gs: seq<Segment>)
    requires gs != []
    ensures Stream(gs) == SegmentBytes(gs[0]) + Stream(gs[1..]) && Intact(gs) == Payload(gs[0]) + Intact(gs[1..])
  {
    hide SegmentBytes, Xor;
  }

  lemma StreamAround(gs: seq<Segment>, i: nat, g: Segment)
    requires i < |gs|
    ensures Stream(gs[i := g]) == Stream(gs[..i]) + SegmentBytes(g) + Stream(gs[i + 1..])
    ensures Intact(gs[i := g]) == Intact(gs[..i]) + Intact([g]) + Intact(gs[i + 1..])
  {
    hide SegmentBytes, Xor, Stream, Intact;
    assert gs[i := g] == gs[..i] + [g] + gs[i + 1..];
    StreamConcat(gs[..i] + [g], gs[i + 1..]);
    StreamConcat(gs[..i], [g]);
    OneSegment(g);
  }

  lemma OneSegment(g: Segment)
    ensures Stream([g]) == SegmentBytes(g)
    ensures Intact([g]) == Payload(g)
  {
    hide Payload, SegmentBytes, Stream, Intact;
    assert [g][1..] == [];
    NoSegments();
    FirstSegment([g]);
  }

  /** Changing one payload or check byte of a correct frame in a stream loses that frame and no other. */
  lemma CorruptionLosesOneFrame(gs: seq<Segment>, i: nat, k: nat, b: Byte)
    requires (forall j | 0 <= j < |gs| :: SegmentOk(gs[j])) && i < |gs| && 2 <= k < FRAME_LENGTH
    requires SegmentOk(gs[i]) && gs[i].Sent? && gs[i].check == Xor(gs[i].payload)
    requires b != FrameBytes(gs[i].payload, gs[i].check)[k]
    ensures var at := |Stream(gs[..i])| + k;
      && at < |Stream(gs)|
      && Feed(Idle, Stream(gs)) == (Idle, Intact(gs[..i]) + [gs[i].payload] + Intact(gs[i + 1..]))
      && Feed(Idle, Stream(gs)[at := b]) == (Idle, Intact(gs[..i]) + Intact(gs[i + 1..]))
  {
    hide Feed, Xor, Stream, Intact;
    var p, before, after := gs[i].payload, Stream(gs[..i]), Stream(gs[i + 1..]);
    var bad := Sent(if k < 16 then p[k - 2 := b] else p, if k < 16 then Xor(p) else b);
    OneByteCorrupted(p, k, b);
    assert SegmentOk(gs[i]);
    assert gs[i := gs[i]] == gs;
    StreamAround(gs, i, gs[i]);
    OneSegment(gs[i]);
    StreamDecodes(gs);
    StreamAround(gs, i, bad);
    OneSegment(bad);
    StreamDecodes(gs[i := bad]);
    var frame := SegmentBytes(gs[i]);
    assert (before + frame + after)[|before| + k := b] == before + frame[k := b] + after;
    assert Intact(gs[..i]) + [] == Intact(gs[..i]);
  }

  // ---- resynchronisation

  /** The most bytes other than 0xAA that can pass before the parser is idle. */
  function Distance(s: State): nat
    requires s.Wf()
  {
    match s
    case Idle => 0
    case Head1 => 16
    case Data(buf) => 15 - |buf|
    case Check(_) => 1
  }

  lemma {:induction false} Resynchronises(s: State, bs: seq<Byte>)
    requires s.Wf() && HEAD1 !in bs && |bs| >= Distance(s)
    ensures Feed(s, bs).0 == Idle
    decreases |bs|
  {
    if bs == [] {
    } else {
      Resynchronises(Step(s, bs[0]).0, bs[1..]);
    }
  }

  /** From every state sixteen bytes other than 0xAA bring the parser back to idle; fifteen are not always enough. */
  lemma SixteenBytesResynchronise(s: State, bs: seq<Byte>)
    requires s.Wf() && HEAD1 !in bs && |bs| == 16
    ensures Feed(s, bs).0 == Idle
    ensures Feed(Head1, [HEAD2] + seq(14, _ => 0)).0 != Idle
  {
    hide Feed;
    Resynchronises(s, bs);
    FeedOne(Head1, HEAD2);
    FeedData([], seq(14, _ => 0));
    FeedConcat(Head1, [HEAD2], seq(14, _ => 0));
  }

  // ---- exactly when a frame is recognised

  /** A state that has collected at least |bs| data bytes collected them from bs. */
  lemma {:induction false} CollectedFrom(s: State, bs: seq<Byte>)
    requires s.Wf()
    ensures var t := Feed(s, bs).0;
            (t.Data? || t.Check?) && |t.buf| >= |bs| && bs != [] ==>
              s.Data? && t.buf == s.buf + bs
    decreases |bs|
  {
    if bs == [] {
    } else {
      var n := |bs| - 1;
      var front := bs[..n];
      assert bs == front + [bs[n]];
      FeedConcat(s, front, [bs[n]]);
      FeedOne(Feed(s, front).0, bs[n]);
      CollectedFrom(s, front);
      if n == 0 {
        assert front == [];
      }
    }
  }

  lemma AfterHeader(s: State)
    requires s.Wf()
    ensures Feed(s, [HEAD1, HEAD2]).0 == Data([]) <==> s == Idle
  {
    assert [HEAD1, HEAD2] == [HEAD1] + [HEAD2];
    FeedConcat(s, [HEAD1], [HEAD2]);
    FeedOne(s, HEAD1);
    FeedOne(Step(s, HEAD1).0, HEAD2);
  }

  /**
   The last byte of a correct frame completes a detection exactly when the parser is idle at its
   first byte; so a stray 0xAA before a frame loses it.
   */
  lemma FrameRecognisedIff(s: State, p: seq<Byte>)
    requires s.Wf() && |p| == DATA_LENGTH
    ensures var t := Feed(s, [HEAD1, HEAD2] + p).0;
            Step(t, Xor(p)).1 != [] <==> s == Idle
    ensures s == Idle ==> Step(Feed(s, [HEAD1, HEAD2] + p).0, Xor(p)).1 == [p]
  {
    hide Feed, Xor;
    var head := [HEAD1, HEAD2];
    FeedConcat(s, head, p);
    AfterHeader(s);
    var u := Feed(s, head).0;
    CollectedFrom(u, p);
    if s == Idle {
      FeedData([], p);
      assert [] + p == p;
    } else if u.Data? {
      assert u.buf != [];
    }
  }

  lemma StrayHeaderLosesFrame(junk: seq<Byte>, p: seq<Byte>)
    requires HEAD1 !in junk && |p| == DATA_LENGTH
    ensures Step(Feed(Idle, junk + [HEAD1] + ([HEAD1, HEAD2] + p)).0, Xor(p)).1 == []
  {
    hide Feed, Xor;
    FeedJunk(junk);
    FeedOne(Idle, HEAD1);
    FeedConcat(Idle, junk, [HEAD1]);
    FeedConcat(Idle, junk + [HEAD1], [HEAD1, HEAD2] + p);
    FrameRecognisedIff(Head1, p);
  }

  /** Fewer than seventeen bytes hold no frame. */
  lemma {:induction false} TooShort(bs: seq<Byte>, at: nat)
    requires |bs| < FRAME_LENGTH
    ensures Parse(bs, at) == []
    decreases |bs|
  {
    if bs == [] {
    } else if bs[0] != HEAD1 {
      TooShort(bs[1..], at + 1);
    } else if |bs| >= 2 && bs[1] != HEAD2 {
      TooShort(bs[2..], at + 2);
    }
  }

  // ---- reading in calls

  /** What one call returns: the state, the payload of the first completed frame if any, and the unread bytes. */
  datatype Reading = Reading(state: State, found: seq<seq<Byte>>, rest: seq<Byte>)

  /** One call: bytes are consumed up to the first completed frame, or to the end. */
  function ReadOne(s: State, bs: seq<Byte>): (r: Reading)
    requires s.Wf()
    ensures r.state.Wf() && |r.rest| <= |bs| && |r.found| <= 1
    ensures r.found == [] ==> r.rest == []
    decreases |bs|
  {
    if bs == [] then Reading(s, [], [])
    else
      var (t, out) := Step(s, bs[0]);
      if out != [] then Reading(t, out, bs[1..]) else ReadOne(t, bs[1..])
  }

  /** A call does to the stream what feeding its consumed part does. */
  lemma {:induction false} ReadOneFeeds(s: State, bs: seq<Byte>)
    requires s.Wf()
    ensures var r := ReadOne(s, bs);
            Feed(s, bs) == (Feed(r.state, r.rest).0, r.found + Feed(r.state, r.rest).1)
    decreases |bs|
  {
    hide Xor;
    if bs == [] {
      assert [] + Feed(s, bs).1 == Feed(s, bs).1;
    } else if Step(s, bs[0]).1 == [] {
      FeedSilent(s, bs);
      ReadOneFeeds(Step(s, bs[0]).0, bs[1..]);
    }
  }

  /**
   The parser state belongs to the function and not to a processor, so what one processor has read when
   its call ends decides what the next call makes of another's bytes: a processor that read a lone
   header byte costs another a whole correct frame.
   */
  lemma OtherProcessorLosesFrame(p: seq<Byte>)
    requires |p| == DATA_LENGTH
    ensures ReadOne(Idle, FrameBytes(p, Xor(p))).found == [p]
    ensures ReadOne(ReadOne(Idle, [HEAD1]).state, FrameBytes(p, Xor(p))).found == []
  {
    hide Feed, Xor, ReadOne, FrameBytes;
    var bs := FrameBytes(p, Xor(p));
    FeedFrame(p, Xor(p));
    FoundFirst(Idle, bs);
    LoneHeader();
    FrameAfterHeader(p);
    FoundFirst(Head1, bs);
  }

  lemma LoneHeader()
    ensures ReadOne(Idle, [HEAD1]).state == Head1
  {
    assert [HEAD1][1..] == [];
    assert ReadOne(Head1, []) == Reading(Head1, [], []);
  }

  /** A call finds the first payload of the stream, if there is one. */
  lemma FoundFirst(s: State, bs: seq<Byte>)
    requires s.Wf()
    ensures ReadOne(s, bs).found == if Feed(s, bs).1 == [] then [] else [Feed(s, bs).1[0]]
  {
    hide Step, ReadOne;
    ReadOneFeeds(s, bs);
    var r := ReadOne(s, bs);
    if r.found == [] {
      assert Feed(r.state, []) == (r.state, []);
      assert [] + Feed(r.state, []).1 == [];
    }
  }

  /** When all but the last byte of a stream complete nothing, a call that finds a payload reads it all. */
  lemma {:induction false} OnlyAtEnd(s: State, bs: seq<Byte>)
    requires s.Wf() && bs != [] && Feed(s, bs[..|bs| - 1]).1 == []
    ensures ReadOne(s, bs).rest == [] && ReadOne(s, bs).state == Feed(s, bs).0
    decreases |bs|
  {
    hide Step;
    var (t, out) := Step(s, bs[0]);
    if |bs| == 1 {
      assert bs[1..] == [];
      assert Feed(t, []) == (t, []) && ReadOne(t, []) == Reading(t, [], []);
    } else {
      var front := bs[..|bs| - 1];
      assert front[0] == bs[0] && front[1..] == bs[1..][..|bs[1..]| - 1];
      assert Feed(s, front).1 == out + Feed(t, front[1..]).1;
      assert out == [];
      OnlyAtEnd(t, bs[1..]);
    }
  }

  lemma FrameAfterHeader(p: seq<Byte>)
    requires |p| == DATA_LENGTH
    ensures Feed(Head1, FrameBytes(p, Xor(p))).1 == []
  {
    hide Feed, Xor;
    var bs := FrameBytes(p, Xor(p));
    assert bs == [HEAD1] + bs[1..];
    FeedOne(Head1, HEAD1);
    TooShort(bs[1..], 0);
    FeedIsParse(bs[1..], 0);
    FeedConcat(Head1, [HEAD1], bs[1..]);
  }

  datatype Action = Arrive(bytes: seq<Byte>) | Call

  /** A session: bytes arrive in chunks of any size, and reads are called at any moments. */
  datatype Session = Session(state: State, pending: seq<Byte>, found: seq<seq<Byte>>) {
    predicate Wf() { state.Wf() }

    function Do(a: Action): (r: Session)
      requires Wf()
      ensures r.Wf()
    {
      match a
      case Arrive(bs) => this.(pending := pending + bs)
      case Call => var r := ReadOne(state, pending); Session(r.state, r.rest, found + r.found)
    }

    function Play(acts: seq<Action>): (r: Session)
      requires Wf()
      ensures r.Wf()
      decreases |acts|
    {
      if acts == [] then this else Do(acts[0]).Play(acts[1..])
    }

    /** The detections so far followed by those still in the unread bytes. */
    function Outlook(): (State, seq<seq<Byte>>)
      requires Wf()
    {
      var (t, more) := Feed(state, pending);
      (t, found + more)
    }
  }

  function Arrivals(acts: seq<Action>): seq<Byte> {
    if acts == [] then [] else (if acts[0].Arrive? then acts[0].bytes else []) + Arrivals(acts[1..])
  }

  /** Whatever the chunks and the calls, the detections are determined by the concatenated stream. */
  lemma {:induction false} ChunkingIrrelevant(z: Session, acts: seq<Action>)
    requires z.Wf()
    ensures z.Play(acts).Outlook() == z.(pending := z.pending + Arrivals(acts)).Outlook()
    decreases |acts|
  {
    hide Feed, ReadOne, Session.Outlook;
    if acts == [] {
      assert z.pending + [] == z.pending;
    } else {
      var rest := Arrivals(acts[1..]);
      match acts[0] {
        case Arrive(bs) =>
          ChunkingIrrelevant(z.Do(acts[0]), acts[1..]);
          assert z.pending + bs + rest == z.pending + (bs + rest);
        case Call =>
          ChunkingIrrelevant(z.Do(Call), acts[1..]);
          assert [] + rest == rest;
          CallCommutes(z, rest);
      }
    }
  }

  /** Reading before or after more bytes arrive makes no difference to the outlook. */
  lemma CallCommutes(z: Session, more: seq<Byte>)
    requires z.Wf()
    ensures z.Do(Call).(pending := z.Do(Call).pending + more).Outlook() == z.(pending := z.pending + more).Outlook()
  {
    hide Feed, ReadOne;
    var r := ReadOne(z.state, z.pending);
    ReadOneFeeds(z.state, z.pending);
    FeedConcat(z.state, z.pending, more);
    FeedConcat(r.state, r.rest, more);
    var (t, x) := Feed(r.state, r.rest);
    var (u, y) := Feed(t, more);
    assert z.found + ((r.found + x) + y) == (z.found + r.found) + (x + y);
  }

  /** Two sessions from the idle parser that received the same stream and read all of it agree. */
  lemma SameStreamSameDetections(acts: seq<Action>, bcts: seq<Action>)
    requires Arrivals(acts) == Arrivals(bcts)
    requires Session(Idle, [], []).Play(acts).pending == [] && Session(Idle, [], []).Play(bcts).pending == []
    ensures Session(Idle, [], []).Play(acts) == Session(Idle, [], []).Play(bcts)
    ensures Session(Idle, [], []).Play(acts).found == Payloads(Parse(Arrivals(acts), 0))
  {
    hide ReadOne, Session.Play, Session.Do, Parse, Arrivals;
    var z, stream := Session(Idle, [], []), Arrivals(acts);
    var y, x := z.Play(acts), z.Play(bcts);
    ChunkingIrrelevant(z, acts);
    ChunkingIrrelevant(z, bcts);
    assert [] + stream == stream;
    assert y.Outlook() == (y.state, y.found) by { assert y.found + [] == y.found; }
    assert x.Outlook() == (x.state, x.found) by { assert x.found + [] == x.found; }
    FeedIsParse(stream, 0);
    assert [] + Feed(Idle, stream).1 == Feed(Idle, stream).1;
  }
}
