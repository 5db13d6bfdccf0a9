/** The slider framing: an unescaping parser in a fixed buffer, and the frame writer beside it. */
module Slider {
  import opened Bytes

  const START: byte := 0xFF
  const ESCAPE: byte := 0xFD
  const CAPACITY := 128

  datatype Packet = Packet(cmd: byte, payload: seq<byte>)

  // ----- the parser as a function of one byte -----

  /** Idle, or collecting: the decoded bytes from the start byte on, and whether an escape is open. */
  datatype State = Idle | Active(data: seq<byte>, escaped: bool)

  predicate WellFormed(s: State) {
    s.Active? ==> 1 <= |s.data| <= CAPACITY && s.data[0] == START && (|s.data| >= 4 ==> |s.data| < s.data[2] as int + 4)
  }

  function Feed(s: State, b: byte): (State, seq<Packet>) {
    if b == START then (Active([b], false), [])
    else if s.Idle? then (s, [])
    else if b == ESCAPE then (Active(s.data, true), [])
    else if |s.data| >= CAPACITY then (Idle, [])
    else
      var data := s.data + [if s.escaped then Next(b) else b];
      if |data| < 4 || |data| < data[2] as int + 4 then (Active(data, false), [])
      else (Idle, [Packet(data[1], data[3..3 + data[2] as int])])
  }

  lemma FeedKeepsForm(s: State, b: byte)
    requires WellFormed(s)
    ensures WellFormed(Feed(s, b).0)
  {
  }

  function StateAfter(s: State, w: seq<byte>): State {
    if w == [] then s else Feed(StateAfter(s, w[..|w| - 1]), w[|w| - 1]).0
  }

  /** The packets emitted while a stream goes in. */
  function Emitted(s: State, w: seq<byte>): seq<Packet> {
    if w == [] then []
    else Emitted(s, w[..|w| - 1]) + Feed(StateAfter(s, w[..|w| - 1]), w[|w| - 1]).1
  }

  lemma OneMore(s: State, w: seq<byte>, b: byte)
    ensures StateAfter(s, w + [b]) == Feed(StateAfter(s, w), b).0
    ensures Emitted(s, w + [b]) == Emitted(s, w) + Feed(StateAfter(s, w), b).1
  {
    assert (w + [b])[..|w|] == w;
  }

  lemma {:induction false} FeedAppend(s: State, a: seq<byte>, b: seq<byte>)
    ensures StateAfter(s, a + b) == StateAfter(StateAfter(s, a), b)
    ensures Emitted(s, a + b) == Emitted(s, a) + Emitted(StateAfter(s, a), b)
  {
    hide Feed;
    if b == [] {
      assert a + b == a;
    } else {
      var c, x := b[..|b| - 1], b[|b| - 1];
      assert b == c + [x] && a + b == (a + c) + [x];
      FeedAppend(s, a, c);
      OneMore(s, a + c, x);
      OneMore(StateAfter(s, a), c, x);
    }
  }

  // ----- the parser read off the whole stream -----

  /** Where the next start byte is, or the end. */
  function Cut(w: seq<byte>): (i: nat)
    ensures i <= |w| && START !in w[..i] && (i < |w| ==> w[i] == START)
  {
    if w == [] || w[0] == START then 0 else 1 + Cut(w[1..])
  }

  /**
   * What the bytes between two start bytes amount to: unescaped, a command, a size and that
   * many payload bytes and one more, in a frame of at most 128; whatever follows is ignored.
   */
  function SegmentPacket(segment: seq<byte>): seq<Packet> {
    PacketIn(Unstuff(segment, ESCAPE).0)
  }

  function PacketIn(u: seq<byte>): seq<Packet> {
    if Ready(u) then [Packet(u[0], u[2..2 + u[1] as int])] else []
  }

  predicate Ready(u: seq<byte>) {
    |u| >= 3 && |u| >= u[1] as int + 3 && u[1] as int + 4 <= CAPACITY
  }

  /** Cut the stream at the start bytes and read each segment by itself. */
  function Batch(w: seq<byte>): seq<Packet>
    decreases |w|
  {
    var i := Cut(w);
    if i == |w| then []
    else
      var rest := w[i + 1..];
      SegmentPacket(rest[..Cut(rest)]) + Batch(rest[Cut(rest)..])
  }

  /** The parser's state when the segment so far unescapes to `u`: done, given up, or collecting. */
  function DataState(u: seq<byte>, escaped: bool): State {
    if Ready(u) || |u| >= CAPACITY then Idle else Active([START] + u, escaped)
  }

  function SegmentState(segment: seq<byte>): State {
    DataState(Unstuff(segment, ESCAPE).0, Unstuff(segment, ESCAPE).1)
  }

  lemma ReadyStays(u: seq<byte>, x: byte)
    requires Ready(u)
    ensures Ready(u + [x]) && PacketIn(u + [x]) == PacketIn(u)
  {
    assert (u + [x])[2..2 + u[1] as int] == u[2..2 + u[1] as int];
  }

  lemma DataStep(u: seq<byte>, escaped: bool, b: byte)
    requires b != START && b != ESCAPE
    ensures var v := u + [if escaped then Next(b) else b];
            && Feed(DataState(u, escaped), b).0 == DataState(v, false)
            && PacketIn(u) + Feed(DataState(u, escaped), b).1 == PacketIn(v)
  {
    var x := if escaped then Next(b) else b;
    var v := u + [x];
    if Ready(u) {
      ReadyStays(u, x);
    } else if |u| < CAPACITY - 1 {
      assert [START] + u + [x] == [START] + v;
      var data := [START] + v;
      if Ready(v) {
        assert data[3..3 + data[2] as int] == v[2..2 + v[1] as int];
      }
    }
  }

  lemma {:induction false} SegmentIsParsed(segment: seq<byte>)
    requires START !in segment
    ensures StateAfter(Active([START], false), segment) == SegmentState(segment)
    ensures Emitted(Active([START], false), segment) == SegmentPacket(segment)
  {
    if segment == [] {
      assert [START] + [] == [START];
    } else {
      var v, b := segment[..|segment| - 1], segment[|segment| - 1];
      hide Feed, SegmentState, SegmentPacket;
      assert segment == v + [b];
      SegmentIsParsed(v);
      SegmentStep(v, b);
    }
  }

  lemma EscapeStep(u: seq<byte>, escaped: bool)
    ensures Feed(DataState(u, escaped), ESCAPE) == (DataState(u, true), [])
  {
    hide Ready;
  }

  lemma SegmentStep(v: seq<byte>, b: byte)
    requires b != START
    ensures var (s, ps) := Feed(SegmentState(v), b);
            s == SegmentState(v + [b]) && SegmentPacket(v) + ps == SegmentPacket(v + [b])
  {
    hide Feed, Unstuff, PacketIn, DataState;
    var (u, escaped) := Unstuff(v, ESCAPE);
    UnstuffOneMore(v, b, ESCAPE);
    if b == ESCAPE {
      EscapeStep(u, escaped);
      assert SegmentPacket(v) + [] == SegmentPacket(v);
    } else {
      DataStep(u, escaped, b);
    }
  }

  /** Bytes that reach an idle parser before a start byte do nothing. */
  lemma {:induction false} IdleIgnores(w: seq<byte>)
    requires START !in w
    ensures StateAfter(Idle, w) == Idle && Emitted(Idle, w) == []
  {
    if w != [] {
      IdleIgnores(w[..|w| - 1]);
      assert w[|w| - 1] in w;
    }
  }

  lemma SkipToStart(s: State, w: seq<byte>)
    requires START !in w && (s.Idle? || w == [])
    ensures Emitted(s, w) == []
  {
    if s.Idle? {
      IdleIgnores(w);
    }
  }

  lemma StartActivates(s: State)
    ensures StateAfter(s, [START]) == Active([START], false) && Emitted(s, [START]) == []
  {
    OneMore(s, [], START);
    assert [] + [START] == [START];
  }

  /** Skipped bytes, a start byte and a segment: the segment's packet comes out, then whatever follows. */
  lemma HeadSegment(s: State, skipped: seq<byte>, segment: seq<byte>, tail: seq<byte>)
    requires START !in skipped && START !in segment && (s.Idle? || skipped == [])
    ensures Emitted(s, skipped + ([START] + (segment + tail)))
         == SegmentPacket(segment) + Emitted(SegmentState(segment), tail)
  {
    hide Feed, SegmentPacket, SegmentState, StateAfter, Emitted;
    var t, begun := StateAfter(s, skipped), Active([START], false);
    FeedAppend(s, skipped, [START] + (segment + tail));
    FeedAppend(t, [START], segment + tail);
    FeedAppend(begun, segment, tail);
    SkipToStart(s, skipped);
    StartActivates(t);
    SegmentIsParsed(segment);
  }

  lemma PartsOf(w: seq<byte>, i: nat, j: nat)
    requires i < |w| && w[i] == START && j <= |w| - i - 1
    ensures w == w[..i] + ([START] + (w[i + 1..][..j] + w[i + 1..][j..]))
  {
    var rest := w[i + 1..];
    assert rest[..j] + rest[j..] == rest;
    assert w == w[..i] + ([START] + rest);
  }

  lemma BatchOnce(w: seq<byte>)
    requires Cut(w) < |w|
    ensures var rest := w[Cut(w) + 1..]; Batch(w) == SegmentPacket(rest[..Cut(rest)]) + Batch(rest[Cut(rest)..])
  {
    hide Cut, SegmentPacket;
  }

  /** The batch reading of a stream with a start byte is its first segment's packet, then the rest. */
  lemma BatchUnfolds(w: seq<byte>) returns (skipped: seq<byte>, segment: seq<byte>, tail: seq<byte>)
    requires Cut(w) < |w|
    ensures w == skipped + ([START] + (segment + tail)) && |skipped| == Cut(w)
    ensures START !in skipped && START !in segment && (tail == [] || tail[0] == START)
    ensures Batch(w) == SegmentPacket(segment) + Batch(tail)
  {
    hide Cut, SegmentPacket, Batch;
    var i := Cut(w);
    var rest := w[i + 1..];
    var j := Cut(rest);
    skipped, segment, tail := w[..i], rest[..j], rest[j..];
    PartsOf(w, i, j);
    BatchOnce(w);
  }

  lemma NoStartNoPacket(s: State, w: seq<byte>)
    requires Cut(w) == |w| && (s.Idle? || w == [])
    ensures Emitted(s, w) == Batch(w) == []
  {
    assert w[..|w|] == w;
    SkipToStart(s, w);
  }

  /**
   * The parser emits exactly the packets of the batch reading, in order, on every stream: from
   * idle, or from any state when the stream begins with a start byte.
   */
  lemma {:induction false} ParserIsBatch(s: State, w: seq<byte>)
    requires s.Idle? || w == [] || w[0] == START
    ensures Emitted(s, w) == Batch(w)
    decreases |w|
  {
    hide Feed, SegmentPacket, SegmentState, StateAfter, Emitted, Batch;
    if Cut(w) == |w| {
      NoStartNoPacket(s, w);
    } else {
      var skipped, segment, tail := BatchUnfolds(w);
      HeadSegment(s, skipped, segment, tail);
      ParserIsBatch(SegmentState(segment), tail);
    }
  }

  // ----- reading back what send_slider_frame writes -----

  /** The left fold of wrapping_sub from zero. */
  function NegSum(s: seq<byte>): byte {
    if s == [] then 0 else (NegSum(s[..|s| - 1]) as int - s[|s| - 1] as int) % 256
  }

  /** A frame that ends in some byte `c`, be it the checksum or not. */
  function FrameWith(cmd: byte, payload: seq<byte>, c: byte): seq<byte> {
    [START, cmd, |payload| % 256] + payload + [c]
  }

  function SliderFrame(cmd: byte, payload: seq<byte>): seq<byte> {
    var head := [START, cmd, |payload| % 256] + payload;
    head + [NegSum(head)]
  }

  predicate Cancels(a: byte, b: byte) {
    a as int + b as int == 0 || a as int + b as int == 256
  }

  lemma MovedPairCancels(a: byte, b: byte, x: byte)
    requires Cancels(a, b)
    ensures Cancels((a + x) % 256, (b as int - x as int) % 256)
  {
    assert (a + x) % 256 == if a + x < 256 then a + x else a + x - 256;
    assert (b as int - x as int) % 256 == if x <= b then b - x else 256 + b - x;
  }

  lemma {:induction false} NegSumCancels(s: seq<byte>)
    ensures Cancels(Sum(s), NegSum(s))
  {
    if s != [] {
      hide Cancels;
      var t, x := s[..|s| - 1], s[|s| - 1];
      NegSumCancels(t);
      MovedPairCancels(Sum(t), NegSum(t), x);
    } else {
      assert Sum(s) == NegSum(s) == 0;
    }
  }

  /** The bytes of a frame, checksum included, sum to zero. */
  lemma FrameSumsToZero(cmd: byte, payload: seq<byte>)
    ensures Sum(SliderFrame(cmd, payload)) == 0
  {
    var head := [START, cmd, |payload| % 256] + payload;
    NegSumCancels(head);
    assert (head + [NegSum(head)])[..|head|] == head;
  }

  /** The writer hands the callback exactly one frame. */
  method SendSliderFrame(cmd: byte, payload: seq<byte>) returns (frame: seq<byte>)
    ensures frame == SliderFrame(cmd, payload)
  {
    frame := [START];
    frame := frame + [cmd];
    frame := frame + [|payload| % 256];
    frame := frame + payload;
    ghost var head := frame;
    assert head == [START, cmd, |payload| % 256] + payload;
    var checksum: byte := 0;
    for i := 0 to |frame|
      invariant checksum == NegSum(frame[..i])
    {
      assert frame[..i + 1][..i] == frame[..i];
      checksum := (checksum as int - frame[i] as int) % 256;
    }
    assert frame[..|frame|] == frame;
    frame := frame + [checksum];
  }

  lemma SegmentNeedsRoom(segment: seq<byte>, p: Packet)
    requires p in SegmentPacket(segment)
    ensures |segment| >= |p.payload| + 3 && |p.payload| + 4 <= CAPACITY
    ensures |segment| == |p.payload| + 3 ==> ESCAPE !in segment
  {
    UnstuffLength(segment, ESCAPE);
  }

  /** A packet with n payload bytes needs n + 4 stream bytes, and with no more than that, no special byte. */
  lemma {:induction false} PacketNeedsRoom(w: seq<byte>, p: Packet)
    requires p in Batch(w)
    ensures |w| >= |p.payload| + 4 && |p.payload| + 4 <= CAPACITY
    ensures |w| == |p.payload| + 4 ==> START !in w[1..] && ESCAPE !in w[1..]
    decreases |w|
  {
    hide Batch, SegmentPacket;
    if Cut(w) == |w| {
      NoStartNoPacket(Idle, w);
    }
    var skipped, segment, tail := BatchUnfolds(w);
    if p in SegmentPacket(segment) {
      SegmentNeedsRoom(segment, p);
      if |w| == |p.payload| + 4 {
        assert w[1..] == segment;
      }
    } else {
      PacketNeedsRoom(tail, p);
    }
  }

  /** No special byte after the first, and room in the buffer. */
  predicate ReadsBack(f: seq<byte>, payload: seq<byte>)
    requires f != []
  {
    |payload| <= 124 && START !in f[1..] && ESCAPE !in f[1..]
  }

  /**
   * The parser does not check the checksum: from any parser state a frame that ends in any byte at
   * all yields its command and payload, and nothing else, if and only if the payload has at most
   * 124 bytes and no byte after the first is 0xFF or 0xFD. Then the packet comes on the last byte.
   */
  lemma ChecksumIsIgnored(s: State, cmd: byte, payload: seq<byte>, c: byte)
    ensures var f := FrameWith(cmd, payload, c);
            && (Emitted(s, f) == [Packet(cmd, payload)] <==> ReadsBack(f, payload))
            && (ReadsBack(f, payload) ==> Emitted(s, f[..|f| - 1]) == [])
  {
    var f := FrameWith(cmd, payload, c);
    ParserIsBatch(s, f);
    ParserIsBatch(s, f[..|f| - 1]);
    if Batch(f) == [Packet(cmd, payload)] {
      PacketNeedsRoom(f, Packet(cmd, payload));
    }
    if ReadsBack(f, payload) {
      PlainFrameIsRead(f, cmd, payload, c);
    }
  }

  /** Exact read-back of what the writer sends: the same condition, with the checksum as the last byte. */
  lemma ReadBackExactly(s: State, cmd: byte, payload: seq<byte>)
    ensures var f := SliderFrame(cmd, payload);
            && (Emitted(s, f) == [Packet(cmd, payload)]
                <==> |payload| <= 124 && START !in f[1..] && ESCAPE !in f[1..])
            && (|payload| <= 124 && START !in f[1..] && ESCAPE !in f[1..] ==> Emitted(s, f[..|f| - 1]) == [])
  {
    hide Emitted, NegSum;
    var head := [START, cmd, |payload| % 256] + payload;
    ChecksumIsIgnored(s, cmd, payload, NegSum(head));
  }

  lemma {:induction false} NoCut(w: seq<byte>)
    requires START !in w
    ensures Cut(w) == |w|
  {
    if w != [] {
      NoCut(w[1..]);
    }
  }

  lemma OneSegment(u: seq<byte>)
    requires START !in u
    ensures Batch([START] + u) == SegmentPacket(u)
  {
    var w := [START] + u;
    NoCut(u);
    assert Cut(w) == 0 && w[1..] == u && u[..|u|] == u && u[|u|..] == [];
  }

  lemma PlainSegmentPacket(u: seq<byte>)
    requires ESCAPE !in u
    ensures SegmentPacket(u) == if Ready(u) then [Packet(u[0], u[2..2 + u[1] as int])] else []
  {
    UnstuffLength(u, ESCAPE);
  }

  lemma FrameParts(cmd: byte, payload: seq<byte>, c: byte)
    requires |payload| <= 124
    ensures var f := FrameWith(cmd, payload, c);
            var u := f[1..];
            && f == [START] + u && f[..|f| - 1] == [START] + u[..|u| - 1]
            && |u| == |payload| + 3 && u[0] == cmd && u[1] == |payload| && u[2..2 + |payload|] == payload
  {
    var f := FrameWith(cmd, payload, c);
    SliceOfSlice(f, 1, |f|, 2, 2 + |payload|);
    assert f[1..|f|] == f[1..];
    assert f[3..3 + |payload|] == payload;
  }

  lemma PlainFrameIsRead(f: seq<byte>, cmd: byte, payload: seq<byte>, c: byte)
    requires f == FrameWith(cmd, payload, c) && |payload| <= 124
    requires START !in f[1..] && ESCAPE !in f[1..]
    ensures Batch(f) == [Packet(cmd, payload)] && Batch(f[..|f| - 1]) == []
  {
    FrameParts(cmd, payload, c);
    hide FrameWith, Batch, SegmentPacket, Unstuff;
    var u := f[1..];
    var v := u[..|u| - 1];
    OneSegment(u);
    OneSegment(v);
    PlainSegmentPacket(u);
    PlainSegmentPacket(v);
  }

  // ----- the code with its fixed buffer -----

  class SliderParser {
    const buf: array<byte>
    var len: nat
    var escaped: bool
    var active: bool

    ghost predicate Valid()
      reads this, buf
    {
      && buf.Length == CAPACITY && len <= CAPACITY
      && (!active ==> len == 0)
      && (active ==> 1 <= len && buf[0] == START && (len >= 4 ==> len < buf[2] as int + 4))
    }

    ghost function View(): (s: State)
      requires Valid()
      reads this, buf
      ensures WellFormed(s)
    {
      if active then Active(buf[..len], escaped) else Idle
    }

    constructor ()
      ensures Valid() && View() == Idle && fresh(buf)
    {
      buf := new byte[CAPACITY](_ => 0);
      len, escaped, active := 0, false, false;
    }

    method Push(b: byte) returns (packet: Option<Packet>)
      requires Valid()
      modifies this, buf
      ensures Valid()
      ensures View() == Feed(old(View()), b).0
      ensures (if packet.Some? then [packet.value] else []) == Feed(old(View()), b).1
    {
      if b == START {
        active := true;
        escaped := false;
        len := 0;
        buf[len] := b;
        len := len + 1;
        assert buf[..len] == [b];
        return None;
      }
      if !active {
        return None;
      }
      if b == ESCAPE {
        escaped := true;
        return None;
      }
      var decoded := b;
      if escaped {
        escaped := false;
        decoded := Next(b);
      }
      packet := Store(decoded);
    }

    /** Stores a decoded byte and completes the packet when it was the last one. */
    method Store(decoded: byte) returns (packet: Option<Packet>)
      requires Valid() && active && !escaped
      modifies this, buf
      ensures Valid()
      ensures var data := old(buf[..len]) + [decoded];
              if |data| > CAPACITY then View() == Idle && packet.None?
              else if |data| < 4 || |data| < data[2] as int + 4 then View() == Active(data, false) && packet.None?
              else View() == Idle && packet == Some(Packet(data[1], data[3..3 + data[2] as int]))
    {
      if len >= buf.Length {
        active := false;
        len := 0;
        return None;
      }
      ghost var data := buf[..len] + [decoded];
      buf[len] := decoded;
      len := len + 1;
      assert buf[..len] == data;
      if len < 4 {
        return None;
      }
      var size := buf[2] as int;
      var total := size + 4;
      if len < total {
        return None;
      }
      packet := Some(Packet(buf[1], buf[3..3 + size]));
      assert buf[3..3 + size] == data[3..3 + size];
      active := false;
      len := 0;
    }
  }
}
