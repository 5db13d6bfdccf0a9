/** The latency benchmark's frame codec and the loop that fills its 256-byte receive buffer. */
module Bench {
  import opened Bytes
  import Mai2Frames

  const CAPACITY := 256
  const META_LEN := 20

  datatype Frame = Frame(cmd: byte, payload: seq<byte>)

  /** The live bytes from the first start byte on. */
  function FromStart(s: seq<byte>): (t: seq<byte>)
    ensures |t| <= |s| && (t != [] ==> t[0] == 0xFF)
  {
    if s == [] || s[0] == 0xFF then s else FromStart(s[1..])
  }

  /** One `parse_mai2_frame` call on the live bytes: what it returns and what it leaves. */
  function Parse(s: seq<byte>): (r: (Option<Frame>, seq<byte>))
    ensures |r.1| <= |s| && (r.0.Some? ==> |r.1| < |s|)
  {
    var t := FromStart(s);
    if |t| < 4 then (None, t)
    else
      var total := t[2] as int + 4;
      if total > CAPACITY then (None, t[1..])
      else if |t| < total then (None, t)
      else if Sum(t[..total - 1]) != t[total - 1] then (None, t[1..])
      else (Some(Frame(t[1], t[3..total - 1])), t[total..])
  }

  lemma {:induction false} NoiseIsSkipped(noise: seq<byte>, s: seq<byte>)
    requires 0xFF !in noise && (s == [] || s[0] == 0xFF)
    ensures FromStart(noise + s) == s
  {
    if noise == [] {
      assert noise + s == s;
    } else {
      assert (noise + s)[1..] == noise[1..] + s;
      NoiseIsSkipped(noise[1..], s);
    }
  }

  /** A start byte among the noise is not skipped, so more than what follows the noise stays in view. */
  lemma {:induction false} FalseStartIsKept(noise: seq<byte>, s: seq<byte>)
    requires 0xFF in noise
    ensures |FromStart(noise + s)| > |s|
  {
    if noise[0] != 0xFF {
      assert (noise + s)[1..] == noise[1..] + s;
      FalseStartIsKept(noise[1..], s);
    }
  }

  /**
   * What a frame-shaped head does to whatever follows it: with its checksum right it is the frame
   * returned; with it wrong, or with a size that cannot fit the buffer, the call gives up with one
   * byte gone, even when a whole frame follows.
   */
  lemma HeadDecides(head: seq<byte>, s: seq<byte>)
    requires |head| >= 4 && head[0] == 0xFF && (head[2] > 252 || |head| == head[2] as int + 4)
    ensures var n := |head| - 1;
            Parse(head + s) == if head[2] <= 252 && Sum(head[..n]) == head[n] then (Some(Frame(head[1], head[3..n])), s)
                               else (None, head[1..] + s)
  {
    var n, t := |head| - 1, head + s;
    assert t[1..] == head[1..] + s && t[2] == head[2];
    assert t[..n] == head[..n] && t[3..n] == head[3..n] && t[n + 1..] == s;
  }

  lemma WholeFrameParses(cmd: byte, payload: seq<byte>, following: seq<byte>)
    requires |payload| <= 252
    ensures Parse(SumFrame(cmd, payload) + following) == (Some(Frame(cmd, payload)), following)
  {
    var f := SumFrame(cmd, payload);
    var head := [0xFF, cmd, |payload| % 256] + payload;
    assert f[..|f| - 1] == head && f[3..|f| - 1] == payload;
    HeadDecides(f, following);
  }

  lemma ParsedBytesAdd(s: seq<byte>)
    requires Parse(s).0.Some?
    ensures |FromStart(s)| == |Parse(s).0.value.payload| + 4 + |Parse(s).1| && |Parse(s).0.value.payload| <= 252
  {
  }

  /**
   * The parser inverts the sender, leaving the bytes that follow as they were, if and only if the
   * payload has at most 252 bytes and the bytes before the frame hold no start byte.
   */
  lemma ParseInvertsSendExactly(noise: seq<byte>, cmd: byte, payload: seq<byte>, following: seq<byte>)
    ensures Parse(noise + SumFrame(cmd, payload) + following) == (Some(Frame(cmd, payload)), following)
            <==> |payload| <= 252 && 0xFF !in noise
  {
    var s := SumFrame(cmd, payload) + following;
    var t := noise + s;
    assert noise + SumFrame(cmd, payload) + following == t;
    FrameSize(cmd, payload);
    if Parse(t) == (Some(Frame(cmd, payload)), following) {
      ParsedBytesAdd(t);
      if 0xFF in noise {
        FalseStartIsKept(noise, s);
      }
    } else if |payload| <= 252 && 0xFF !in noise {
      NoiseIsSkipped(noise, s);
      WholeFrameParses(cmd, payload, following);
    }
  }

  lemma FrameSize(cmd: byte, payload: seq<byte>)
    ensures |SumFrame(cmd, payload)| == |payload| + 4
  {
  }

  /** A call that returns no frame leaves room: a full buffer always gets shorter. */
  lemma FullBufferShrinks(s: seq<byte>)
    requires |s| <= CAPACITY
    ensures |Parse(s).1| < CAPACITY
  {
  }

  /** Part of a frame waits, untouched, for the rest. */
  lemma PrefixWaits(cmd: byte, payload: seq<byte>, n: nat)
    requires |payload| <= 252 && n < |payload| + 4
    ensures Parse(SumFrame(cmd, payload)[..n]) == (None, SumFrame(cmd, payload)[..n])
  {
    hide Sum;
    var part := SumFrame(cmd, payload)[..n];
    assert FromStart(part) == part;
  }

  /** `parse_mai2_frame` on the array: a function of the live prefix. */
  method ParseMai2Frame(rx: array<byte>, rxLen: nat) returns (frame: Option<Frame>, left: nat)
    requires rx.Length == CAPACITY && rxLen <= rx.Length
    modifies rx
    ensures left <= rxLen && (frame, rx[..left]) == Parse(old(rx[..rxLen]))
  {
    left := rxLen;
    while left > 0 && rx[0] != 0xFF
      invariant left <= rxLen && FromStart(rx[..left]) == FromStart(old(rx[..rxLen]))
      decreases left
    {
      ghost var live := rx[..left];
      left := Mai2Frames.Consume(rx, left, 1);
      assert rx[..left] == live[1..];
    }
    ghost var t := rx[..left];
    if left < 4 {
      return None, left;
    }
    var total := rx[2] as int + 4;
    if total > rx.Length {
      left := Mai2Frames.Consume(rx, left, 1);
      assert rx[..left] == t[1..];
      return None, left;
    }
    if left < total {
      return None, left;
    }
    var checksum := Checksum(rx[..total - 1]);
    assert rx[..total - 1] == t[..total - 1];
    if checksum != rx[total - 1] {
      left := Mai2Frames.Consume(rx, left, 1);
      assert rx[..left] == t[1..];
      return None, left;
    }
    var cmd := rx[1];
    var payload := rx[3..total - 1];
    assert payload == t[3..total - 1];
    left := Mai2Frames.Consume(rx, left, total);
    assert rx[..left] == t[total..];
    frame := Some(Frame(cmd, payload));
  }

  // ----- waiting for the reply -----

  function Le(s: seq<byte>): nat {
    if s == [] then 0 else s[0] as int + 256 * Le(s[1..])
  }

  datatype Reply = Reply(dispatchCycles: nat, txCycles: nat, coreHz: nat)

  function ReadMeta(meta: seq<byte>): Reply
    requires |meta| == META_LEN
  {
    Reply(Le(meta[0..8]), Le(meta[8..16]), Le(meta[16..20]))
  }

  /** The reply in a frame, if it answers this request. */
  function ReplyIn(f: Frame, cmd: byte, echo: seq<byte>): Option<Reply> {
    if f.cmd != cmd || |f.payload| != |echo| + META_LEN then None
    else if f.payload[..|echo|] != echo then None
    else Some(ReadMeta(f.payload[|echo|..]))
  }

  /** Parsing until a reply turns up or no frame comes out: the reply, and the bytes left. */
  function Drained(s: seq<byte>, cmd: byte, echo: seq<byte>): (Option<Reply>, seq<byte>)
    decreases |s|
  {
    var (frame, rest) := Parse(s);
    if frame.None? then (None, rest)
    else if ReplyIn(frame.value, cmd, echo).Some? then (ReplyIn(frame.value, cmd, echo), rest)
    else Drained(rest, cmd, echo)
  }

  lemma {:induction false} DrainLeavesRoom(s: seq<byte>, cmd: byte, echo: seq<byte>)
    requires |s| <= CAPACITY
    ensures |Drained(s, cmd, echo).1| < CAPACITY
    decreases |s|
  {
    FullBufferShrinks(s);
    if Parse(s).0.Some? {
      DrainLeavesRoom(Parse(s).1, cmd, echo);
    }
  }

  method Drain(rx: array<byte>, rxLen: nat, cmd: byte, echo: seq<byte>) returns (reply: Option<Reply>, left: nat)
    requires rx.Length == CAPACITY && rxLen <= rx.Length
    modifies rx
    ensures left <= rxLen && (reply, rx[..left]) == Drained(old(rx[..rxLen]), cmd, echo)
  {
    left := rxLen;
    while true
      invariant left <= rxLen && Drained(rx[..left], cmd, echo) == Drained(old(rx[..rxLen]), cmd, echo)
      decreases left
    {
      var frame: Option<Frame>;
      frame, left := ParseMai2Frame(rx, left);
      if frame.None? {
        return None, left;
      }
      var f := frame.value;
      if f.cmd != cmd || |f.payload| != |echo| + META_LEN {
        continue;
      }
      if f.payload[..|echo|] != echo {
        continue;
      }
      return Some(ReadMeta(f.payload[|echo|..])), left;
    }
  }

  /** What fits of a chunk; the rest of it is lost. */
  function Fitting(live: seq<byte>, buf: seq<byte>): seq<byte>
    requires |live| <= CAPACITY
  {
    if |buf| <= CAPACITY - |live| then buf else buf[..CAPACITY - |live|]
  }

  /** The reply found in a list of reads, starting from some live bytes; None when they run out first. */
  function Fill(live: seq<byte>, input: seq<Read>, cmd: byte, echo: seq<byte>): Option<Reply>
    requires |live| < CAPACITY
    decreases |input|
  {
    if input == [] || input[0].Failed? then None
    else if input[0].bytes == [] then Fill(live, input[1..], cmd, echo)
    else
      var s := live + Fitting(live, input[0].bytes);
      DrainLeavesRoom(s, cmd, echo);
      var (reply, rest) := Drained(s, cmd, echo);
      if reply.Some? then reply else Fill(rest, input[1..], cmd, echo)
  }

  /**
   * The fill loop. The buffer is never full when a read begins, so a read that delivers bytes
   * always stores some of them and the loop cannot wedge.
   */
  method ReadReply(input: seq<Read>, cmd: byte, echo: seq<byte>) returns (reply: Option<Reply>)
    ensures reply == Fill([], input, cmd, echo)
    ensures reply.Some? ==> HoldsReply(Kept([], input, cmd, echo), cmd, echo, reply.value)
  {
    reply := FillLoop(input, cmd, echo);
    hide Fill, Kept, HoldsReply;
    if reply.Some? {
      ReplyIsGenuine([], input, cmd, echo);
      assert [] + Kept([], input, cmd, echo) == Kept([], input, cmd, echo);
    }
  }

  /** The loop over the port's reads. */
  method FillLoop(input: seq<Read>, cmd: byte, echo: seq<byte>) returns (reply: Option<Reply>)
    ensures reply == Fill([], input, cmd, echo)
  {
    var rx := new byte[CAPACITY](_ => 0);
    var rxLen: nat := 0;
    assert input[0..] == input && rx[..0] == [];
    for n := 0 to |input|
      invariant rxLen < CAPACITY
      invariant Fill(rx[..rxLen], input[n..], cmd, echo) == Fill([], input, cmd, echo)
    {
      assert input[n..][1..] == input[n + 1..];
      if input[n].Failed? {
        return None;
      }
      var buf := input[n].bytes;
      if |buf| == 0 {
        continue;
      }
      ghost var live := rx[..rxLen];
      var copy := if |buf| <= rx.Length - rxLen then |buf| else rx.Length - rxLen;
      assert copy > 0;
      forall i | 0 <= i < copy {
        rx[rxLen + i] := buf[i];
      }
      rxLen := rxLen + copy;
      assert rx[..rxLen] == live + Fitting(live, buf);
      DrainLeavesRoom(rx[..rxLen], cmd, echo);
      reply, rxLen := Drain(rx, rxLen, cmd, echo);
      if reply.Some? {
        return;
      }
    }
    return None;
  }

  // ----- which replies are found -----

  const READ_SIZE := 64

  /** What may arrive before the reply: a stray byte, or a whole frame that answers something else. */
  datatype Item = Noise(b: byte) | Other(cmd: byte, payload: seq<byte>)

  function Wire(i: Item): seq<byte> {
    match i
    case Noise(b) => [b]
    case Other(c, p) => SumFrame(c, p)
  }

  function WireAll(items: seq<Item>): seq<byte> {
    if items == [] then [] else Wire(items[0]) + WireAll(items[1..])
  }

  predicate Harmless(i: Item, cmd: byte, echo: seq<byte>) {
    match i
    case Noise(b) => b != 0xFF
    case Other(c, p) => |p| <= 252 && !(c == cmd && |p| == |echo| + META_LEN && p[..|echo|] == echo)
  }

  function Received(input: seq<Read>): seq<byte> {
    if input == [] then [] else (if input[0].Chunk? then input[0].bytes else []) + Received(input[1..])
  }

  /** The bytes expected next, of which only a proper part can be waiting in the buffer. */
  function Upcoming(items: seq<Item>, reply: seq<byte>): seq<byte> {
    if items == [] then reply else Wire(items[0])
  }

  lemma {:induction false} NoiseIsDrained(b: byte, s: seq<byte>, cmd: byte, echo: seq<byte>)
    requires b != 0xFF
    ensures Drained([b] + s, cmd, echo) == Drained(s, cmd, echo)
  {
    assert ([b] + s)[1..] == s;
  }

  lemma ReplyIsTaken(cmd: byte, echo: seq<byte>, meta: seq<byte>, following: seq<byte>)
    requires |meta| == META_LEN && |echo| + META_LEN <= 252
    ensures Drained(SumFrame(cmd, echo + meta) + following, cmd, echo) == (Some(ReadMeta(meta)), following)
  {
    WholeFrameParses(cmd, echo + meta, following);
    assert (echo + meta)[..|echo|] == echo && (echo + meta)[|echo|..] == meta;
  }

  /**
   * Draining a part `s` of harmless items, the reply and anything else either finds the reply or
   * leaves exactly a proper part of one of them; it finds it once `s` holds the whole reply.
   */
  lemma {:induction false} DrainPrefix(s: seq<byte>, later: seq<byte>, items: seq<Item>, tail: seq<byte>,
                                       cmd: byte, echo: seq<byte>, meta: seq<byte>) returns (left: seq<Item>)
    requires |meta| == META_LEN && |echo| + META_LEN <= 252
    requires forall i :: i in items ==> Harmless(i, cmd, echo)
    requires s + later == WireAll(items) + SumFrame(cmd, echo + meta) + tail
    ensures var (found, rest) := Drained(s, cmd, echo);
            var reply := SumFrame(cmd, echo + meta);
            if found.Some? then found.value == ReadMeta(meta)
            else && rest + later == WireAll(left) + reply + tail && |rest| < |Upcoming(left, reply)|
                 && |s| < |WireAll(items)| + |reply| && (Roomy(items, reply) ==> Roomy(left, reply))
                 && forall i :: i in left ==> i in items
    decreases |items|
  {
    hide SumFrame, Drained;
    var reply := SumFrame(cmd, echo + meta);
    FrameSize(cmd, echo + meta);
    left := items;
    if items == [] {
      assert WireAll(items) + reply == reply;
      TwoCuts(s, later, reply, tail);
      if |s| < |reply| {
        PrefixWaits(cmd, echo + meta, |s|);
        WaitingDrains(s, cmd, echo);
      } else {
        ReplyIsTaken(cmd, echo, meta, s[|reply|..]);
      }
    } else {
      var w, x := Wire(items[0]), WireAll(items[1..]) + reply + tail;
      assert items[0] in items;
      assert WireAll(items) + reply + tail == w + x;
      TwoCuts(s, later, w, x);
      if |s| < |w| {
        PartWaits(items[0], |s|, cmd, echo);
      } else {
        var t := s[|w|..];
        WholeIsDrained(items[0], t, cmd, echo);
        left := DrainPrefix(t, later, items[1..], tail, cmd, echo, meta);
      }
    }
  }

  lemma WaitingDrains(s: seq<byte>, cmd: byte, echo: seq<byte>)
    requires Parse(s) == (None, s)
    ensures Drained(s, cmd, echo) == (None, s)
  {
  }

  lemma PartWaits(i: Item, n: nat, cmd: byte, echo: seq<byte>)
    requires Harmless(i, cmd, echo) && n < |Wire(i)|
    ensures Drained(Wire(i)[..n], cmd, echo) == (None, Wire(i)[..n])
  {
    match i
    case Noise(_) =>
    case Other(c, p) =>
      hide SumFrame;
      FrameSize(c, p);
      PrefixWaits(c, p, n);
  }

  lemma WholeIsDrained(i: Item, s: seq<byte>, cmd: byte, echo: seq<byte>)
    requires Harmless(i, cmd, echo)
    ensures Wire(i) != [] && Drained(Wire(i) + s, cmd, echo) == Drained(s, cmd, echo)
  {
    match i
    case Noise(b) => NoiseIsDrained(b, s, cmd, echo);
    case Other(c, p) =>
      hide SumFrame;
      FrameSize(c, p);
      WholeFrameParses(c, p, s);
  }

  /**
   * A read that ends one item and brings what follows, up to the reply, finds room: the item, and
   * the 63 more bytes a read can bring or all that is left, fit the buffer together.
   */
  predicate Roomy(items: seq<Item>, reply: seq<byte>) {
    items == [] ||
    (&& (var more := |WireAll(items[1..])| + |reply|;
         |Wire(items[0])| + (if more < READ_SIZE then more else READ_SIZE - 1) <= CAPACITY)
     && Roomy(items[1..], reply))
  }

  /** A stream delivered by the port's reads. */
  ghost predicate Delivers(input: seq<Read>, s: seq<byte>) {
    Received(input) == s && forall r :: r in input ==> r.Chunk? && |r.bytes| <= READ_SIZE
  }

  /** A read that does not fit brings everything up to the end of the reply all the same. */
  lemma CutReadIsEnough(live: seq<byte>, buf: seq<byte>, items: seq<Item>, reply: seq<byte>)
    requires Roomy(items, reply) && |reply| <= CAPACITY && |buf| <= READ_SIZE
    requires |live| < |Upcoming(items, reply)| && |live| < CAPACITY < |live| + |buf|
    ensures |live + Fitting(live, buf)| >= |WireAll(items)| + |reply|
  {
    if items != [] {
      assert |WireAll(items)| == |Wire(items[0])| + |WireAll(items[1..])|;
    }
  }

  /**
   * The reply is found, with its three fields, behind any stray bytes without a start byte and any
   * other whole frames with room, before anything else, and however the stream is cut into reads.
   */
  lemma {:induction false} ReplyIsFound(live: seq<byte>, input: seq<Read>, items: seq<Item>, tail: seq<byte>,
                                        cmd: byte, echo: seq<byte>, meta: seq<byte>)
    requires |meta| == META_LEN && |echo| + META_LEN <= 252
    requires forall i :: i in items ==> Harmless(i, cmd, echo)
    requires Roomy(items, SumFrame(cmd, echo + meta))
    requires Delivers(input, Received(input))
    requires live + Received(input) == WireAll(items) + SumFrame(cmd, echo + meta) + tail
    requires |live| < |Upcoming(items, SumFrame(cmd, echo + meta))| && |live| < CAPACITY
    ensures Fill(live, input, cmd, echo) == Some(ReadMeta(meta))
    decreases |input|
  {
    hide SumFrame, Drained, ReadMeta, Roomy;
    var reply := SumFrame(cmd, echo + meta);
    FrameSize(cmd, echo + meta);
    if input == [] {
      UpcomingComesFirst(items, reply, tail);
      assert false;
    }
    var buf, later := input[0].bytes, Received(input[1..]);
    assert input[0] in input;
    if buf == [] {
      assert buf + later == later;
      ReplyIsFound(live, input[1..], items, tail, cmd, echo, meta);
    } else {
      var s := live + Fitting(live, buf);
      var lost := buf[|Fitting(live, buf)|..];
      assert s + (lost + later) == live + Received(input);
      DrainLeavesRoom(s, cmd, echo);
      var left := DrainPrefix(s, lost + later, items, tail, cmd, echo, meta);
      if Drained(s, cmd, echo).0.None? {
        if lost != [] {
          CutReadIsEnough(live, buf, items, reply);
        }
        assert lost + later == later;
        ReplyIsFound(Drained(s, cmd, echo).1, input[1..], left, tail, cmd, echo, meta);
      }
    }
  }

  lemma UpcomingComesFirst(items: seq<Item>, reply: seq<byte>, tail: seq<byte>)
    ensures |WireAll(items) + reply + tail| >= |Upcoming(items, reply)|
  {
  }

  // ----- a reply returned was received -----

  /** `n` in `k` bytes, the lowest first. */
  function LeBytes(n: nat, k: nat): seq<byte> {
    if k == 0 then [] else [n % 256] + LeBytes(n / 256, k - 1)
  }

  /** The three fields as the device writes them: two 64-bit numbers and a 32-bit one, little-endian. */
  function MetaBytes(r: Reply): seq<byte> {
    LeBytes(r.dispatchCycles, 8) + LeBytes(r.txCycles, 8) + LeBytes(r.coreHz, 4)
  }

  lemma LowByte(b: byte, n: nat)
    ensures (b as int + 256 * n) % 256 == b && (b as int + 256 * n) / 256 == n
  {
  }

  lemma {:induction false} LeIsLittleEndian(s: seq<byte>)
    ensures LeBytes(Le(s), |s|) == s
  {
    if s != [] {
      var n := Le(s[1..]);
      LeIsLittleEndian(s[1..]);
      LowByte(s[0], n);
      assert Le(s) == s[0] as int + 256 * n;
      assert LeBytes(Le(s), |s|) == [s[0]] + LeBytes(n, |s| - 1);
    }
  }

  /** The fields read are the ones that were written. */
  lemma MetaIsRead(meta: seq<byte>)
    requires |meta| == META_LEN
    ensures MetaBytes(ReadMeta(meta)) == meta
  {
    hide Le, LeBytes;
    LeIsLittleEndian(meta[0..8]);
    LeIsLittleEndian(meta[8..16]);
    LeIsLittleEndian(meta[16..20]);
    assert meta == meta[0..8] + meta[8..16] + meta[16..20];
  }

  lemma ReplyInIsEcho(f: Frame, cmd: byte, echo: seq<byte>)
    requires ReplyIn(f, cmd, echo).Some?
    ensures f == Frame(cmd, echo + MetaBytes(ReplyIn(f, cmd, echo).value))
  {
    hide ReadMeta, MetaBytes;
    MetaIsRead(f.payload[|echo|..]);
    assert f.payload == f.payload[..|echo|] + f.payload[|echo|..];
  }

  lemma {:induction false} SkippedBytes(s: seq<byte>) returns (skipped: seq<byte>)
    ensures s == skipped + FromStart(s) && 0xFF !in skipped
  {
    if s == [] || s[0] == 0xFF {
      skipped := [];
    } else {
      skipped := SkippedBytes(s[1..]);
      skipped := [s[0]] + skipped;
    }
  }

  /** Bytes with a right checksum are the frame of their command and payload, and what follows. */
  lemma FrameShape(t: seq<byte>, n: nat)
    requires 4 <= n <= |t| && t[0] == 0xFF && t[2] as int + 4 == n && Sum(t[..n - 1]) == t[n - 1]
    ensures t == SumFrame(t[1], t[3..n - 1]) + t[n..]
  {
    hide Sum;
    assert t[..n - 1] == [0xFF, t[1], |t[3..n - 1]| % 256] + t[3..n - 1];
    assert t == t[..n - 1] + [t[n - 1]] + t[n..];
  }

  /** What the parser returns stood in the buffer as a whole frame, behind bytes without a start byte. */
  lemma ParsedWasSent(s: seq<byte>) returns (before: seq<byte>)
    ensures var (frame, rest) := Parse(s);
            if frame.Some? then s == before + SumFrame(frame.value.cmd, frame.value.payload) + rest && 0xFF !in before
            else s == before + rest
  {
    hide Sum, SumFrame, FromStart;
    var t := FromStart(s);
    before := SkippedBytes(s);
    var (frame, rest) := Parse(s);
    if frame.Some? {
      FrameShape(t, t[2] as int + 4);
      assert before + (SumFrame(frame.value.cmd, frame.value.payload) + rest)
          == before + SumFrame(frame.value.cmd, frame.value.payload) + rest;
    } else if rest != t {
      assert t == [t[0]] + rest;
      assert before + ([t[0]] + rest) == (before + [t[0]]) + rest;
      before := before + [t[0]];
    }
  }

  /** The bytes hold the reply `r` to this request as a whole frame. */
  ghost predicate HoldsReply(s: seq<byte>, cmd: byte, echo: seq<byte>, r: Reply) {
    exists before: seq<byte>, rest: seq<byte> :: Parted(s, before, SumFrame(cmd, echo + MetaBytes(r)), rest)
  }

  predicate Parted(s: seq<byte>, before: seq<byte>, f: seq<byte>, rest: seq<byte>) {
    s == before + f + rest
  }

  lemma WiderHolds(a: seq<byte>, s: seq<byte>, b: seq<byte>, cmd: byte, echo: seq<byte>, r: Reply)
    requires HoldsReply(s, cmd, echo, r)
    ensures HoldsReply(a + s + b, cmd, echo, r)
  {
    hide SumFrame, MetaBytes;
    var f := SumFrame(cmd, echo + MetaBytes(r));
    var before: seq<byte>, rest: seq<byte> :| Parted(s, before, f, rest);
    assert a + s + b == (a + before) + f + (rest + b);
    assert Parted(a + s + b, a + before, f, rest + b);
  }

  /** Draining leaves an end of the bytes, and a reply it returns was in them. */
  lemma {:induction false} DrainedIsGenuine(s: seq<byte>, cmd: byte, echo: seq<byte>) returns (before: seq<byte>)
    ensures s == before + Drained(s, cmd, echo).1
    ensures Drained(s, cmd, echo).0.Some? ==> HoldsReply(s, cmd, echo, Drained(s, cmd, echo).0.value)
    decreases |s|
  {
    hide SumFrame, MetaBytes, ReplyIn;
    before := ParsedWasSent(s);
    var (frame, rest) := Parse(s);
    if frame.Some? {
      var f := SumFrame(frame.value.cmd, frame.value.payload);
      if ReplyIn(frame.value, cmd, echo).Some? {
        ReplyInIsEcho(frame.value, cmd, echo);
        assert Parted(s, before, f, rest);
        before := before + f;
      } else {
        var more := DrainedIsGenuine(rest, cmd, echo);
        if Drained(rest, cmd, echo).0.Some? {
          WiderHolds(before + f, rest, [], cmd, echo, Drained(rest, cmd, echo).0.value);
          assert before + f + rest + [] == s;
        }
        before := before + f + more;
      }
    }
  }

  /** The bytes of the reads that reach the buffer until the reply is found. */
  function Kept(live: seq<byte>, input: seq<Read>, cmd: byte, echo: seq<byte>): seq<byte>
    requires |live| < CAPACITY
    decreases |input|
  {
    if input == [] || input[0].Failed? then []
    else if input[0].bytes == [] then Kept(live, input[1..], cmd, echo)
    else
      var fit := Fitting(live, input[0].bytes);
      DrainLeavesRoom(live + fit, cmd, echo);
      var (reply, rest) := Drained(live + fit, cmd, echo);
      if reply.Some? then fit else fit + Kept(rest, input[1..], cmd, echo)
  }

  /**
   * A reply that is returned answers this request: the bytes that reached the buffer hold it as a
   * whole frame, with the echo and the three fields it is returned with.
   */
  lemma {:induction false} ReplyIsGenuine(live: seq<byte>, input: seq<Read>, cmd: byte, echo: seq<byte>)
    requires |live| < CAPACITY && Fill(live, input, cmd, echo).Some?
    ensures HoldsReply(live + Kept(live, input, cmd, echo), cmd, echo, Fill(live, input, cmd, echo).value)
    decreases |input|
  {
    hide HoldsReply, Drained;
    if input[0].bytes == [] {
      ReplyIsGenuine(live, input[1..], cmd, echo);
    } else {
      var fit := Fitting(live, input[0].bytes);
      var s := live + fit;
      DrainLeavesRoom(s, cmd, echo);
      var before := DrainedIsGenuine(s, cmd, echo);
      var (reply, rest) := Drained(s, cmd, echo);
      if reply.None? {
        var later := Kept(rest, input[1..], cmd, echo);
        var r := Fill(live, input, cmd, echo).value;
        ReplyIsGenuine(rest, input[1..], cmd, echo);
        WiderHolds(before, rest + later, [], cmd, echo, r);
        assert before + rest == live + fit;
        assert before + (rest + later) + [] == (before + rest) + later == live + (fit + later);
      }
    }
  }

  /** No read brings more than there is room for. */
  predicate Uncut(live: seq<byte>, input: seq<Read>, cmd: byte, echo: seq<byte>)
    requires |live| < CAPACITY
    decreases |input|
  {
    if input == [] || input[0].Failed? then true
    else if input[0].bytes == [] then Uncut(live, input[1..], cmd, echo)
    else
      && |live| + |input[0].bytes| <= CAPACITY
      && (DrainLeavesRoom(live + input[0].bytes, cmd, echo);
          var (reply, rest) := Drained(live + input[0].bytes, cmd, echo);
          reply.None? ==> Uncut(rest, input[1..], cmd, echo))
  }

  /** The bytes received before a read fails. */
  function Arrived(input: seq<Read>): seq<byte> {
    if input == [] || input[0].Failed? then [] else input[0].bytes + Arrived(input[1..])
  }

  lemma {:induction false} UncutKeepsAll(live: seq<byte>, input: seq<Read>, cmd: byte, echo: seq<byte>)
    requires |live| < CAPACITY && Uncut(live, input, cmd, echo)
    ensures Kept(live, input, cmd, echo) <= Arrived(input)
    decreases |input|
  {
    hide Drained;
    if input != [] && input[0].Chunk? {
      if input[0].bytes == [] {
        UncutKeepsAll(live, input[1..], cmd, echo);
      } else {
        var s := live + input[0].bytes;
        DrainLeavesRoom(s, cmd, echo);
        if Drained(s, cmd, echo).0.None? {
          UncutKeepsAll(Drained(s, cmd, echo).1, input[1..], cmd, echo);
        }
      }
    }
  }

  /** When no read is cut, the bytes received before any failure hold the reply themselves. */
  lemma UncutReplyWasReceived(input: seq<Read>, cmd: byte, echo: seq<byte>)
    requires Fill([], input, cmd, echo).Some? && Uncut([], input, cmd, echo)
    ensures HoldsReply(Arrived(input), cmd, echo, Fill([], input, cmd, echo).value)
  {
    hide HoldsReply, Fill, Kept, Uncut;
    ReplyIsGenuine([], input, cmd, echo);
    UncutKeepsAll([], input, cmd, echo);
    var kept := Kept([], input, cmd, echo);
    assert [] + kept == kept;
    var all := Arrived(input);
    hide Arrived;
    WiderHolds([], kept, all[|kept|..], cmd, echo, Fill([], input, cmd, echo).value);
    assert [] + kept + all[|kept|..] == all;
  }

  /** When one is, the reply may be put together from both sides of the lost bytes, whatever those are. */
  lemma CutReplyIsSpliced(other: Item, k: nat, lost: seq<byte>, cmd: byte, echo: seq<byte>, meta: seq<byte>)
    requires |meta| == META_LEN && |echo| + META_LEN <= 252 && other.Other? && Harmless(other, cmd, echo)
    requires k < |SumFrame(cmd, echo + meta)| && |Wire(other)| + k == CAPACITY
    ensures var f, reply := Wire(other), SumFrame(cmd, echo + meta);
            && f != [] && |f| - 1 < CAPACITY
            && Fill(f[..|f| - 1], [Chunk([f[|f| - 1]] + reply[..k] + lost), Chunk(reply[k..])], cmd, echo)
               == Some(ReadMeta(meta))
  {
    var f, reply := Wire(other), SumFrame(cmd, echo + meta);
    hide SumFrame, Harmless, ReadMeta;
    OtherSize(other, cmd, echo);
    FrameSize(cmd, echo + meta);
    var live, buf := f[..|f| - 1], [f[|f| - 1]] + reply[..k] + lost;
    var fit := Fitting(live, buf);
    assert live + fit == f + reply[..k];
    WholeIsDrained(other, reply[..k], cmd, echo);
    PrefixWaits(cmd, echo + meta, k);
    WaitingDrains(reply[..k], cmd, echo);
    ReplyIsTaken(cmd, echo, meta, []);
    assert reply[..k] + reply[k..] == reply == reply + [];
    DrainLeavesRoom(live + fit, cmd, echo);
    DrainLeavesRoom(reply, cmd, echo);
    var input := [Chunk(buf), Chunk(reply[k..])];
    assert input[1..] == [Chunk(reply[k..])] && input[1..][1..] == [];
    hide Drained;
    LastChunk(reply[..k], reply[k..], cmd, echo);
  }

  lemma LastChunk(live: seq<byte>, buf: seq<byte>, cmd: byte, echo: seq<byte>)
    requires |live| < CAPACITY && buf != [] && |live| + |buf| <= CAPACITY
    ensures Fill(live, [Chunk(buf)], cmd, echo) == Drained(live + buf, cmd, echo).0
  {
    hide Drained;
    DrainLeavesRoom(live + buf, cmd, echo);
    assert [Chunk(buf)][1..] == [];
  }

  // ----- where a reply is lost -----

  /** One byte a read. */
  function Singles(s: seq<byte>): seq<Read> {
    if s == [] then [] else [Chunk([s[0]])] + Singles(s[1..])
  }

  lemma {:induction false} SinglesDeliver(s: seq<byte>)
    ensures Delivers(Singles(s), s)
  {
    if s != [] {
      SinglesDeliver(s[1..]);
      assert Singles(s)[1..] == Singles(s[1..]) && s == [s[0]] + s[1..];
    }
  }

  /** How much of a reply one read can bring behind the last byte of a frame. */
  function Share(reply: seq<byte>): nat {
    if |reply| < READ_SIZE then |reply| else READ_SIZE - 1
  }

  /** The last byte of a frame with as much of the reply as the read holds, and the rest one byte a read. */
  function LastReads(b: byte, reply: seq<byte>): seq<Read> {
    [Chunk([b] + reply[..Share(reply)])] + Singles(reply[Share(reply)..])
  }

  /** All but the last byte of a frame, one byte a read, and then the last reads. */
  function LateCut(f: seq<byte>, k: nat, reply: seq<byte>): seq<Read>
    requires k < |f|
    decreases |f| - k
  {
    if k == |f| - 1 then LastReads(f[k], reply) else [Chunk([f[k]])] + LateCut(f, k + 1, reply)
  }

  lemma LastReadsDeliver(b: byte, reply: seq<byte>)
    ensures Delivers(LastReads(b, reply), [b] + reply)
  {
    var n := Share(reply);
    var input := LastReads(b, reply);
    SinglesDeliver(reply[n..]);
    assert input[1..] == Singles(reply[n..]);
    assert [b] + reply[..n] + reply[n..] == [b] + reply;
  }

  lemma {:induction false} LateCutDelivers(f: seq<byte>, k: nat, reply: seq<byte>)
    requires k < |f|
    ensures Delivers(LateCut(f, k, reply), f[k..] + reply)
    decreases |f| - k
  {
    hide LastReads;
    var input := LateCut(f, k, reply);
    if k == |f| - 1 {
      LastReadsDeliver(f[k], reply);
      assert f[k..] == [f[k]];
    } else {
      LateCutDelivers(f, k + 1, reply);
      assert input[1..] == LateCut(f, k + 1, reply) && f[k..] == [f[k]] + f[k + 1..];
    }
  }

  lemma {:induction false} DrainedNeedsBytes(s: seq<byte>, cmd: byte, echo: seq<byte>)
    ensures |Drained(s, cmd, echo).1| <= |s|
    ensures Drained(s, cmd, echo).0.Some? ==> |s| >= |echo| + META_LEN + 4 && |echo| + META_LEN <= 252
    decreases |s|
  {
    var (frame, rest) := Parse(s);
    if frame.Some? {
      ParsedBytesAdd(s);
      if ReplyIn(frame.value, cmd, echo).None? {
        DrainedNeedsBytes(rest, cmd, echo);
      }
    }
  }

  /** A reply is a whole frame, so it takes as many bytes as the frame has. */
  lemma {:induction false} ReplyNeedsBytes(live: seq<byte>, input: seq<Read>, cmd: byte, echo: seq<byte>)
    requires |live| < CAPACITY
    ensures Fill(live, input, cmd, echo).Some? ==>
              |live| + |Received(input)| >= |echo| + META_LEN + 4 && |echo| + META_LEN <= 252
    decreases |input|
  {
    if input != [] && input[0].Chunk? {
      if input[0].bytes == [] {
        ReplyNeedsBytes(live, input[1..], cmd, echo);
      } else {
        var s := live + Fitting(live, input[0].bytes);
        hide Drained;
        DrainLeavesRoom(s, cmd, echo);
        DrainedNeedsBytes(s, cmd, echo);
        ReplyNeedsBytes(Drained(s, cmd, echo).1, input[1..], cmd, echo);
      }
    }
  }

  /** With all but its last byte waiting, a frame that leaves too little room costs the reply behind it. */
  lemma LastReadsLose(other: Item, cmd: byte, echo: seq<byte>, meta: seq<byte>)
    requires |meta| == META_LEN && |echo| + META_LEN <= 252 && other.Other? && Harmless(other, cmd, echo)
    requires var reply := SumFrame(cmd, echo + meta); |Wire(other)| + Share(reply) > CAPACITY
    ensures var f := Wire(other);
            && |f| - 1 < CAPACITY
            && Fill(f[..|f| - 1], LastReads(f[|f| - 1], SumFrame(cmd, echo + meta)), cmd, echo).None?
  {
    var f, reply := Wire(other), SumFrame(cmd, echo + meta);
    hide SumFrame, Harmless;
    OtherSize(other, cmd, echo);
    FrameSize(cmd, echo + meta);
    var n := Share(reply);
    var live, buf := f[..|f| - 1], [f[|f| - 1]] + reply[..n];
    var fit := Fitting(live, buf);
    var part := fit[1..];
    assert live + fit == f + part && part == reply[..CAPACITY - |f|];
    WholeIsDrained(other, part, cmd, echo);
    PrefixWaits(cmd, echo + meta, |part|);
    WaitingDrains(part, cmd, echo);
    var input := LastReads(f[|f| - 1], reply);
    assert input[1..] == Singles(reply[n..]);
    SinglesDeliver(reply[n..]);
    DrainLeavesRoom(live + fit, cmd, echo);
    hide Drained;
    ReplyNeedsBytes(part, Singles(reply[n..]), cmd, echo);
  }

  lemma OtherSize(other: Item, cmd: byte, echo: seq<byte>)
    requires other.Other? && Harmless(other, cmd, echo)
    ensures 4 <= |Wire(other)| <= CAPACITY
  {
    FrameSize(other.cmd, other.payload);
  }

  lemma {:induction false} LateCutFills(other: Item, k: nat, reply: seq<byte>, cmd: byte, echo: seq<byte>)
    requires other.Other? && Harmless(other, cmd, echo) && k < |Wire(other)| <= CAPACITY
    ensures var f := Wire(other);
            Fill(f[..k], LateCut(f, k, reply), cmd, echo)
            == Fill(f[..|f| - 1], LastReads(f[|f| - 1], reply), cmd, echo)
    decreases |Wire(other)| - k
  {
    hide Drained, Harmless, Wire, LastReads;
    var f := Wire(other);
    if k < |f| - 1 {
      var input := LateCut(f, k, reply);
      assert input[1..] == LateCut(f, k + 1, reply);
      assert f[..k] + Fitting(f[..k], [f[k]]) == f[..k + 1];
      PartWaits(other, k + 1, cmd, echo);
      LateCutFills(other, k + 1, reply, cmd, echo);
    }
  }

  /** The reply behind one other frame comes out of every cut of the two into reads. */
  ghost predicate FoundHoweverCut(f: seq<byte>, reply: seq<byte>, cmd: byte, echo: seq<byte>, meta: seq<byte>)
    requires |meta| == META_LEN
  {
    forall input :: Delivers(input, f + reply) ==> Fill([], input, cmd, echo) == Some(ReadMeta(meta))
  }

  /**
   * Right behind another frame, a reply is found however the two are cut into reads if and only if
   * it is short enough to be one at all, and the frame leaves room for what one read can bring of it.
   */
  lemma LongFrameCostsTheReply(other: Item, cmd: byte, echo: seq<byte>, meta: seq<byte>)
    requires |meta| == META_LEN && other.Other? && Harmless(other, cmd, echo)
    ensures var reply := SumFrame(cmd, echo + meta);
            FoundHoweverCut(Wire(other), reply, cmd, echo, meta)
            <==> |echo| + META_LEN <= 252 && |Wire(other)| + Share(reply) <= CAPACITY
  {
    var f, reply := Wire(other), SumFrame(cmd, echo + meta);
    hide SumFrame, Drained, Wire, Harmless, ReadMeta;
    OtherSize(other, cmd, echo);
    FrameSize(cmd, echo + meta);
    if |echo| + META_LEN <= 252 && |f| + Share(reply) <= CAPACITY {
      AloneIsRoomy(other, reply);
      forall input | Delivers(input, f + reply)
        ensures Fill([], input, cmd, echo) == Some(ReadMeta(meta))
      {
        assert [] + Received(input) == WireAll([other]) + reply + [];
        ReplyIsFound([], input, [other], [], cmd, echo, meta);
      }
    } else {
      var input := LateCut(f, 0, reply);
      LateCutDelivers(f, 0, reply);
      assert f[0..] == f && f[..0] == [];
      assert Delivers(input, f + reply);
      if |echo| + META_LEN <= 252 {
        LateCutFills(other, 0, reply, cmd, echo);
        LastReadsLose(other, cmd, echo, meta);
      } else {
        ReplyNeedsBytes([], input, cmd, echo);
      }
      assert Fill([], input, cmd, echo) != Some(ReadMeta(meta));
    }
  }

  lemma AloneIsRoomy(i: Item, reply: seq<byte>)
    ensures WireAll([i]) == Wire(i)
    ensures Roomy([i], reply) <==> |Wire(i)| + Share(reply) <= CAPACITY
  {
    assert [i][1..] == [] && Wire(i) + [] == Wire(i);
  }
}
