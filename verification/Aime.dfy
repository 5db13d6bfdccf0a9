/**
 * The Sega serial framing of the card reader: byte stuffing, length and checksum, the decoder
 * of `read_frame` against a batch reading of the stream, and one transaction.
 */
module Aime {
  import opened Bytes

  const START: byte := 0xE0
  const ESCAPE: byte := 0xD0

  // ----- encoding -----

  function Stuff(body: seq<byte>): seq<byte> {
    if body == [] then []
    else (if body[0] == ESCAPE || body[0] == START then [ESCAPE, Prev(body[0])] else [body[0]]) + Stuff(body[1..])
  }

  lemma {:induction false} StuffAppend(a: seq<byte>, b: seq<byte>)
    ensures Stuff(a + b) == Stuff(a) + Stuff(b)
  {
    if a == [] {
      assert a + b == b;
    } else {
      assert (a + b)[1..] == a[1..] + b;
      StuffAppend(a[1..], b);
    }
  }

  lemma StuffOne(b: byte)
    ensures Stuff([b]) == if b == ESCAPE || b == START then [ESCAPE] + [Prev(b)] else [b]
  {
    assert [b][1..] == [];
  }

  /** Start byte, then the stuffed body and checksum. */
  function Framed(body: seq<byte>): seq<byte> {
    [START] + Stuff(body + [Sum(body)])
  }

  /** Both length bytes keep only the low eight bits. */
  function RequestBody(seqNo: byte, cmd: byte, payload: seq<byte>): seq<byte> {
    [(5 + |payload|) % 256, 0, seqNo, cmd, |payload| % 256] + payload
  }

  // ----- decoding, one byte at a time -----

  datatype Decoder = Decoder(started: bool, escaped: bool, decoded: seq<byte>)

  const FRESH := Decoder(false, false, [])

  /** After a byte the decoder wants more, has a frame, or has given up on a bad checksum. */
  datatype Outcome = More(d: Decoder) | Got(frame: seq<byte>) | Bad

  predicate Complete(data: seq<byte>) {
    |data| >= 2 && |data| == data[0] as int + 1
  }

  function Verdict(data: seq<byte>): (o: Outcome)
    requires Complete(data)
    ensures !o.More?
  {
    var d := data[..|data| - 1];
    if Sum(d) == data[|data| - 1] then Got(d) else Bad
  }

  function Take(d: Decoder, b: byte): Outcome {
    if !d.started then More(if b == START then d.(started := true, decoded := []) else d)
    else if b == START then More(d.(decoded := [], escaped := false))
    else if b == ESCAPE then More(d.(escaped := true))
    else
      var data := d.decoded + [if d.escaped then Next(b) else b];
      if Complete(data) then Verdict(data) else More(Decoder(true, false, data))
  }

  function Decode(d: Decoder, w: seq<byte>): Outcome
    decreases |w|
  {
    if w == [] then More(d)
    else match Take(d, w[0])
         case More(e) => Decode(e, w[1..])
         case o => o
  }

  lemma {:induction false} DecodeAppend(d: Decoder, a: seq<byte>, b: seq<byte>)
    ensures Decode(d, a + b) == (match Decode(d, a) case More(e) => Decode(e, b) case o => o)
    decreases |a|
  {
    if a == [] {
      assert a + b == b;
    } else {
      assert (a + b)[1..] == a[1..] + b;
      match Take(d, a[0])
      case More(e) => DecodeAppend(e, a[1..], b);
      case _ =>
    }
  }

  lemma DecodeOne(d: Decoder, b: byte)
    ensures Decode(d, [b]) == Take(d, b)
  {
    assert [b][1..] == [];
  }

  // ----- decoding, read off the whole stream -----

  /** The bytes after the last start byte. */
  function Segment(w: seq<byte>): Option<seq<byte>> {
    if w == [] then None
    else if w[|w| - 1] == START then Some([])
    else match Segment(w[..|w| - 1])
         case None => None
         case Some(s) => Some(s + [w[|w| - 1]])
  }

  /** The data decoded from the current segment. */
  function Data(w: seq<byte>): seq<byte> {
    match Segment(w)
    case None => []
    case Some(s) => Unstuff(s, ESCAPE).0
  }

  function StateAfter(w: seq<byte>): Decoder {
    match Segment(w)
    case None => FRESH
    case Some(s) => Decoder(true, Unstuff(s, ESCAPE).1, Unstuff(s, ESCAPE).0)
  }

  lemma TakeFollowsBatch(w: seq<byte>, b: byte)
    requires !Complete(Data(w))
    ensures Take(StateAfter(w), b)
         == (if Complete(Data(w + [b])) then Verdict(Data(w + [b])) else More(StateAfter(w + [b])))
  {
    assert (w + [b])[..|w|] == w;
    if b != START && Segment(w).Some? {
      var s := Segment(w).value;
      UnstuffOneMore(s, b, ESCAPE);
    }
  }

  /** While no prefix of the stream completes its segment, the decoder holds exactly that segment. */
  lemma {:induction false} IncompleteMeansMore(w: seq<byte>, n: nat)
    requires n <= |w| && forall k :: 0 <= k <= n ==> !Complete(Data(w[..k]))
    ensures Decode(FRESH, w[..n]) == More(StateAfter(w[..n]))
  {
    if n > 0 {
      IncompleteMeansMore(w, n - 1);
      OneMore(w, n - 1);
    }
  }

  lemma OneMore(w: seq<byte>, n: nat)
    requires n < |w| && !Complete(Data(w[..n])) && Decode(FRESH, w[..n]) == More(StateAfter(w[..n]))
    ensures Decode(FRESH, w[..n + 1])
         == (if Complete(Data(w[..n + 1])) then Verdict(Data(w[..n + 1])) else More(StateAfter(w[..n + 1])))
  {
    hide Decode, Take, Complete, Data, Verdict, StateAfter;
    assert w[..n + 1] == w[..n] + [w[n]];
    TakeFollowsBatch(w[..n], w[n]);
    DecodeAppend(FRESH, w[..n], [w[n]]);
    DecodeOne(StateAfter(w[..n]), w[n]);
  }

  predicate FirstCompletes(w: seq<byte>, k: nat) {
    k <= |w| && Complete(Data(w[..k])) && forall j :: 0 <= j < k ==> !Complete(Data(w[..j]))
  }

  lemma NothingIsIncomplete(w: seq<byte>)
    ensures !Complete(Data(w[..0]))
  {
    assert Data(w[..0]) == [];
  }

  /** The decoder returns at the first prefix that completes its segment, with that segment's verdict. */
  lemma FirstCompletionDecides(w: seq<byte>, k: nat)
    requires FirstCompletes(w, k)
    ensures Decode(FRESH, w) == Verdict(Data(w[..k])) && k > 0 && Decode(FRESH, w[..k - 1]).More?
  {
    hide Decode, Take, Complete, Data, Verdict, StateAfter;
    NothingIsIncomplete(w);
    IncompleteMeansMore(w, k - 1);
    OneMore(w, k - 1);
    DecodeAppend(FRESH, w[..k], w[k..]);
    assert w == w[..k] + w[k..];
  }

  lemma {:induction false} SomeCompletesOrNone(w: seq<byte>, n: nat) returns (k: nat)
    requires n <= |w|
    ensures k <= n + 1
    ensures if k <= n then FirstCompletes(w, k) else forall j :: 0 <= j <= n ==> !Complete(Data(w[..j]))
  {
    if n == 0 {
      NothingIsIncomplete(w);
      k := 1;
    } else {
      k := SomeCompletesOrNone(w, n - 1);
      if k == n && !Complete(Data(w[..n])) {
        k := n + 1;
      }
    }
  }

  /**
   * Decoder soundness: a returned frame is the unstuffed bytes since the last start byte, at the
   * first moment they are complete, without the checksum; its length is its first byte, at
   * least 1, and the byte dropped is its sum. Only the stream decides, since Decode sees no chunks.
   */
  lemma DecoderIsSound(w: seq<byte>)
    requires Decode(FRESH, w).Got?
    ensures var d := Decode(FRESH, w).frame;
            && |d| >= 1 && |d| == d[0] as int
            && exists k: nat :: FirstCompletes(w, k) && Data(w[..k]) == d + [Sum(d)]
  {
    var k := SomeCompletesOrNone(w, |w|);
    assert w[..|w|] == w;
    if k > |w| {
      IncompleteMeansMore(w, |w|);
    } else {
      FirstCompletionDecides(w, k);
      VerdictIsSound(Data(w[..k]));
      hide Data, Verdict, Complete, Decode;
      assert Data(w[..k]) == Decode(FRESH, w).frame + [Sum(Decode(FRESH, w).frame)];
    }
  }

  lemma VerdictIsSound(data: seq<byte>)
    requires Complete(data) && Verdict(data).Got?
    ensures var d := Verdict(data).frame; |d| >= 1 && |d| == d[0] as int && data == d + [Sum(d)]
  {
    assert data == data[..|data| - 1] + [data[|data| - 1]];
  }

  /** And a frame is returned exactly when some prefix completes and its checksum agrees. */
  lemma DecoderIsComplete(w: seq<byte>)
    ensures Decode(FRESH, w).More? <==> forall k :: 0 <= k <= |w| ==> !Complete(Data(w[..k]))
    ensures forall k: nat :: FirstCompletes(w, k) ==> Decode(FRESH, w) == Verdict(Data(w[..k]))
  {
    hide Data, Decode;
    var k := SomeCompletesOrNone(w, |w|);
    assert w[..|w|] == w;
    if k > |w| {
      IncompleteMeansMore(w, |w|);
    } else {
      FirstCompletionDecides(w, k);
    }
    forall j: nat | FirstCompletes(w, j)
      ensures Decode(FRESH, w) == Verdict(Data(w[..j]))
    {
      FirstCompletionDecides(w, j);
    }
  }

  // ----- round trip -----

  /** A state some stream leads to without a frame having been returned. */
  ghost predicate Reached(d: Decoder) {
    exists w :: Decode(FRESH, w) == More(d)
  }

  lemma {:induction false} ReachedStatesAreTidy(d: Decoder, w: seq<byte>)
    requires !d.started ==> !d.escaped
    ensures Decode(d, w).More? ==> (!Decode(d, w).d.started ==> !Decode(d, w).d.escaped)
    decreases |w|
  {
    if w != [] && Take(d, w[0]).More? {
      ReachedStatesAreTidy(Take(d, w[0]).d, w[1..]);
    }
  }

  lemma StartResets(d: Decoder)
    requires Reached(d)
    ensures Take(d, START) == More(Decoder(true, false, []))
  {
    var w :| Decode(FRESH, w) == More(d);
    ReachedStatesAreTidy(FRESH, w);
  }

  lemma PrevNext(b: byte)
    ensures Next(Prev(b)) == b
    ensures b == ESCAPE || b == START ==> Prev(b) != START && Prev(b) != ESCAPE
  {
    assert b == 0 ==> Prev(b) == 255;
    assert b > 0 ==> Prev(b) == b - 1;
  }

  lemma TakeEscaped(a: seq<byte>, b: byte)
    requires b == ESCAPE || b == START
    ensures Take(Decoder(true, false, a), ESCAPE) == More(Decoder(true, true, a))
    ensures Take(Decoder(true, true, a), Prev(b))
         == if Complete(a + [b]) then Verdict(a + [b]) else More(Decoder(true, false, a + [b]))
  {
    hide Prev, Next, Complete, Verdict;
    PrevNext(b);
  }

  lemma TakeStuffed(a: seq<byte>, b: byte)
    ensures var o := Decode(Decoder(true, false, a), Stuff([b]));
            && o == (if Complete(a + [b]) then Verdict(a + [b]) else More(Decoder(true, false, a + [b])))
            && Decode(Decoder(true, false, a), Stuff([b])[..|Stuff([b])| - 1]).More?
  {
    var d := Decoder(true, false, a);
    StuffOne(b);
    if b == ESCAPE || b == START {
      hide Prev, Complete, Verdict, Decode, Take, Stuff;
      TakeEscaped(a, b);
      DecodeOne(d, ESCAPE);
      DecodeOne(Decoder(true, true, a), Prev(b));
      DecodeAppend(d, [ESCAPE], [Prev(b)]);
      assert ([ESCAPE] + [Prev(b)])[..1] == [ESCAPE];
    } else {
      hide Complete, Verdict, Stuff;
      DecodeOne(d, b);
      assert [b][..0] == [];
    }
  }

  lemma {:induction false} StuffedPassesThrough(a: seq<byte>, t: seq<byte>)
    requires forall j :: 0 < j <= |t| ==> !Complete(a + t[..j])
    ensures Decode(Decoder(true, false, a), Stuff(t)) == More(Decoder(true, false, a + t))
    decreases |t|
  {
    hide Take, Complete, Verdict;
    if t == [] {
      assert a + t == a;
    } else {
      assert t[..1] == [t[0]] && t == [t[0]] + t[1..];
      TakeStuffed(a, t[0]);
      StuffAppend([t[0]], t[1..]);
      DecodeAppend(Decoder(true, false, a), Stuff([t[0]]), Stuff(t[1..]));
      forall j | 0 < j <= |t[1..]|
        ensures !Complete(a + [t[0]] + t[1..][..j])
      {
        assert a + [t[0]] + t[1..][..j] == a + t[..j + 1];
      }
      StuffedPassesThrough(a + [t[0]], t[1..]);
      assert a + [t[0]] + t[1..] == a + t;
    }
  }

  lemma BodyCompletes(body: seq<byte>)
    requires |body| >= 1 && |body| == body[0] as int
    ensures forall j :: 0 < j <= |body| ==> !Complete([] + body[..j])
    ensures Complete([] + body + [Sum(body)]) && Verdict([] + body + [Sum(body)]) == Got(body)
  {
    forall j | 0 < j <= |body|
      ensures !Complete([] + body[..j])
    {
      assert [] + body[..j] == body[..j] && body[..j][0] == body[0];
    }
    assert [] + body == body && (body + [Sum(body)])[..|body|] == body;
  }

  lemma StuffedBodyReturns(body: seq<byte>)
    requires |body| >= 1 && |body| == body[0] as int
    ensures var begun, tail := Decoder(true, false, []), Stuff([Sum(body)]);
            && tail != [] && Decode(begun, Stuff(body) + tail) == Got(body)
            && Decode(begun, Stuff(body) + tail[..|tail| - 1]).More?
  {
    var begun, head, tail := Decoder(true, false, []), Stuff(body), Stuff([Sum(body)]);
    assert tail != [];
    hide Take, Complete, Verdict, Decode, Stuff, Sum;
    BodyCompletes(body);
    StuffedPassesThrough([], body);
    TakeStuffed([] + body, Sum(body));
    DecodeAppend(begun, head, tail);
    DecodeAppend(begun, head, tail[..|tail| - 1]);
  }

  /**
   * Any body whose first byte is its length comes back exactly, on the last byte and not
   * before, from any state reached so far: the start byte resynchronises the decoder.
   */
  lemma FramedRoundTrip(d: Decoder, body: seq<byte>)
    requires Reached(d) && |body| >= 1 && |body| == body[0] as int
    ensures var w := Framed(body); Decode(d, w) == Got(body) && Decode(d, w[..|w| - 1]).More?
  {
    StartResets(d);
    StuffedBodyReturns(body);
    DecodeOne(d, START);
    hide Take, Decode, Stuff;
    StuffAppend(body, [Sum(body)]);
    var t := Stuff(body + [Sum(body)]);
    DropLast([START], t);
    DropLast(Stuff(body), Stuff([Sum(body)]));
    DecodeAppend(d, [START], t);
    DecodeAppend(d, [START], t[..|t| - 1]);
  }

  /** What `encode_frame` writes is read back if and only if the length byte has not wrapped. */
  lemma RequestRoundTripsExactly(w: seq<byte>, seqNo: byte, cmd: byte, payload: seq<byte>)
    requires Decode(FRESH, w).More?
    ensures var body := RequestBody(seqNo, cmd, payload);
            var f := Framed(body);
            && (Decode(FRESH, w + f) == Got(body) <==> |payload| <= 250)
            && (|payload| <= 250 ==> Decode(FRESH, w + f[..|f| - 1]).More?)
  {
    var body := RequestBody(seqNo, cmd, payload);
    var f := Framed(body);
    if |payload| <= 250 {
      var d := Decode(FRESH, w).d;
      assert Reached(d);
      FramedRoundTrip(d, body);
      DecodeAppend(FRESH, w, f);
      DecodeAppend(FRESH, w, f[..|f| - 1]);
    } else if Decode(FRESH, w + f).Got? {
      DecoderIsSound(w + f);
    }
  }

  /** What the receiver makes of the bytes of a request, whatever it had read before without returning. */
  ghost predicate ReadsAs(encoded: seq<byte>, seqNo: byte, cmd: byte, payload: seq<byte>) {
    forall w :: Decode(FRESH, w).More? ==> IsRequest(Decode(FRESH, w + encoded), seqNo, cmd, payload)
  }

  /** A frame of five header bytes, the first its own length, and the payload. */
  predicate IsRequest(o: Outcome, seqNo: byte, cmd: byte, payload: seq<byte>) {
    && o.Got? && |o.frame| == 5 + |payload|
    && o.frame[0] == |o.frame| && o.frame[1] == 0 && o.frame[2] == seqNo && o.frame[3] == cmd
    && o.frame[4] == |payload| && o.frame[5..] == payload
  }

  lemma RequestReadsAs(seqNo: byte, cmd: byte, payload: seq<byte>)
    requires |payload| <= 250
    ensures ReadsAs(Framed(RequestBody(seqNo, cmd, payload)), seqNo, cmd, payload)
  {
    var body := RequestBody(seqNo, cmd, payload);
    hide Decode, Framed;
    forall w | Decode(FRESH, w).More?
      ensures IsRequest(Decode(FRESH, w + Framed(body)), seqNo, cmd, payload)
    {
      RequestRoundTripsExactly(w, seqNo, cmd, payload);
      assert body[5..] == payload;
    }
  }

  method EncodeFrame(seqNo: byte, cmd: byte, payload: seq<byte>) returns (encoded: seq<byte>)
    ensures encoded == Framed(RequestBody(seqNo, cmd, payload))
    ensures |payload| <= 250 ==> ReadsAs(encoded, seqNo, cmd, payload)
  {
    if |payload| <= 250 {
      RequestReadsAs(seqNo, cmd, payload);
    }
    hide ReadsAs;
    hide Stuff, Sum;
    var body: seq<byte> := [(5 + |payload|) % 256];
    body := body + [0];
    body := body + [seqNo];
    body := body + [cmd];
    body := body + [|payload| % 256];
    body := body + payload;
    assert body == RequestBody(seqNo, cmd, payload);
    var checksum := Checksum(body);
    encoded := StuffBytes(body + [checksum]);
  }

  /** The start byte, and the loop over body and checksum. */
  method StuffBytes(all: seq<byte>) returns (encoded: seq<byte>)
    ensures encoded == [START] + Stuff(all)
  {
    encoded := [START];
    assert all[..0] == [] && Stuff([]) == [];
    hide Stuff, Prev;
    for i := 0 to |all|
      invariant encoded == [START] + Stuff(all[..i])
    {
      assert all[..i + 1] == all[..i] + [all[i]];
      StuffAppend(all[..i], [all[i]]);
      StuffOne(all[i]);
      if all[i] == ESCAPE || all[i] == START {
        encoded := encoded + [ESCAPE];
        encoded := encoded + [Prev(all[i])];
      } else {
        encoded := encoded + [all[i]];
      }
    }
    assert all[..|all|] == all;
  }

  // ----- read_frame over a port that delivers chunks -----

  datatype ReadResult = Frame(frame: seq<byte>) | NoFrame | Blocked

  /** The bytes delivered before the port fails, and whether it does. */
  function Delivered(input: seq<Read>): (seq<byte>, bool) {
    if input == [] then ([], false)
    else if input[0].Failed? then ([], true)
    else var (rest, failed) := Delivered(input[1..]); (input[0].bytes + rest, failed)
  }

  /** Bytes delivered in chunks, empty ones included, are just their concatenation, up to a failure. */
  lemma {:induction false} ChunksDeliver(chunks: seq<seq<byte>>, more: seq<Read>)
    ensures var input := seq(|chunks|, i requires 0 <= i < |chunks| => Chunk(chunks[i]));
            Delivered(input + more) == (Flatten(chunks) + Delivered(more).0, Delivered(more).1)
    ensures Delivered([Failed] + more) == ([], true)
  {
    var input := seq(|chunks|, i requires 0 <= i < |chunks| => Chunk(chunks[i]));
    if chunks == [] {
      assert input + more == more && Flatten(chunks) + Delivered(more).0 == Delivered(more).0;
    } else {
      ChunksDeliver(chunks[1..], more);
      var rest := seq(|chunks| - 1, i requires 0 <= i < |chunks| - 1 => Chunk(chunks[1..][i]));
      assert (input + more)[1..] == rest + more;
      assert chunks[0] + (Flatten(chunks[1..]) + Delivered(more).0) == Flatten(chunks) + Delivered(more).0;
    }
  }

  function ResultOf(o: Outcome, failed: bool): ReadResult {
    match o
    case Got(d) => Frame(d)
    case Bad => NoFrame
    case More(_) => if failed then NoFrame else Blocked
  }

  /** The body of `read_frame`'s loop over bytes. */
  method TakeByte(d0: Decoder, b: byte) returns (o: Outcome)
    ensures o == Take(d0, b)
  {
    var d := d0;
    if !d.started {
      if b == START {
        d := d.(started := true, decoded := []);
      }
      return More(d);
    }
    if b == START {
      d := d.(decoded := [], escaped := false);
      return More(d);
    }
    if b == ESCAPE {
      d := d.(escaped := true);
      return More(d);
    }
    var value := b;
    if d.escaped {
      d := d.(escaped := false);
      value := Next(b);
    }
    d := d.(decoded := d.decoded + [value]);
    var size := |d.decoded|;
    if size >= 2 {
      if size == d.decoded[0] as int + 1 {
        var checksum := Checksum(d.decoded[..size - 1]);
        if checksum != d.decoded[size - 1] {
          return Bad;
        }
        return Got(d.decoded[..size - 1]);
      }
    }
    return More(d);
  }

  /**
   * The result depends only on the concatenated bytes delivered before a failure, however they
   * were cut into reads (empty reads included); Blocked means the call is still waiting.
   */
  method ReadFrame(input: seq<Read>) returns (r: ReadResult)
    ensures var (o, failed) := (Decode(FRESH, Delivered(input).0), Delivered(input).1);
            && r == ResultOf(o, failed)
            && (r.Frame? <==> o.Got?) && (r.Frame? ==> r.frame == o.frame)
            && (r.NoFrame? <==> o.Bad? || (o.More? && failed))
            && (r.Blocked? <==> o.More? && !failed)
  {
    hide Take;
    var d := FRESH;
    var n := 0;
    ghost var goal := ResultOf(Decode(FRESH, Delivered(input).0), Delivered(input).1);
    assert input[0..] == input;
    while n < |input|
      invariant 0 <= n <= |input|
      invariant goal == ResultOf(Decode(d, Delivered(input[n..]).0), Delivered(input[n..]).1)
    {
      ghost var rest := Delivered(input[n + 1..]);
      assert input[n..][1..] == input[n + 1..];
      if input[n].Failed? {
        return NoFrame;
      }
      var buf := input[n].bytes;
      n := n + 1;
      if |buf| == 0 {
        assert buf + rest.0 == rest.0;
        continue;
      }
      assert buf[0..] == buf;
      for i := 0 to |buf|
        invariant goal == ResultOf(Decode(d, buf[i..] + rest.0), rest.1)
      {
        assert (buf[i..] + rest.0)[0] == buf[i] && (buf[i..] + rest.0)[1..] == buf[i + 1..] + rest.0;
        var o := TakeByte(d, buf[i]);
        match o
        case Bad => return NoFrame;
        case Got(frame) => return Frame(frame);
        case More(e) => d := e;
      }
      assert buf[|buf|..] + rest.0 == rest.0;
    }
    return Blocked;
  }

  // ----- one transaction -----

  datatype Reply = Ok(status: byte, payload: seq<byte>) | Fail | Waiting

  /** `transact`'s reading of a response body. */
  function Slice(response: seq<byte>): Reply {
    if |response| < 6 then Fail
    else if |response| < 6 + response[5] as int then Fail
    else Ok(response[4], response[6..6 + response[5] as int])
  }

  /** A reply is Ok exactly when the response carries its status, its length and its payload in their places. */
  lemma SliceExactly(response: seq<byte>, status: byte, payload: seq<byte>)
    ensures Slice(response) == Ok(status, payload)
            <==> |payload| <= 255 && |response| >= 6 + |payload| && response[4] == status && response[5] == |payload|
                 && response[6..6 + |payload|] == payload
  {
  }

  function ResponseBody(addr: byte, seqNo: byte, cmd: byte, status: byte, payload: seq<byte>): seq<byte>
    requires |payload| <= 249
  {
    [6 + |payload|, addr, seqNo, cmd, status, |payload|] + payload
  }

  datatype World = World(connects: bool, writes: bool, input: seq<Read>)

  class Reader {
    var seqNo: byte
    var open: bool

    constructor ()
      ensures seqNo == 0 && !open
    {
      seqNo, open := 0, false;
    }

    method Transact(cmd: byte, payload: seq<byte>, w: World) returns (reply: Reply, sent: Option<seq<byte>>)
      modifies this
      ensures !old(open) && !w.connects ==> reply == Fail && sent == None && seqNo == old(seqNo) && !open
      ensures old(open) || w.connects ==>
                && sent == Some(Framed(RequestBody(old(seqNo), cmd, payload)))
                && (|payload| <= 250 ==> ReadsAs(sent.value, old(seqNo), cmd, payload))
                && seqNo == (old(seqNo) + 1) % 256
                && var (o, failed) := (Decode(FRESH, Delivered(w.input).0), Delivered(w.input).1);
                   var r := ResultOf(o, failed);
                   && (!w.writes || o.Bad? || (o.More? && failed) ==> reply == Fail && !open)
                   && (w.writes && o.More? && !failed ==> reply == Waiting && open)
                   && (w.writes && o.Got? ==> reply == Slice(o.frame) && open)
                   && open == (w.writes && !r.NoFrame?)
                   && reply == if !w.writes || r.NoFrame? then Fail else if r.Blocked? then Waiting else Slice(r.frame)
    {
      hide ReadsAs;
      if !open {
        if !w.connects {
          return Fail, None;
        }
        open := true;
      }
      var frame := EncodeFrame(seqNo, cmd, payload);
      sent := Some(frame);
      seqNo := (seqNo + 1) % 256;
      if !w.writes {
        open := false;
        return Fail, sent;
      }
      var r := ReadFrame(w.input);
      match r
      case NoFrame =>
        open := false;
        reply := Fail;
      case Blocked =>
        reply := Waiting;
      case Frame(response) =>
        if |response| < 6 {
          return Fail, sent;
        }
        var status, size := response[4], response[5] as int;
        if |response| < 6 + size {
          return Fail, sent;
        }
        reply := Ok(status, response[6..6 + size]);
    }
  }

  /**
   * End to end: a device response, after any noise that completes no frame and before anything
   * else, cut into reads in any way, makes the transaction return its status and payload.
   */
  lemma ResponseArrives(input: seq<Read>, noise: seq<byte>, more: seq<byte>,
                        addr: byte, seqNo: byte, cmd: byte, status: byte, payload: seq<byte>)
    requires |payload| <= 249 && Decode(FRESH, noise).More?
    requires Delivered(input).0 == noise + Framed(ResponseBody(addr, seqNo, cmd, status, payload)) + more
    ensures var r := ResultOf(Decode(FRESH, Delivered(input).0), Delivered(input).1);
            r.Frame? && Slice(r.frame) == Ok(status, payload)
  {
    var body := ResponseBody(addr, seqNo, cmd, status, payload);
    var d := Decode(FRESH, noise).d;
    assert Reached(d);
    FramedRoundTrip(d, body);
    DecodeAppend(FRESH, noise, Framed(body));
    DecodeAppend(FRESH, noise + Framed(body), more);
    assert body[6..6 + |payload|] == payload;
  }
}
