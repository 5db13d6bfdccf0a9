/**
 * The mai2 receive path: `try_parse_frame` and `consume` on a buffer shifted in place,
 * the byte-at-a-time loop of `serial_reader_thread`, and the pure parser both refine.
 */
module Mai2Frames {
  import opened Bytes

  const STATUS_SIZE := 14
  const BRACKET_SIZE := 9
  const RX_CAPACITY := 512

  datatype Frame =
    | Touch(buttons: Option<byte>, ioStatus: Option<byte>, touch: seq<byte>)
    | BoardInfo(version: Option<seq<byte>>)  // None stands for "unknown"

  /** What the head of the buffer calls for: more bytes, dropping one byte, or taking a frame. */
  datatype Decision = Wait | Skip | Take(frame: Frame, size: nat)

  function ParseBoardInfo(data: seq<byte>): Option<seq<byte>> {
    if data == [] then None
    else if data[0] == 0 || data[0] + 1 > |data| then None
    else Some(data[1..1 + data[0]])
  }

  /** The frame in a 14-byte status message: two button nibbles, six io bits, seven touch bytes. */
  function StatusFrame(raw: seq<byte>): Frame
    requires |raw| >= STATUS_SIZE
  {
    Touch(Some(raw[3] % 16 + raw[4] / 16 * 16), Some(raw[5] % 64), raw[6..13])
  }

  function DecideStatus(s: seq<byte>): (d: Decision)
    ensures d.Take? ==> 0 < d.size <= |s|
  {
    if |s| < STATUS_SIZE then Wait
    else if s[13] == Sum(s[..13]) then Take(StatusFrame(s), STATUS_SIZE)
    else Skip
  }

  function DecideInfo(s: seq<byte>, cap: nat): (d: Decision)
    requires |s| >= 3
    ensures d.Take? ==> 0 < d.size <= |s|
  {
    var total: nat := 3 + s[2] as int + 1;
    if total > cap then Skip
    else if |s| < total then Wait
    else Take(BoardInfo(ParseBoardInfo(s[3..3 + s[2]])), total)
  }

  function DecideBracket(s: seq<byte>): (d: Decision)
    ensures d.Take? ==> 0 < d.size <= |s|
  {
    if |s| < BRACKET_SIZE then Wait
    else if s[8] == 0x29 then Take(Touch(None, None, s[1..8]), BRACKET_SIZE)
    else Skip
  }

  /** One turn of the parse loop on the live bytes `s` of a buffer of `cap` bytes. */
  function Decide(s: seq<byte>, cap: nat): (d: Decision)
    ensures d.Skip? ==> s != []
    ensures d.Take? ==> 0 < d.size <= |s|
  {
    if s == [] then Wait
    else if s[0] == 0xFF then
      if |s| < 3 then Wait
      else if s[1] == 0x01 && (s[2] == 0x0A || s[2] == 0x00) then DecideStatus(s)
      else if s[1] == 0xF0 then DecideInfo(s, cap)
      else Skip
    else if s[0] == 0x28 then DecideBracket(s)
    else Skip
  }

  /** Everything a byte string parses to, and the bytes left waiting. */
  datatype Parse = Parse(frames: seq<Frame>, rest: seq<byte>) {
    function After(earlier: seq<Frame>): Parse {
      Parse(earlier + frames, rest)
    }
  }

  lemma AfterTwice(p: Parse, a: seq<Frame>, b: seq<Frame>)
    ensures p.After(b).After(a) == p.After(a + b)
  {
    assert a + (b + p.frames) == (a + b) + p.frames;
  }

  function ParseAll(s: seq<byte>, cap: nat): Parse
    decreases |s|
  {
    match Decide(s, cap)
    case Wait => Parse([], s)
    case Skip => ParseAll(s[1..], cap)
    case Take(f, n) => ParseAll(s[n..], cap).After([f])
  }

  /** What one `try_parse_frame` call returns and leaves. */
  function ParseNext(s: seq<byte>, cap: nat): (Option<Frame>, seq<byte>)
    decreases |s|
  {
    match Decide(s, cap)
    case Wait => (None, s)
    case Skip => ParseNext(s[1..], cap)
    case Take(f, n) => (Some(f), s[n..])
  }

  lemma NextUnfolds(s: seq<byte>, cap: nat)
    ensures ParseNext(s, cap) == match Decide(s, cap)
                                 case Wait => (None, s)
                                 case Skip => ParseNext(s[1..], cap)
                                 case Take(f, n) => (Some(f), s[n..])
  {
  }

  /** Calling until None, as both readers do, drains exactly ParseAll. */
  lemma {:induction false} NextDrains(s: seq<byte>, cap: nat)
    ensures var (f, r) := ParseNext(s, cap);
            && |r| <= |s|
            && (f.Some? ==> |r| < |s| && ParseAll(s, cap) == ParseAll(r, cap).After([f.value]))
            && (f.None? ==> Decide(r, cap).Wait? && ParseAll(s, cap) == Parse([], r))
    decreases |s|
  {
    if Decide(s, cap).Skip? {
      NextDrains(s[1..], cap);
    }
  }

  // ----- what bytes to come cannot change -----

  lemma DecideIsStable(a: seq<byte>, b: seq<byte>, cap: nat)
    requires !Decide(a, cap).Wait?
    ensures Decide(a + b, cap) == Decide(a, cap)
  {
    var s := a + b;
    assert forall i :: 0 <= i < |a| ==> s[i] == a[i];
    if a[0] == 0xFF && |a| >= STATUS_SIZE {
      assert s[..13] == a[..13] && s[6..13] == a[6..13];
    }
    if a[0] == 0xFF && a[1] == 0xF0 && 4 + a[2] <= |a| {
      assert s[3..3 + a[2]] == a[3..3 + a[2]];
    }
    if a[0] == 0x28 && |a| >= BRACKET_SIZE {
      assert s[1..8] == a[1..8];
    }
  }

  /** The append law: parsing `a + b` is parsing `a`, then what it left over followed by `b`. */
  lemma {:induction false} ParseAppend(a: seq<byte>, b: seq<byte>, cap: nat)
    ensures var p := ParseAll(a, cap);
            ParseAll(a + b, cap) == ParseAll(p.rest + b, cap).After(p.frames)
    decreases |a|
  {
    hide Decide;
    match Decide(a, cap)
    case Wait =>
      assert [] + ParseAll(a + b, cap).frames == ParseAll(a + b, cap).frames;
    case Skip =>
      DecideIsStable(a, b, cap);
      assert (a + b)[1..] == a[1..] + b;
      ParseAppend(a[1..], b, cap);
    case Take(f, n) =>
      DecideIsStable(a, b, cap);
      assert (a + b)[n..] == a[n..] + b;
      ParseAppend(a[n..], b, cap);
      var p := ParseAll(a[n..], cap);
      AfterTwice(ParseAll(p.rest + b, cap), [f], p.frames);
  }

  lemma {:induction false} RestWaits(s: seq<byte>, cap: nat)
    ensures Decide(ParseAll(s, cap).rest, cap).Wait?
    decreases |s|
  {
    match Decide(s, cap)
    case Wait =>
    case Skip => RestWaits(s[1..], cap);
    case Take(_, n) => RestWaits(s[n..], cap);
  }

  lemma WaitingIsShort(s: seq<byte>, cap: nat)
    requires Decide(s, cap).Wait?
    ensures |s| <= 258
  {
  }

  /** At most 258 bytes ever wait, so a 512-byte receive buffer never overflows. */
  lemma ResidualIsBounded(s: seq<byte>, cap: nat)
    ensures |ParseAll(s, cap).rest| <= 258
  {
    RestWaits(s, cap);
    WaitingIsShort(ParseAll(s, cap).rest, cap);
  }

  /** The frames got by parsing chunk after chunk, carrying the residual along. */
  function ParseChunks(live: seq<byte>, chunks: seq<seq<byte>>, cap: nat): Parse
    decreases |chunks|
  {
    if chunks == [] then Parse([], live)
    else
      var p := ParseAll(live + chunks[0], cap);
      ParseChunks(p.rest, chunks[1..], cap).After(p.frames)
  }

  /** Chunking independence: however a stream is cut up, the frames and the residual are the same. */
  lemma {:induction false} ChunkingIsIrrelevant(live: seq<byte>, chunks: seq<seq<byte>>, cap: nat)
    requires Decide(live, cap).Wait?
    ensures ParseChunks(live, chunks, cap) == ParseAll(live + Flatten(chunks), cap)
    decreases |chunks|
  {
    hide Decide;
    if chunks == [] {
      assert live + Flatten(chunks) == live;
    } else {
      var p := ParseAll(live + chunks[0], cap);
      RestWaits(live + chunks[0], cap);
      hide ParseAll;
      ChunkingIsIrrelevant(p.rest, chunks[1..], cap);
      ParseAppend(live + chunks[0], Flatten(chunks[1..]), cap);
      assert live + Flatten(chunks) == live + chunks[0] + Flatten(chunks[1..]);
    }
  }

  // ----- conservation -----

  datatype Token = Dropped(b: byte) | Parsed(raw: seq<byte>, frame: Frame)

  function Tokens(s: seq<byte>, cap: nat): seq<Token>
    decreases |s|
  {
    match Decide(s, cap)
    case Wait => []
    case Skip => [Dropped(s[0])] + Tokens(s[1..], cap)
    case Take(f, n) => [Parsed(s[..n], f)] + Tokens(s[n..], cap)
  }

  function TokenBytes(ts: seq<Token>): seq<byte> {
    if ts == [] then []
    else (if ts[0].Dropped? then [ts[0].b] else ts[0].raw) + TokenBytes(ts[1..])
  }

  function TokenFrames(ts: seq<Token>): seq<Frame> {
    if ts == [] then []
    else (if ts[0].Dropped? then [] else [ts[0].frame]) + TokenFrames(ts[1..])
  }

  lemma TokensUnfold(t: Token, ts: seq<Token>)
    ensures TokenBytes([t] + ts) == (if t.Dropped? then [t.b] else t.raw) + TokenBytes(ts)
    ensures TokenFrames([t] + ts) == (if t.Dropped? then [] else [t.frame]) + TokenFrames(ts)
  {
    assert ([t] + ts)[1..] == ts;
  }

  /**
   * No byte is lost, repeated or read twice: the input is the concatenation of the bytes
   * of the emitted frames, the individually skipped bytes and the residual, in order.
   */
  lemma {:induction false} Conservation(s: seq<byte>, cap: nat)
    ensures TokenBytes(Tokens(s, cap)) + ParseAll(s, cap).rest == s
    decreases |s|
  {
    hide Decide;
    match Decide(s, cap)
    case Wait =>
    case Skip =>
      Conservation(s[1..], cap);
      TokensUnfold(Dropped(s[0]), Tokens(s[1..], cap));
      Regroup([s[0]], TokenBytes(Tokens(s[1..], cap)), ParseAll(s, cap).rest, s);
    case Take(f, n) =>
      Conservation(s[n..], cap);
      TokensUnfold(Parsed(s[..n], f), Tokens(s[n..], cap));
      Regroup(s[..n], TokenBytes(Tokens(s[n..], cap)), ParseAll(s, cap).rest, s);
  }

  lemma Regroup(a: seq<byte>, b: seq<byte>, c: seq<byte>, s: seq<byte>)
    requires |a| <= |s| && a == s[..|a|] && b + c == s[|a|..]
    ensures a + b + c == s
  {
    assert a + b + c == a + (b + c);
  }

  /** The frames emitted are those of the tokens, and each token's own bytes are exactly its frame. */
  lemma {:induction false} TokensAreFrames(s: seq<byte>, cap: nat)
    ensures TokenFrames(Tokens(s, cap)) == ParseAll(s, cap).frames
    ensures forall t :: t in Tokens(s, cap) && t.Parsed? ==> Decide(t.raw, cap) == Take(t.frame, |t.raw|)
    decreases |s|
  {
    hide Decide;
    match Decide(s, cap)
    case Wait =>
    case Skip =>
      TokensAreFrames(s[1..], cap);
      TokensUnfold(Dropped(s[0]), Tokens(s[1..], cap));
    case Take(f, n) =>
      TokensAreFrames(s[n..], cap);
      TokensUnfold(Parsed(s[..n], f), Tokens(s[n..], cap));
      TakenBytesSuffice(s, cap);
  }

  lemma TakenBytesSuffice(s: seq<byte>, cap: nat)
    requires Decide(s, cap).Take?
    ensures var n := Decide(s, cap).size; Decide(s[..n], cap) == Decide(s, cap)
  {
    var n := Decide(s, cap).size;
    var raw := s[..n];
    if n == STATUS_SIZE && s[1] == 0x01 {
      assert raw[..13] == s[..13] && raw[6..13] == s[6..13];
    } else if s[0] == 0xFF {
      var end: nat := 3 + s[2] as int;
      assert end < n && raw[2] == s[2];
      assert raw[3..end] == s[3..end];
    } else {
      assert raw[1..8] == s[1..8];
    }
  }

  // ----- round trip -----

  /** A line item: a message some device may send, or a byte of noise. */
  datatype Item =
    | Status(payload: seq<byte>)
    | BareStatus(payload: seq<byte>)  // the same message with a zero length byte
    | Info(payload: seq<byte>)
    | Bracketed(touch: seq<byte>)
    | Noise(b: byte)

  ghost predicate WellFormed(i: Item) {
    match i
    case Status(p) => |p| == 10
    case BareStatus(p) => |p| == 10
    case Info(p) => |p| <= 255
    case Bracketed(t) => |t| == 7
    case Noise(b) => b != 0xFF && b != 0x28
  }

  function Wire(i: Item): seq<byte> {
    match i
    case Status(p) => SumFrame(0x01, p)
    case BareStatus(p) => [0xFF, 0x01, 0x00] + p + [Sum([0xFF, 0x01, 0x00] + p)]
    case Info(p) => SumFrame(0xF0, p)
    case Bracketed(t) => [0x28] + t + [0x29]
    case Noise(b) => [b]
  }

  /** The low nibble of the first byte, the high nibble of the second, six io bits, seven touch bytes. */
  function StatusOf(p: seq<byte>): Frame
    requires |p| == 10
  {
    Touch(Some(p[0] % 16 + p[1] / 16 * 16), Some(p[2] % 64), p[3..10])
  }

  function Meaning(i: Item): seq<Frame>
    requires WellFormed(i)
  {
    match i
    case Status(p) => [StatusOf(p)]
    case BareStatus(p) => [StatusOf(p)]
    case Info(p) => [BoardInfo(ParseBoardInfo(p))]
    case Bracketed(t) => [Touch(None, None, t)]
    case Noise(_) => []
  }

  function WireAll(items: seq<Item>): seq<byte> {
    if items == [] then [] else Wire(items[0]) + WireAll(items[1..])
  }

  function MeaningAll(items: seq<Item>): seq<Frame>
    requires forall i :: i in items ==> WellFormed(i)
  {
    if items == [] then [] else Meaning(items[0]) + MeaningAll(items[1..])
  }

  /** A status message is taken if and only if its last byte is the sum of the others; else one byte is skipped. */
  lemma StatusChecksumDecides(size: byte, p: seq<byte>, c: byte, cap: nat)
    requires |p| == 10 && (size == 0x0A || size == 0x00)
    ensures var head := [0xFF, 0x01, size] + p;
            Decide(head + [c], cap) == if c == Sum(head) then Take(StatusOf(p), STATUS_SIZE) else Skip
  {
    hide Sum;
    var head := [0xFF, 0x01, size] + p;
    var w := head + [c];
    assert w[..13] == head && w[6..13] == p[3..10];
    assert w[3] == p[0] && w[4] == p[1] && w[5] == p[2];
  }

  /** A board-info message is taken whatever its last byte is: the parser does not check the sum. */
  lemma InfoChecksumIsIgnored(p: seq<byte>, c: byte, tail: seq<byte>, cap: nat)
    requires |p| <= 255 && cap >= 259
    ensures var w := [0xFF, 0xF0, |p|] + p + [c];
            && Decide(w, cap) == Take(BoardInfo(ParseBoardInfo(p)), |p| + 4)
            && ParseAll(w + tail, cap) == ParseAll(tail, cap).After([BoardInfo(ParseBoardInfo(p))])
  {
    hide ParseBoardInfo;
    var w := [0xFF, 0xF0, |p|] + p + [c];
    assert w[3..3 + |p|] == p;
    DecideIsStable(w, tail, cap);
    hide Decide;
    assert (w + tail)[|w|..] == tail;
  }

  lemma BracketParses(t: seq<byte>, cap: nat)
    requires |t| == 7
    ensures Decide([0x28] + t + [0x29], cap) == Take(Touch(None, None, t), BRACKET_SIZE)
  {
    assert ([0x28] + t + [0x29])[1..8] == t;
  }

  lemma StatusItemParses(size: byte, p: seq<byte>, w: seq<byte>, cap: nat)
    requires |p| == 10 && (size == 0x0A || size == 0x00)
    requires w == [0xFF, 0x01, size] + p + [Sum([0xFF, 0x01, size] + p)]
    ensures Decide(w, cap) == Take(StatusOf(p), STATUS_SIZE) && |w| == STATUS_SIZE
  {
    hide Decide, Sum, StatusOf;
    StatusChecksumDecides(size, p, Sum([0xFF, 0x01, size] + p), cap);
  }

  lemma InfoItemParses(p: seq<byte>, cap: nat)
    requires |p| <= 255 && cap >= 259
    ensures Decide(SumFrame(0xF0, p), cap) == Take(BoardInfo(ParseBoardInfo(p)), |p| + 4)
    ensures |SumFrame(0xF0, p)| == |p| + 4
  {
    hide Decide, Sum, ParseBoardInfo, ParseAll;
    InfoChecksumIsIgnored(p, Sum([0xFF, 0xF0, |p|] + p), [], cap);
  }

  lemma ItemParses(i: Item, cap: nat)
    requires WellFormed(i) && cap >= 259
    ensures Decide(Wire(i), cap) == if i.Noise? then Skip else Take(Meaning(i)[0], |Wire(i)|)
  {
    match i
    case Status(p) =>
      hide Decide, Sum, StatusOf;
      StatusItemParses(0x0A, p, Wire(i), cap);
    case BareStatus(p) =>
      hide Decide, Sum, StatusOf;
      StatusItemParses(0x00, p, Wire(i), cap);
    case Info(p) =>
      hide Decide, SumFrame, ParseBoardInfo;
      InfoItemParses(p, cap);
    case Bracketed(t) =>
      hide Decide;
      BracketParses(t, cap);
    case Noise(_) =>
  }

  /**
   * Any well-formed messages, with noise between them, parse to exactly those messages in
   * order, with whatever follows parsed as if it had arrived on its own.
   */
  lemma {:induction false} StreamRoundTrip(items: seq<Item>, tail: seq<byte>, cap: nat)
    requires cap >= 259 && forall i :: i in items ==> WellFormed(i)
    ensures ParseAll(WireAll(items) + tail, cap) == ParseAll(tail, cap).After(MeaningAll(items))
    decreases |items|
  {
    hide Decide;
    if items == [] {
      assert WireAll(items) + tail == tail;
    } else {
      var w, rest := Wire(items[0]), WireAll(items[1..]) + tail;
      assert WireAll(items) + tail == w + rest;
      ItemParses(items[0], cap);
      DecideIsStable(w, rest, cap);
      assert (w + rest)[|w|..] == rest;
      StreamRoundTrip(items[1..], tail, cap);
      AfterTwice(ParseAll(tail, cap), Meaning(items[0]), MeaningAll(items[1..]));
    }
  }

  lemma StreamRoundTripFromEmpty(items: seq<Item>)
    requires forall i :: i in items ==> WellFormed(i)
    ensures ParseAll(WireAll(items), RX_CAPACITY) == Parse(MeaningAll(items), [])
  {
    StreamRoundTrip(items, [], RX_CAPACITY);
    assert WireAll(items) + [] == WireAll(items);
  }

  lemma OneInfo(p: seq<byte>, cap: nat)
    ensures WireAll([Info(p)]) + [] == SumFrame(0xF0, p) && ParseAll([], cap) == Parse([], [])
    ensures |p| <= 255 ==> MeaningAll([Info(p)]) == [BoardInfo(ParseBoardInfo(p))]
  {
    hide SumFrame, ParseBoardInfo;
    assert [Info(p)][1..] == [];
    assert WireAll([Info(p)]) == SumFrame(0xF0, p) + [];
  }

  /** A board-info payload that starts with the length of a text yields that text, whatever pads it. */
  lemma VersionIsRead(text: seq<byte>, pad: seq<byte>, cap: nat)
    requires 1 <= |text| && |text| + |pad| <= 254 && cap >= 259
    ensures ParseAll(SumFrame(0xF0, [|text|] + text + pad), cap) == Parse([BoardInfo(Some(text))], [])
  {
    var p: seq<byte> := [|text|] + text + pad;
    assert p[1..1 + |text|] == text;
    hide SumFrame, ParseAll;
    StreamRoundTrip([Info(p)], [], cap);
    OneInfo(p, cap);
  }

  // ----- the converse: which bytes are a message, which may become one, and which are dropped -----

  /** `w` spells the message `i`; the last byte of board info may be anything, for it is not checked. */
  ghost predicate Spells(w: seq<byte>, i: Item) {
    WellFormed(i) && !i.Noise? && |w| == |Wire(i)|
    && if i.Info? then w[..|w| - 1] == Wire(i)[..|w| - 1] else w == Wire(i)
  }

  ghost predicate StartsWith(s: seq<byte>, n: nat, i: Item) {
    n <= |s| && Spells(s[..n], i)
  }

  ghost predicate StartsMessage(s: seq<byte>) {
    exists n: nat, i: Item :: StartsWith(s, n, i)
  }

  /** Some bytes to come would make the whole a message. */
  ghost predicate Completes(s: seq<byte>, x: seq<byte>, i: Item) {
    x != [] && Spells(s + x, i)
  }

  ghost predicate MayBecomeMessage(s: seq<byte>) {
    exists x: seq<byte>, i: Item :: Completes(s, x, i)
  }

  lemma SpelledIsTaken(w: seq<byte>, i: Item, cap: nat)
    requires Spells(w, i) && cap >= 259
    ensures Decide(w, cap) == Take(Meaning(i)[0], |w|)
  {
    match i
    case Info(p) =>
      hide Decide, ParseBoardInfo, ParseAll, Sum;
      InfoWire(p);
      InfoChecksumIsIgnored(p, w[|w| - 1], [], cap);
      assert w == w[..|w| - 1] + [w[|w| - 1]];
    case _ =>
      hide Decide, Wire, Meaning;
      ItemParses(i, cap);
  }

  lemma InfoWire(p: seq<byte>)
    requires |p| <= 255
    ensures var w := Wire(Info(p)); |w| == |p| + 4 && w[..|w| - 1] == [0xFF, 0xF0, |p|] + p
  {
    hide Sum;
  }

  lemma StatusIsSpelled(w: seq<byte>)
    requires |w| == STATUS_SIZE && w[0] == 0xFF && w[1] == 0x01 && (w[2] == 0x0A || w[2] == 0x00)
    requires w[13] == Sum(w[..13])
    ensures var i := if w[2] == 0x0A then Status(w[3..13]) else BareStatus(w[3..13]);
            Spells(w, i) && Meaning(i) == [StatusFrame(w)]
  {
    hide Sum;
    var p := w[3..13];
    assert w[..13] == [0xFF, 0x01, w[2]] + p;
    assert w == w[..13] + [w[13]];
    assert p[3..10] == w[6..13];
  }

  lemma InfoIsSpelled(w: seq<byte>)
    requires |w| >= 4 && w[0] == 0xFF && w[1] == 0xF0 && |w| == w[2] as int + 4
    ensures Spells(w, Info(w[3..|w| - 1])) && Meaning(Info(w[3..|w| - 1])) == [BoardInfo(ParseBoardInfo(w[3..|w| - 1]))]
  {
    hide Wire, ParseBoardInfo;
    InfoWire(w[3..|w| - 1]);
    assert w[..|w| - 1] == [0xFF, 0xF0, w[2]] + w[3..|w| - 1];
  }

  lemma BracketIsSpelled(w: seq<byte>)
    requires |w| == BRACKET_SIZE && w[0] == 0x28 && w[8] == 0x29
    ensures Spells(w, Bracketed(w[1..8])) && Meaning(Bracketed(w[1..8])) == [Touch(None, None, w[1..8])]
  {
    assert w == [0x28] + w[1..8] + [0x29];
  }

  /** What the parser takes is a message, and the frame is what that message means. */
  lemma TakenIsMessage(s: seq<byte>, cap: nat) returns (i: Item)
    requires Decide(s, cap).Take?
    ensures var n := Decide(s, cap).size; StartsWith(s, n, i) && Meaning(i) == [Decide(s, cap).frame]
  {
    var n := Decide(s, cap).size;
    var w := s[..n];
    TakenBytesSuffice(s, cap);
    if w[0] == 0x28 {
      i := Bracketed(w[1..8]);
      BracketIsSpelled(w);
    } else if w[1] == 0x01 {
      i := if w[2] == 0x0A then Status(w[3..13]) else BareStatus(w[3..13]);
      hide Spells, Meaning;
      assert w[..13] == s[..13];
      StatusIsSpelled(w);
    } else {
      i := Info(w[3..|w| - 1]);
      hide Spells, Meaning;
      InfoIsSpelled(w);
    }
  }

  lemma StartedIsTaken(s: seq<byte>, n: nat, i: Item, cap: nat)
    requires StartsWith(s, n, i) && cap >= 259
    ensures Decide(s, cap) == Take(Meaning(i)[0], n)
  {
    hide Decide, Spells, Meaning;
    SpelledIsTaken(s[..n], i, cap);
    DecideIsStable(s[..n], s[n..], cap);
    assert s == s[..n] + s[n..];
  }

  /** Part of a message waits for the rest. */
  lemma PartWaits(s: seq<byte>, x: seq<byte>, i: Item, cap: nat)
    requires Completes(s, x, i) && cap >= 259
    ensures Decide(s, cap).Wait?
  {
    hide Decide, Spells, Meaning;
    SpelledIsTaken(s + x, i, cap);
    if !Decide(s, cap).Wait? {
      DecideIsStable(s, x, cap);
      TakeFits(s, cap);
    }
  }

  lemma TakeFits(s: seq<byte>, cap: nat)
    ensures Decide(s, cap).Take? ==> Decide(s, cap).size <= |s|
  {
  }

  /** Bytes that make a waiting buffer a message. */
  function Filling(s: seq<byte>): (x: seq<byte>) {
    if s == [] then []
    else if s[0] == 0x28 && |s| < BRACKET_SIZE then seq(BRACKET_SIZE - 1 - |s|, _ => 0) + [0x29]
    else if s[0] == 0xFF && |s| >= 3 && s[1] == 0x01 && |s| < STATUS_SIZE then
      var pad := seq(STATUS_SIZE - 1 - |s|, _ => 0);
      pad + [Sum(s + pad)]
    else if s[0] == 0xFF && |s| >= 3 && s[1] == 0xF0 && |s| < s[2] as int + 4 then seq(s[2] as int + 4 - |s|, _ => 0)
    else []
  }

  lemma WaitingMayComplete(s: seq<byte>, cap: nat) returns (i: Item)
    requires Decide(s, cap).Wait? && s != [] && (|s| >= 3 || s[0] == 0x28)
    ensures Completes(s, Filling(s), i)
  {
    var w := s + Filling(s);
    if s[0] == 0x28 {
      i := Bracketed(w[1..8]);
      BracketIsSpelled(w);
    } else if s[1] == 0x01 {
      i := if w[2] == 0x0A then Status(w[3..13]) else BareStatus(w[3..13]);
      hide Spells, Sum;
      assert w[..13] == s + seq(STATUS_SIZE - 1 - |s|, _ => 0);
      StatusIsSpelled(w);
    } else {
      i := Info(w[3..|w| - 1]);
      hide Spells;
      InfoIsSpelled(w);
    }
  }

  /**
   * The parser's choice, exactly: it takes where a message starts, and waits where there is less
   * than a header or the bytes so far may become a message; everywhere else it drops one byte.
   */
  lemma DecideExactly(s: seq<byte>, cap: nat)
    requires cap >= 259
    ensures Decide(s, cap).Take? <==> StartsMessage(s)
    ensures Decide(s, cap).Wait? <==> s == [] || (s[0] == 0xFF && |s| < 3) || MayBecomeMessage(s)
  {
    if Decide(s, cap).Take? {
      var i := TakenIsMessage(s, cap);
    }
    if n: nat, i: Item :| StartsWith(s, n, i) {
      StartedIsTaken(s, n, i, cap);
    }
    if x: seq<byte>, i: Item :| Completes(s, x, i) {
      PartWaits(s, x, i, cap);
    }
    if Decide(s, cap).Wait? && s != [] && (|s| >= 3 || s[0] == 0x28) {
      var i := WaitingMayComplete(s, cap);
    }
  }

  /** The input still to be read when token `k` is. */
  function Unread(s: seq<byte>, cap: nat, k: nat): seq<byte>
    requires k <= |Tokens(s, cap)|
  {
    TokenBytes(Tokens(s, cap)[k..]) + ParseAll(s, cap).rest
  }

  /**
   * Every frame comes from bytes that spell a message with that meaning, and a byte is dropped
   * only where no message starts, nor could with any bytes to come.
   */
  lemma {:induction false} TokensAreMessages(s: seq<byte>, cap: nat, k: nat)
    requires cap >= 259 && k < |Tokens(s, cap)|
    ensures var t := Tokens(s, cap)[k];
            if t.Parsed? then exists i :: Spells(t.raw, i) && Meaning(i) == [t.frame]
            else !StartsMessage(Unread(s, cap, k)) && !MayBecomeMessage(Unread(s, cap, k))
    decreases |s|
  {
    hide Decide, Spells, StartsMessage, MayBecomeMessage, Meaning;
    var ts := Tokens(s, cap);
    if k == 0 {
      Conservation(s, cap);
      assert ts[0..] == ts;
      DecideExactly(s, cap);
      if Decide(s, cap).Take? {
        var i := TakenIsMessage(s, cap);
      }
    } else {
      var n := if Decide(s, cap).Skip? then 1 else Decide(s, cap).size;
      LaterTokens(s, cap);
      assert ts[1..][k - 1..] == ts[k..];
      TokensAreMessages(s[n..], cap, k - 1);
    }
  }

  lemma LaterTokens(s: seq<byte>, cap: nat)
    requires !Decide(s, cap).Wait?
    ensures var n := if Decide(s, cap).Skip? then 1 else Decide(s, cap).size;
            && 0 < n <= |s| && Tokens(s, cap) != [] && Tokens(s, cap)[1..] == Tokens(s[n..], cap)
            && ParseAll(s, cap).rest == ParseAll(s[n..], cap).rest
  {
    hide DecideStatus, DecideInfo, DecideBracket;
  }

  /** The version is read from exactly the payloads that start with a nonempty text and its length. */
  lemma VersionIsReadExactly(p: seq<byte>, text: seq<byte>)
    ensures ParseBoardInfo(p) == Some(text)
            <==> 1 <= |text| <= 255 && |p| > |text| && p[0] == |text| && p[1..1 + |text|] == text
  {
  }

  // ----- the code that works in place -----

  /** Drops `count` bytes from the live prefix by moving the rest to the front. */
  method Consume(rx: array<byte>, rxLen: nat, count: nat) returns (left: nat)
    requires rxLen <= rx.Length
    modifies rx
    ensures left == if count >= rxLen then 0 else rxLen - count
    ensures rx[..left] == if count >= rxLen then [] else old(rx[..rxLen])[count..]
  {
    if count >= rxLen {
      return 0;
    }
    forall i | 0 <= i < rxLen - count {
      rx[i] := rx[i + count];
    }
    left := rxLen - count;
  }

  /** A part of the live prefix is that part of the array. */
  lemma LivePart(rx: array<byte>, left: nat, a: nat, b: nat)
    requires a <= b <= left <= rx.Length
    ensures rx[..left][a..b] == rx[a..b]
  {
    var s, t := rx[..left][a..b], rx[a..b];
    assert forall k :: 0 <= k < b - a ==> s[k] == rx[a + k] == t[k];
  }

  /** The status frame at the head of the live prefix, if its checksum is right. */
  method StatusIn(rx: array<byte>, left: nat) returns (frame: Option<Frame>)
    requires STATUS_SIZE <= left <= rx.Length
    ensures DecideStatus(rx[..left]) == if frame.Some? then Take(frame.value, STATUS_SIZE) else Skip
  {
    ghost var live := rx[..left];
    var sum := Checksum(rx[..13]);
    LivePart(rx, left, 0, 13);
    assert rx[0..13] == rx[..13] && live[0..13] == live[..13];
    if rx[13] != sum {
      return None;
    }
    var buttons: byte := rx[3] % 16 + rx[4] / 16 * 16;
    var ioStatus: byte := rx[5] % 64;
    var touch := rx[6..13];
    LivePart(rx, left, 6, 13);
    frame := Some(Touch(Some(buttons), Some(ioStatus), touch));
  }

  /**
   * Parses one frame off the live prefix. Stale bytes past `rxLen` have no influence: the
   * result and the new live prefix are functions of the old live prefix alone.
   */
  method TryParseFrame(rx: array<byte>, rxLen: nat) returns (frame: Option<Frame>, left: nat)
    requires rxLen <= rx.Length
    modifies rx
    ensures left <= rxLen
    ensures (frame, rx[..left]) == ParseNext(old(rx[..rxLen]), rx.Length)
  {
    left := rxLen;
    while true
      invariant left <= rxLen
      invariant ParseNext(rx[..left], rx.Length) == ParseNext(old(rx[..rxLen]), rx.Length)
      decreases left
    {
      ghost var live := rx[..left];
      hide ParseNext, ParseBoardInfo, DecideStatus;
      NextUnfolds(live, rx.Length);
      if left == 0 {
        return None, left;
      }
      if rx[0] == 0xFF {
        if left < 3 {
          return None, left;
        }
        if rx[1] == 0x01 && (rx[2] == 0x0A || rx[2] == 0x00) {
          if left < STATUS_SIZE {
            return None, left;
          }
          frame := StatusIn(rx, left);
          if frame.Some? {
            left := Consume(rx, left, STATUS_SIZE);
            return;
          }
        } else if rx[1] == 0xF0 {
          var total: nat := 3 + rx[2] as int + 1;
          if total > rx.Length {
            left := Consume(rx, left, 1);
            continue;
          }
          if left < total {
            return None, left;
          }
          var version := ParseBoardInfo(rx[3..total - 1]);
          LivePart(rx, left, 3, total - 1);
          left := Consume(rx, left, total);
          return Some(BoardInfo(version)), left;
        }
        left := Consume(rx, left, 1);
        continue;
      }
      if rx[0] == 0x28 {
        if left < BRACKET_SIZE {
          return None, left;
        }
        if rx[8] == 0x29 {
          var touch := rx[1..8];
          LivePart(rx, left, 1, 8);
          left := Consume(rx, left, BRACKET_SIZE);
          return Some(Touch(None, None, touch)), left;
        }
        left := Consume(rx, left, 1);
        continue;
      }
      left := Consume(rx, left, 1);
    }
  }

  /** The receive state of one serial session. */
  class SerialReader {
    const rx: array<byte>
    var rxLen: nat

    ghost predicate Valid()
      reads this, rx
    {
      rx.Length == RX_CAPACITY && rxLen <= rx.Length && Decide(rx[..rxLen], RX_CAPACITY).Wait?
    }

    ghost function Live(): seq<byte>
      requires Valid()
      reads this, rx
    {
      rx[..rxLen]
    }

    constructor ()
      ensures Valid() && Live() == [] && fresh(rx)
    {
      rx := new byte[RX_CAPACITY](_ => 0);
      rxLen := 0;
    }

    /** The `while let Some(frame)` loop: parses until nothing more comes out. */
    method Drain() returns (frames: seq<Frame>)
      requires rx.Length == RX_CAPACITY && rxLen <= rx.Length
      modifies this, rx
      ensures Valid()
      ensures Parse(frames, Live()) == ParseAll(old(rx[..rxLen]), RX_CAPACITY)
    {
      frames := [];
      var frame: Option<Frame>;
      ghost var goal := ParseAll(rx[..rxLen], RX_CAPACITY);
      NextDrains(rx[..rxLen], RX_CAPACITY);
      frame, rxLen := TryParseFrame(rx, rxLen);
      while frame.Some?
        invariant rxLen <= rx.Length
        invariant frame.Some? ==> goal == ParseAll(rx[..rxLen], RX_CAPACITY).After(frames + [frame.value])
        invariant frame.None? ==> Decide(rx[..rxLen], RX_CAPACITY).Wait? && goal == Parse(frames, rx[..rxLen])
        decreases frame.Some?, rxLen
      {
        hide Decide;
        frames := frames + [frame.value];
        NextDrains(rx[..rxLen], RX_CAPACITY);
        ghost var (next, rest) := ParseNext(rx[..rxLen], RX_CAPACITY);
        AfterTwice(ParseAll(rest, RX_CAPACITY), frames, if next.Some? then [next.value] else []);
        frame, rxLen := TryParseFrame(rx, rxLen);
      }
    }

    /** One byte: the overflow guard, the store, then the drain. */
    method Push(b: byte) returns (frames: seq<Frame>)
      requires Valid()
      modifies this, rx
      ensures Valid()
      ensures Parse(frames, Live()) == ParseAll(old(Live()) + [b], RX_CAPACITY)
    {
      hide Decide;
      WaitingIsShort(Live(), RX_CAPACITY);
      if rxLen >= rx.Length {
        assert false;  // where the code would reset rxLen to 0: it never gets here
      }
      rx[rxLen] := b;
      rxLen := rxLen + 1;
      assert rx[..rxLen] == old(Live()) + [b];
      frames := Drain();
    }

    /**
     * Takes in one chunk byte by byte, parsing after each byte until nothing comes out.
     * The frames are those of the live bytes followed by the whole chunk, so the overflow
     * reset never discards anything.
     */
    method Feed(chunk: seq<byte>) returns (frames: seq<Frame>)
      requires Valid()
      modifies this, rx
      ensures Valid()
      ensures Parse(frames, Live()) == ParseAll(old(Live()) + chunk, RX_CAPACITY)
    {
      hide Decide;
      frames := [];
      ghost var start := Live();
      assert start + chunk[..0] == start;
      for i := 0 to |chunk|
        invariant Valid()
        invariant Parse(frames, Live()) == ParseAll(start + chunk[..i], RX_CAPACITY)
      {
        var more := Push(chunk[i]);
        ParseAppend(start + chunk[..i], [chunk[i]], RX_CAPACITY);
        assert start + chunk[..i + 1] == start + chunk[..i] + [chunk[i]];
        frames := frames + more;
      }
      assert start + chunk[..|chunk|] == start + chunk;
    }
  }

  /** `send_frame`: builds the frame and hands it to the port, which is the frame's only output. */
  method SendFrame(cmd: byte, payload: seq<byte>) returns (frame: seq<byte>)
    ensures frame == SumFrame(cmd, payload)
  {
    frame := [0xFF];
    frame := frame + [cmd];
    frame := frame + [|payload| % 256];
    frame := frame + payload;
    assert frame == [0xFF, cmd, |payload| % 256] + payload;
    var checksum := Checksum(frame);
    frame := frame + [checksum];
  }
}
