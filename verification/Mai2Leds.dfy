/**
 * The LED side the game drives: the output page of each player, the fade latch of
 * `led_gs_update`, and what any sequence of calls leaves on the pages.
 */
module Mai2Leds {
  import opened Bytes

  const GS_LEN := 32
  const BUTTONS_LEN := 56
  const RGB_LEN := 24

  type Rgb = s: seq<byte> | |s| == RGB_LEN witness Zeros(RGB_LEN)
  type Fades = s: seq<byte> | |s| == BUTTONS_LEN witness Zeros(BUTTONS_LEN)

  function Zeros(n: nat): (s: seq<byte>)
    ensures |s| == n && forall i :: 0 <= i < n ==> s[i] == 0
  {
    seq(n, _ => 0)
  }

  const DARK: Rgb := Zeros(RGB_LEN)

  /** One player's output page; each sequence number counts the changes of its group. */
  datatype Output = Output(
    touchEnabled: bool,
    buttonsSequence: nat, buttons: Fades,
    billboardSequence: nat, billboard: Rgb,
    pwmSequence: nat, pwm: seq<byte>)

  const FRESH := Output(false, 0, Zeros(BUTTONS_LEN), 0, DARK, 0, [0, 0, 0])

  /** What a game call asks of a page; a group equal to what is there is not a change. */
  datatype Update =
    | SetTouchEnabled(on: bool)
    | SetButtons(fades: Fades)
    | SetBillboard(rgb: Rgb)
    | SetPwm(rgb3: seq<byte>)

  function Updated(o: Output, u: Update): Output {
    match u
    case SetTouchEnabled(on) => o.(touchEnabled := on)
    case SetButtons(p) => if o.buttons != p then o.(buttons := p, buttonsSequence := o.buttonsSequence + 1) else o
    case SetBillboard(p) =>
      if o.billboard != p then o.(billboard := p, billboardSequence := o.billboardSequence + 1) else o
    case SetPwm(p) => if o.pwm != p then o.(pwm := p, pwmSequence := o.pwmSequence + 1) else o
  }

  /** Each sequence moves by one exactly when its group changes, and an update reaches its own group only. */
  lemma SequenceMovesExactly(o: Output, u: Update)
    ensures var n := Updated(o, u);
            && n.buttonsSequence == o.buttonsSequence + (if n.buttons != o.buttons then 1 else 0)
            && n.billboardSequence == o.billboardSequence + (if n.billboard != o.billboard then 1 else 0)
            && n.pwmSequence == o.pwmSequence + (if n.pwm != o.pwm then 1 else 0)
            && n.buttons == (if u.SetButtons? then u.fades else o.buttons)
            && n.billboard == (if u.SetBillboard? then u.rgb else o.billboard)
            && n.pwm == (if u.SetPwm? then u.rgb3 else o.pwm)
            && n.touchEnabled == (if u.SetTouchEnabled? then u.on else o.touchEnabled)
  {
  }

  /** The target colours of the first `n` of a call's eight (r, g, b, speed) groups. */
  function TargetsOf(rgb: seq<byte>, n: nat): (s: seq<byte>)
    requires |rgb| >= GS_LEN && n <= 8
    ensures |s| == 3 * n
  {
    if n == 0 then [] else TargetsOf(rgb, n - 1) + rgb[4 * n - 4..4 * n - 1]
  }

  function Targets(rgb: seq<byte>): Rgb
    requires |rgb| >= GS_LEN
  {
    TargetsOf(rgb, 8)
  }

  /** The page bytes of one LED: three start bytes, three target bytes and the speed. */
  function FadeOf(prev: Rgb, rgb: seq<byte>, led: nat): (s: seq<byte>)
    requires |rgb| >= GS_LEN && led < 8
    ensures |s| == 7
  {
    var target, speed := rgb[4 * led..4 * led + 3], rgb[4 * led + 3];
    (if speed == 0 then target else prev[3 * led..3 * led + 3]) + target + [speed]
  }

  function FadesOf(prev: Rgb, rgb: seq<byte>, n: nat): (s: seq<byte>)
    requires |rgb| >= GS_LEN && n <= 8
    ensures |s| == 7 * n
  {
    if n == 0 then [] else FadesOf(prev, rgb, n - 1) + FadeOf(prev, rgb, n - 1)
  }

  function Fade(prev: Rgb, rgb: seq<byte>): Fades
    requires |rgb| >= GS_LEN
  {
    FadesOf(prev, rgb, 8)
  }

  /** The target bytes of the first `n` LEDs of a fade page. */
  function ButtonRgbOf(buttons: Fades, n: nat): (s: seq<byte>)
    requires n <= 8
    ensures |s| == 3 * n
  {
    if n == 0 then [] else ButtonRgbOf(buttons, n - 1) + buttons[7 * n - 4..7 * n - 1]
  }

  function ButtonRgb(buttons: Fades): Rgb {
    ButtonRgbOf(buttons, 8)
  }

  lemma {:induction false} FadesAt(prev: Rgb, rgb: seq<byte>, led: nat, n: nat)
    requires |rgb| >= GS_LEN && led < n <= 8
    ensures FadesOf(prev, rgb, n)[7 * led..7 * led + 7] == FadeOf(prev, rgb, led)
  {
    if led < n - 1 {
      FadesAt(prev, rgb, led, n - 1);
    }
  }

  /** The serial frame recovers the targets exactly, whatever the starts and speeds are. */
  lemma RgbRecoversTargets(prev: Rgb, rgb: seq<byte>)
    requires |rgb| >= GS_LEN
    ensures ButtonRgb(Fade(prev, rgb)) == Targets(rgb)
  {
    RgbOfFades(prev, rgb, 8);
  }

  lemma {:induction false} RgbOfFades(prev: Rgb, rgb: seq<byte>, n: nat)
    requires |rgb| >= GS_LEN && n <= 8
    ensures ButtonRgbOf(Fade(prev, rgb), n) == TargetsOf(rgb, n)
  {
    if n > 0 {
      RgbOfFades(prev, rgb, n - 1);
      FadesAt(prev, rgb, n - 1, 8);
      var page, led := Fade(prev, rgb), n - 1;
      SliceOfSlice(page, 7 * led, 7 * led + 7, 3, 6);
      assert FadeOf(prev, rgb, led)[3..6] == rgb[4 * led..4 * led + 3];
    }
  }

  lemma {:induction false} ButtonRgbAt(buttons: Fades, n: nat, led: nat, i: nat)
    requires led < n <= 8 && i < 3
    ensures ButtonRgbOf(buttons, n)[3 * led + i] == buttons[7 * led + 3 + i]
  {
    if led < n - 1 {
      ButtonRgbAt(buttons, n - 1, led, i);
    }
  }

  lemma ButtonRgbIsTargetBytes(buttons: Fades)
    ensures forall k :: 0 <= k < RGB_LEN ==> ButtonRgb(buttons)[k] == buttons[7 * (k / 3) + 3 + k % 3]
  {
    forall k | 0 <= k < RGB_LEN
      ensures ButtonRgb(buttons)[k] == buttons[7 * (k / 3) + 3 + k % 3]
    {
      ButtonRgbAt(buttons, 8, k / 3, k % 3);
    }
  }

  method ButtonRgbPayload(buttons: Fades) returns (payload: seq<byte>)
    ensures payload == ButtonRgb(buttons)
    ensures forall k :: 0 <= k < RGB_LEN ==> payload[k] == buttons[7 * (k / 3) + 3 + k % 3]
  {
    var out := new byte[RGB_LEN](_ => 0);
    for i := 0 to 8
      invariant out[..3 * i] == ButtonRgbOf(buttons, i)
    {
      ghost var done := out[..3 * i];
      out[i * 3] := buttons[i * 7 + 3];
      out[i * 3 + 1] := buttons[i * 7 + 4];
      out[i * 3 + 2] := buttons[i * 7 + 5];
      assert out[..3 * i] == done;
      assert out[..3 * (i + 1)] == done + buttons[7 * i + 3..7 * i + 6];
    }
    assert out[..3 * 8] == out[..];
    ButtonRgbIsTargetBytes(buttons);
    payload := out[..];
  }

  /** One colour on all eight billboard LEDs. */
  function Spread(rgb: seq<byte>): Rgb
    requires |rgb| >= 3
  {
    seq(RGB_LEN, k requires 0 <= k < RGB_LEN => rgb[k % 3])
  }

  // ----- sequences of game calls -----

  datatype Call = Call(board: byte, rgb: seq<byte>)

  predicate Accepted(c: Call) {
    c.board <= 1 && |c.rgb| >= GS_LEN
  }

  datatype Leds = Leds(latches: seq<Rgb>, pages: seq<Output>) {
    predicate Valid() {
      |latches| == 2 && |pages| == 2
    }
  }

  /** `led_gs_update`: a bad board or a short buffer is ignored. */
  function GsUpdate(l: Leds, c: Call): (r: Leds)
    requires l.Valid()
    ensures r.Valid()
  {
    if !Accepted(c) then l
    else
      var b := c.board;
      Leds(l.latches[b := Targets(c.rgb)],
           l.pages[b := Updated(l.pages[b], SetButtons(Fade(l.latches[b], c.rgb)))])
  }

  function GsUpdates(l: Leds, calls: seq<Call>): (r: Leds)
    requires l.Valid()
    ensures r.Valid()
  {
    if calls == [] then l
    else GsUpdate(GsUpdates(l, calls[..|calls| - 1]), calls[|calls| - 1])
  }

  const OFF := Leds([DARK, DARK], [FRESH, FRESH])

  /** The last call made for a board, read off the list of calls. */
  function LastCall(calls: seq<Call>, board: nat): (r: Option<Call>)
    ensures r.Some? ==> Accepted(r.value)
  {
    if calls == [] then None
    else
      var c := calls[|calls| - 1];
      if Accepted(c) && c.board == board then Some(c) else LastCall(calls[..|calls| - 1], board)
  }

  /** One colour byte of what a call asks for; dark when there is no call. */
  function Colour(c: Option<Call>, led: nat, i: nat): byte
    requires c.Some? ==> Accepted(c.value)
    requires led < 8 && i < 3
  {
    if c.Some? then c.value.rgb[4 * led + i] else 0
  }

  /** The targets of a call that may not have been made. */
  function TargetsIn(c: Option<Call>): Rgb
    requires c.Some? ==> Accepted(c.value)
  {
    if c.Some? then Targets(c.value.rgb) else DARK
  }

  /** The targets last asked of a board. */
  function LastTargets(calls: seq<Call>, board: nat): Rgb {
    TargetsIn(LastCall(calls, board))
  }

  /** A call is ignored exactly when its board is not one of the two or its buffer is short. */
  lemma OthersAreIgnored(l: Leds, c: Call)
    requires l.Valid() && (c.board > 1 || |c.rgb| < 32)
    ensures GsUpdate(l, c) == l
  {
  }

  lemma {:induction false} TargetsOfAt(rgb: seq<byte>, n: nat, led: nat, i: nat)
    requires |rgb| >= GS_LEN && led < n <= 8 && i < 3
    ensures TargetsOf(rgb, n)[3 * led + i] == rgb[4 * led + i]
  {
    if led < n - 1 {
      TargetsOfAt(rgb, n - 1, led, i);
    }
  }

  /** The targets are the colour bytes of the call, one LED after the other. */
  lemma TargetsAt(c: Option<Call>, led: nat, i: nat)
    requires (c.Some? ==> Accepted(c.value)) && led < 8 && i < 3
    ensures TargetsIn(c)[3 * led + i] == Colour(c, led, i)
  {
    if c.Some? {
      TargetsOfAt(c.value.rgb, 8, led, i);
    }
  }

  lemma {:induction false} DarkPage(n: nat)
    requires n <= 8
    ensures ButtonRgbOf(FRESH.buttons, n) == Zeros(3 * n)
  {
    if n > 0 {
      DarkPage(n - 1);
    }
  }

  /** The latch of a board and the colours its page targets are those of the last call for that board. */
  lemma {:induction false} ColoursFollowCalls(calls: seq<Call>, board: nat)
    requires board <= 1
    ensures var l := GsUpdates(OFF, calls);
            && l.latches[board] == LastTargets(calls, board)
            && ButtonRgb(l.pages[board].buttons) == LastTargets(calls, board)
  {
    if calls == [] {
      DarkPage(8);
    } else {
      var c := calls[|calls| - 1];
      ColoursFollowCalls(calls[..|calls| - 1], board);
      if Accepted(c) && c.board == board {
        RgbRecoversTargets(GsUpdates(OFF, calls[..|calls| - 1]).latches[board], c.rgb);
      }
    }
  }

  lemma FadeAt(prev: Rgb, rgb: seq<byte>, led: nat, i: nat)
    requires |rgb| >= GS_LEN && led < 8 && i < 3
    ensures var page := Fade(prev, rgb);
            && page[7 * led + i] == (if rgb[4 * led + 3] == 0 then rgb[4 * led + i] else prev[3 * led + i])
            && page[7 * led + 3 + i] == rgb[4 * led + i]
            && page[7 * led + 6] == rgb[4 * led + 3]
  {
    FadesAt(prev, rgb, led, 8);
    var page := Fade(prev, rgb);
    var group := page[7 * led..7 * led + 7];
    assert group[i] == page[7 * led + i] && group[3 + i] == page[7 * led + 3 + i] && group[6] == page[7 * led + 6];
  }

  /**
   * Fade continuity: after any calls, the next one starts each LED where the previous call for
   * the same board pointed it, or at its own target when its speed is zero; it aims at the new
   * target, and the other board's page and latch stay as they were.
   */
  lemma FadeContinues(calls: seq<Call>, c: Call, led: nat, i: nat)
    requires c.board <= 1 && |c.rgb| >= 32 && led < 8 && i < 3
    ensures var l, r := GsUpdates(OFF, calls), GsUpdates(OFF, calls + [c]);
            var page := r.pages[c.board].buttons;
            && page[7 * led + i] == (if c.rgb[4 * led + 3] == 0 then c.rgb[4 * led + i]
                                     else Colour(LastCall(calls, c.board), led, i))
            && page[7 * led + 3 + i] == c.rgb[4 * led + i]
            && page[7 * led + 6] == c.rgb[4 * led + 3]
            && r.pages[1 - c.board] == l.pages[1 - c.board] && r.latches[1 - c.board] == l.latches[1 - c.board]
  {
    assert (calls + [c])[..|calls|] == calls;
    ColoursFollowCalls(calls, c.board);
    var l := GsUpdates(OFF, calls);
    assert GsUpdates(OFF, calls + [c]) == GsUpdate(l, c);
    FadeAt(l.latches[c.board], c.rgb, led, i);
    TargetsAt(LastCall(calls, c.board), led, i);
  }

  /** How many more changes repeating the same colours can still make. */
  function BumpsLeft(l: Leds, board: nat, rgb: seq<byte>): nat
    requires l.Valid() && board <= 1 && |rgb| >= GS_LEN
  {
    if l.latches[board] != Targets(rgb) then 2
    else if l.pages[board].buttons != Fade(Targets(rgb), rgb) then 1
    else 0
  }

  /**
   * Repeating the same colours on a board, with any calls for the other board in between,
   * changes the page at most twice, however often it happens and wherever it starts from.
   */
  lemma {:induction false} RepeatsSettle(l: Leds, calls: seq<Call>, board: nat, rgb: seq<byte>)
    requires l.Valid() && board <= 1 && |rgb| >= GS_LEN
    requires forall c :: c in calls && Accepted(c) && c.board == board ==> c.rgb[..GS_LEN] == rgb[..GS_LEN]
    ensures var r := GsUpdates(l, calls);
            l.pages[board].buttonsSequence <= r.pages[board].buttonsSequence
            && r.pages[board].buttonsSequence + BumpsLeft(r, board, rgb)
               <= l.pages[board].buttonsSequence + BumpsLeft(l, board, rgb)
               <= l.pages[board].buttonsSequence + 2
  {
    if calls != [] {
      var c, before := calls[|calls| - 1], calls[..|calls| - 1];
      RepeatsSettle(l, before, board, rgb);
      if Accepted(c) && c.board == board {
        SameHead(Targets(rgb), c.rgb, rgb, 8);
      }
    }
  }

  lemma SameGroup(a: seq<byte>, b: seq<byte>, led: nat)
    requires |a| >= GS_LEN && |b| >= GS_LEN && a[..GS_LEN] == b[..GS_LEN] && led < 8
    ensures a[4 * led..4 * led + 3] == b[4 * led..4 * led + 3] && a[4 * led + 3] == b[4 * led + 3]
  {
    assert forall k :: 0 <= k < GS_LEN ==> a[k] == a[..GS_LEN][k] == b[k];
  }

  lemma {:induction false} SameHead(prev: Rgb, a: seq<byte>, b: seq<byte>, n: nat)
    requires |a| >= GS_LEN && |b| >= GS_LEN && a[..GS_LEN] == b[..GS_LEN] && n <= 8
    ensures TargetsOf(a, n) == TargetsOf(b, n) && FadesOf(prev, a, n) == FadesOf(prev, b, n)
  {
    if n > 0 {
      SameHead(prev, a, b, n - 1);
      SameGroup(a, b, n - 1);
    }
  }

  // ----- calls that overlap -----

  /** The first half of an accepted call, under the latch lock: the payload, and the moved latch. */
  function Latch(l: Leds, c: Call): (Leds, Fades)
    requires l.Valid() && Accepted(c)
  {
    (l.(latches := l.latches[c.board := Targets(c.rgb)]), Fade(l.latches[c.board], c.rgb))
  }

  /** The second half, one page update. */
  function Publish(l: Leds, c: Call, fades: Fades): Leds
    requires l.Valid() && Accepted(c)
  {
    l.(pages := l.pages[c.board := Updated(l.pages[c.board], SetButtons(fades))])
  }

  lemma HalvesMakeACall(l: Leds, c: Call)
    requires l.Valid() && Accepted(c)
    ensures Publish(Latch(l, c).0, c, Latch(l, c).1) == GsUpdate(l, c)
  {
  }

  /** A call takes the latch lock, or the call that took it `n` calls after the first publishes. */
  datatype Half = Latches(c: Call) | Publishes(n: nat)

  /** The payload a call built, on its way to the page. */
  datatype Pending = Pending(c: Call, fades: Fades)

  /** What a schedule of halves leads to, with the payload of every call that took the lock. */
  datatype Overlap = Overlap(leds: Leds, built: seq<Pending>) {
    predicate Valid() {
      leds.Valid() && forall p :: p in built ==> Accepted(p.c) && ButtonRgb(p.fades) == Targets(p.c.rgb)
    }
  }

  lemma BuiltIsTarget(l: Leds, c: Call)
    requires l.Valid() && Accepted(c)
    ensures ButtonRgb(Latch(l, c).1) == Targets(c.rgb)
  {
    RgbRecoversTargets(l.latches[c.board], c.rgb);
  }

  function PlayHalf(o: Overlap, e: Half): (r: Overlap)
    requires o.Valid()
    ensures r.Valid()
  {
    match e
    case Latches(c) =>
      if Accepted(c) then
        BuiltIsTarget(o.leds, c);
        Overlap(Latch(o.leds, c).0, o.built + [Pending(c, Latch(o.leds, c).1)])
      else o
    case Publishes(n) =>
      if n < |o.built| then o.(leds := Publish(o.leds, o.built[n].c, o.built[n].fades)) else o
  }

  function PlayHalves(events: seq<Half>): (r: Overlap)
    ensures r.Valid()
  {
    if events == [] then Overlap(OFF, [])
    else PlayHalf(PlayHalves(events[..|events| - 1]), events[|events| - 1])
  }

  /** The calls that took the latch lock, in order. */
  function Latched(events: seq<Half>): seq<Call> {
    if events == [] then []
    else
      var e := events[|events| - 1];
      Latched(events[..|events| - 1]) + if e.Latches? && Accepted(e.c) then [e.c] else []
  }

  /** The call for a board that published last. */
  function LastToPublish(events: seq<Half>, board: nat): (r: Option<Call>)
    ensures r.Some? ==> Accepted(r.value)
  {
    if events == [] then None
    else
      var before, e := events[..|events| - 1], events[|events| - 1];
      var calls := Latched(before);
      if e.Publishes? && e.n < |calls| && Accepted(calls[e.n]) && calls[e.n].board == board then Some(calls[e.n])
      else LastToPublish(before, board)
  }

  /** Its colours. */
  function LastPublished(events: seq<Half>, board: nat): Rgb {
    TargetsIn(LastToPublish(events, board))
  }

  lemma {:induction false} BuiltAreLatched(events: seq<Half>)
    ensures var built := PlayHalves(events).built;
            |built| == |Latched(events)| && forall n :: 0 <= n < |built| ==> built[n].c == Latched(events)[n]
  {
    hide Latch, Publish;
    if events != [] {
      BuiltAreLatched(events[..|events| - 1]);
    }
  }

  /** What one half does to the latch and the colours of a board. */
  lemma HalfMovesColours(o: Overlap, e: Half, board: nat)
    requires o.Valid() && board <= 1
    ensures var l, r := o.leds, PlayHalf(o, e).leds;
            && r.latches[board]
               == (if e.Latches? && Accepted(e.c) && e.c.board == board then Targets(e.c.rgb) else l.latches[board])
            && ButtonRgb(r.pages[board].buttons)
               == if e.Publishes? && e.n < |o.built| && o.built[e.n].c.board == board then Targets(o.built[e.n].c.rgb)
                  else ButtonRgb(l.pages[board].buttons)
  {
    hide Targets, ButtonRgb, Fade;
    if e.Publishes? && e.n < |o.built| {
      assert o.built[e.n] in o.built;
    }
  }

  lemma LastTargetsStep(events: seq<Half>, board: nat)
    requires events != []
    ensures var e, before := events[|events| - 1], Latched(events[..|events| - 1]);
            LastTargets(Latched(events), board)
            == if e.Latches? && Accepted(e.c) && e.c.board == board then Targets(e.c.rgb)
               else LastTargets(before, board)
  {
    hide Targets;
    var e, before := events[|events| - 1], Latched(events[..|events| - 1]);
    if e.Latches? && Accepted(e.c) {
      assert (before + [e.c])[..|before|] == before;
    } else {
      assert before + [] == before;
    }
  }

  /**
   * However calls overlap, the latch holds the colours of the last call to take its lock, and the
   * page aims at those of the last call to publish: they agree exactly when those are equal.
   */
  lemma {:induction false} OverlapSplitsColours(events: seq<Half>, board: nat)
    requires board <= 1
    ensures var l := PlayHalves(events).leds;
            && l.latches[board] == LastTargets(Latched(events), board)
            && ButtonRgb(l.pages[board].buttons) == LastPublished(events, board)
            && (ButtonRgb(l.pages[board].buttons) == l.latches[board]
                <==> LastPublished(events, board) == LastTargets(Latched(events), board))
  {
    if events == [] {
      DarkIsDark();
    } else {
      hide Targets, ButtonRgb, PlayHalf, LastTargets, Latched;
      var before, e := events[..|events| - 1], events[|events| - 1];
      OverlapSplitsColours(before, board);
      BuiltAreLatched(before);
      HalfMovesColours(PlayHalves(before), e, board);
      LastTargetsStep(events, board);
      if e.Publishes? && e.n < |Latched(before)| {
        assert PlayHalves(before).built[e.n] in PlayHalves(before).built;
      }
    }
  }

  lemma DarkIsDark()
    ensures ButtonRgb(FRESH.buttons) == DARK
  {
    DarkPage(8);
  }

  /** Two calls for a board that take the lock in one order and publish in the other. */
  lemma CallsCanCross(a: Call, b: Call)
    requires Accepted(a) && Accepted(b) && a.board == b.board
    ensures var events := [Latches(a), Latches(b), Publishes(1), Publishes(0)];
            LastPublished(events, a.board) == Targets(a.rgb) && LastTargets(Latched(events), a.board) == Targets(b.rgb)
  {
    hide Targets;
    var events := [Latches(a), Latches(b), Publishes(1), Publishes(0)];
    assert events[..3] == [Latches(a), Latches(b), Publishes(1)];
    assert events[..3][..2] == [Latches(a), Latches(b)];
    assert [Latches(a), Latches(b)][..1] == [Latches(a)];
    assert Latched([Latches(a)]) == [a];
    assert Latched([Latches(a), Latches(b)]) == [a, b] == Latched(events[..3]);
  }

  /** Calls made one after the other: each publishes before the next takes the lock. */
  function OneByOne(calls: seq<Call>): seq<Half> {
    if calls == [] then []
    else
      var before, c := OneByOne(calls[..|calls| - 1]), calls[|calls| - 1];
      before + if Accepted(c) then [Latches(c), Publishes(|PlayHalves(before).built|)] else []
  }

  lemma PlayTwo(events: seq<Half>, a: Half, b: Half)
    ensures PlayHalves(events + [a, b]) == PlayHalf(PlayHalf(PlayHalves(events), a), b)
  {
    hide PlayHalf;
    assert events + [a, b] == (events + [a]) + [b];
    assert ((events + [a]) + [b])[..|events| + 1] == events + [a] && (events + [a])[..|events|] == events;
  }

  /** Without overlap the halves amount to whole calls, so everything said of those holds. */
  lemma {:induction false} OneByOneIsGsUpdates(calls: seq<Call>)
    ensures PlayHalves(OneByOne(calls)).leds == GsUpdates(OFF, calls)
  {
    if calls != [] {
      var before, c := OneByOne(calls[..|calls| - 1]), calls[|calls| - 1];
      OneByOneIsGsUpdates(calls[..|calls| - 1]);
      if Accepted(c) {
        hide Latch, Publish, GsUpdate;
        var o := PlayHalves(before);
        PlayTwo(before, Latches(c), Publishes(|o.built|));
        HalvesMakeACall(o.leds, c);
        assert GsUpdates(OFF, calls) == GsUpdate(o.leds, c);
      } else {
        assert before + [] == before;
      }
    }
  }

  // ----- the code that works in place -----

  /** `copy_from_slice` into `buf[at..at + |data|]`. */
  method CopyInto(buf: array<byte>, at: nat, data: seq<byte>)
    requires at + |data| <= buf.Length
    modifies buf
    ensures buf[..] == old(buf[..at]) + data + old(buf[at + |data|..])
  {
    forall i | 0 <= i < |data| {
      buf[at + i] := data[i];
    }
  }

  /** One turn of the loop under the latch lock. */
  method LatchLed(payload: array<byte>, latch: array<byte>, rgb: seq<byte>, i: nat)
    requires payload != latch && payload.Length == BUTTONS_LEN && latch.Length == RGB_LEN
    requires |rgb| >= GS_LEN && i < 8
    modifies payload, latch
    ensures payload[..7 * i + 7] == old(payload[..7 * i]) + FadeOf(old(latch[..]), rgb, i)
    ensures latch[..] == old(latch[..3 * i]) + rgb[4 * i..4 * i + 3] + old(latch[3 * i + 3..])
  {
    var target, speed := rgb[4 * i..4 * i + 3], rgb[4 * i + 3];
    var start := if speed == 0 then target else latch[3 * i..3 * i + 3];
    CopyInto(payload, 7 * i, start + target + [speed]);
    CopyInto(latch, 3 * i, target);
  }

  /** Half-way through, the latch holds the first `i` new targets and the old rest. */
  function HalfLatch(prev: Rgb, rgb: seq<byte>, i: nat): Rgb
    requires |rgb| >= GS_LEN && i <= 8
  {
    TargetsOf(rgb, i) + prev[3 * i..]
  }

  lemma LatchEnds(prev: Rgb, rgb: seq<byte>)
    requires |rgb| >= GS_LEN
    ensures HalfLatch(prev, rgb, 0) == prev && HalfLatch(prev, rgb, 8) == Targets(rgb)
    ensures FadesOf(prev, rgb, 0) == []
  {
    hide TargetsOf, FadesOf;
    assert TargetsOf(rgb, 8) + prev[24..] == TargetsOf(rgb, 8);
    NoTargets(prev, rgb);
  }

  lemma NoTargets(prev: Rgb, rgb: seq<byte>)
    requires |rgb| >= GS_LEN
    ensures TargetsOf(rgb, 0) == [] == FadesOf(prev, rgb, 0)
  {
  }

  lemma LatchStep(prev: Rgb, rgb: seq<byte>, i: nat)
    requires |rgb| >= GS_LEN && i < 8
    ensures var now := HalfLatch(prev, rgb, i);
            && FadesOf(prev, rgb, i) + FadeOf(now, rgb, i) == FadesOf(prev, rgb, i + 1)
            && now[..3 * i] + rgb[4 * i..4 * i + 3] + now[3 * i + 3..] == HalfLatch(prev, rgb, i + 1)
  {
    var now := HalfLatch(prev, rgb, i);
    var done, target, rest := TargetsOf(rgb, i), rgb[4 * i..4 * i + 3], prev[3 * i + 3..];
    assert TargetsOf(rgb, i + 1) == done + target;
    hide TargetsOf;
    assert now[3 * i..3 * i + 3] == prev[3 * i..3 * i + 3];
    assert now[3 * i + 3..] == rest && now[..3 * i] == done;
  }

  /** The block under the latch lock: builds the payload and moves the latch to the new targets. */
  method LatchFade(latch: array<byte>, rgb: seq<byte>) returns (fades: seq<byte>)
    requires latch.Length == RGB_LEN && |rgb| >= GS_LEN
    modifies latch
    ensures fades == Fade(old(latch[..]), rgb)
    ensures latch[..] == Targets(rgb)
  {
    ghost var prev := latch[..];
    LatchEnds(prev, rgb);
    var payload := new byte[BUTTONS_LEN](_ => 0);
    for i := 0 to 8
      invariant payload[..7 * i] == FadesOf(prev, rgb, i)
      invariant latch[..] == HalfLatch(prev, rgb, i)
    {
      hide FadeOf, FadesOf, HalfLatch;
      LatchStep(prev, rgb, i);
      LatchLed(payload, latch, rgb, i);
    }
    fades := payload[..];
  }

  class LedRuntime {
    const latch0: array<byte>
    const latch1: array<byte>
    var pages: seq<Output>

    ghost predicate Valid()
      reads this
    {
      latch0 != latch1 && latch0.Length == latch1.Length == RGB_LEN && |pages| == 2
    }

    ghost function View(): (l: Leds)
      requires Valid()
      reads this, latch0, latch1
      ensures l.Valid()
    {
      Leds([latch0[..], latch1[..]], pages)
    }

    constructor (p1Enabled: bool, p2Enabled: bool)
      ensures Valid() && fresh(latch0) && fresh(latch1)
      ensures View() == OFF.(pages := [FRESH.(touchEnabled := p1Enabled), FRESH.(touchEnabled := p2Enabled)])
    {
      latch0 := new byte[RGB_LEN](_ => 0);
      latch1 := new byte[RGB_LEN](_ => 0);
      pages := [FRESH.(touchEnabled := p1Enabled), FRESH.(touchEnabled := p2Enabled)];
      new;
      assert latch0[..] == DARK && latch1[..] == DARK;
    }

    method LedGsUpdate(board: byte, rgb: seq<byte>)
      requires Valid()
      modifies this, latch0, latch1
      ensures Valid() && View() == GsUpdate(old(View()), Call(board, rgb))
    {
      if board > 1 || |rgb| < GS_LEN {
        return;
      }
      var fades := LatchFade(if board == 0 then latch0 else latch1, rgb);
      UpdatePage(board, SetButtons(fades));
    }

    method LedSetFetOutput(board: byte, rgb: seq<byte>)
      requires Valid() && |rgb| == 3
      modifies this
      ensures Valid() && View().latches == old(View().latches)
      ensures board > 1 ==> pages == old(pages)
      ensures board <= 1 ==>
                var was := old(pages)[board];
                var moves := if was.pwm == rgb then 0 else 1;
                pages == old(pages)[board := was.(pwm := rgb, pwmSequence := was.pwmSequence + moves)]
    {
      if board as int < |pages| {
        UpdatePage(board, SetPwm(rgb));
      }
    }

    /** The first three bytes fill all eight billboard LEDs. */
    method LedBillboardSet(board: byte, rgb: seq<byte>)
      requires Valid()
      modifies this
      ensures Valid() && View().latches == old(View().latches)
      ensures board > 1 || |rgb| < 3 ==> pages == old(pages)
      ensures board <= 1 && |rgb| >= 3 ==>
                && pages == old(pages)[board := Updated(old(pages)[board], SetBillboard(Spread(rgb)))]
                && forall k :: 0 <= k < RGB_LEN ==> pages[board].billboard[k] == rgb[k % 3]
    {
      if board > 1 || |rgb| < 3 {
        return;
      }
      var payload := new byte[RGB_LEN](_ => 0);
      for i := 0 to 8
        invariant Valid() && pages == old(pages)
        invariant forall k :: 0 <= k < 3 * i ==> payload[k] == rgb[k % 3]
      {
        payload[3 * i], payload[3 * i + 1], payload[3 * i + 2] := rgb[0], rgb[1], rgb[2];
      }
      assert payload[..] == Spread(rgb);
      UpdatePage(board, SetBillboard(payload[..]));
    }

    method SetTouchesEnabled(player1: bool, player2: bool)
      requires Valid()
      modifies this
      ensures Valid() && View().latches == old(View().latches)
      ensures pages == [old(pages)[0].(touchEnabled := player1), old(pages)[1].(touchEnabled := player2)]
    {
      UpdatePage(0, SetTouchEnabled(player1));
      UpdatePage(1, SetTouchEnabled(player2));
    }

    /** One `output_page.update`. */
    method UpdatePage(board: byte, u: Update)
      requires Valid() && board <= 1
      modifies this`pages
      ensures Valid() && pages == old(pages)[board := Updated(old(pages)[board], u)]
    {
      pages := pages[board := Updated(pages[board], u)];
    }
  }
}
