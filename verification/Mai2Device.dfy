/**
 * `device_thread`: one player's serial session, its heartbeats and board-info requests, the
 * touch watchdog, and LED delivery by sequence number. A ghost history records what the
 * thread saw and what the device accepted; the run-level promises are laws of that history.
 */
module Mai2Device {
  import opened Bytes
  import opened Mai2Leds

  const HEARTBEAT_MS := 100
  const INFO_DELAY_MS := 500
  const INFO_TIMEOUT_MS := 1000
  const INFO_GIVE_UP_MS := 3000
  const STALE_PAUSE_MS := 300
  const STALE_RECONNECT_MS := 1000
  const STALE_GRACE_MS := 3000

  const HEARTBEAT: byte := 0x11
  const GET_INFO: byte := 0xF0
  const LED_BUTTONS: byte := 0x14
  const LED_BILLBOARD: byte := 0x15
  const LED_PWM: byte := 0x16

  // ----- what happened -----

  /** The output page snapshot, touch counter and last touch time one iteration read, and its clock. */
  datatype Observation = Observation(page: Output, frames: nat, lastUpdate: nat, now: nat)

  datatype Event =
    | Connected(beat: nat, info: nat, since: nat)         // the three clock readings taken on opening
    | Sent(cmd: byte, payload: seq<byte>, at: nat)        // a frame the device accepted
    | Observed(o: Observation)
    | Dropped                                             // disconnect_session closed a session
    | Ended(infoPending: bool)                            // the iteration ran to its final sleep

  datatype History = Start(frames: nat) | After(past: History, last: Event)

  function Extend(h: History, es: seq<Event>): History {
    if es == [] then h else After(Extend(h, es[..|es| - 1]), es[|es| - 1])
  }

  predicate SessionOpen(h: History) {
    h.After? && match h.last
                case Connected(_, _, _) => true
                case Dropped => false
                case _ => SessionOpen(h.past)
  }

  /** When the newest session began: the readings for heartbeats, board info and touch age. */
  function Opening(h: History): (nat, nat, nat) {
    match h
    case Start(_) => (0, 0, 0)
    case After(p, e) => if e.Connected? then (e.beat, e.info, e.since) else Opening(p)
  }

  /** The newest heartbeat of the session, or its opening. */
  function LastBeat(h: History): nat {
    match h
    case Start(_) => 0
    case After(p, e) =>
      if e.Connected? then e.beat
      else if e.Sent? && e.cmd == HEARTBEAT then e.at
      else LastBeat(p)
  }

  /** How many frames with this command the session has sent. */
  function Count(h: History, cmd: byte): nat {
    match h
    case Start(_) => 0
    case After(p, e) =>
      if e.Connected? then 0
      else if e.Sent? && e.cmd == cmd then Count(p, cmd) + 1
      else Count(p, cmd)
  }

  /** The newest frame with this command in the session: its payload and time. */
  function Newest(h: History, cmd: byte): Option<(seq<byte>, nat)> {
    match h
    case Start(_) => None
    case After(p, e) =>
      if e.Connected? then None
      else if e.Sent? && e.cmd == cmd then Some((e.payload, e.at))
      else Newest(p, cmd)
  }

  /** The touch counter as last observed, in any session. */
  function LastFrames(h: History): nat {
    match h
    case Start(n) => n
    case After(p, e) => if e.Observed? then e.o.frames else LastFrames(p)
  }

  /** What the current iteration has observed, if it has got that far. */
  function Current(h: History): Option<Observation> {
    match h
    case Start(_) => None
    case After(p, e) =>
      match e
      case Observed(o) => Some(o)
      case Sent(_, _, _) => Current(p)
      case _ => None
  }

  // ----- the touch watchdog -----

  /** The touch stream has been silent for `ms`, past the grace period and with touch enabled. */
  predicate SilentFor(o: Observation, since: nat, ms: nat) {
    && o.page.touchEnabled && since != 0 && o.now - since >= STALE_GRACE_MS
    && o.now - (if o.lastUpdate != 0 then o.lastUpdate else since) >= ms
  }

  /** LED output is suspended: some observation was stale and no later one saw the counter move. */
  predicate Suspended(h: History) {
    h.After? && match h.last
                case Observed(o) =>
                  || SilentFor(o, Opening(h.past).2, STALE_PAUSE_MS)
                  || (o.frames == LastFrames(h.past) && Suspended(h.past))
                case _ => Suspended(h.past)
  }

  // ----- LED delivery -----

  predicate IsLed(cmd: byte) {
    cmd == LED_BUTTONS || cmd == LED_BILLBOARD || cmd == LED_PWM
  }

  /** How often the group behind a command has changed on a page, and what the device should show. */
  function Version(o: Output, cmd: byte): nat {
    if cmd == LED_BUTTONS then o.buttonsSequence
    else if cmd == LED_BILLBOARD then o.billboardSequence
    else o.pwmSequence
  }

  function Payload(o: Output, cmd: byte): seq<byte> {
    if cmd == LED_BUTTONS then ButtonRgb(o.buttons)
    else if cmd == LED_BILLBOARD then o.billboard
    else o.pwm
  }

  /** The version last sent in the session; 0 when none was. */
  function SentVersion(h: History, cmd: byte): nat {
    match h
    case Start(_) => 0
    case After(p, e) =>
      if e.Connected? then 0
      else if e.Sent? && e.cmd == cmd && Current(p).Some? then Version(Current(p).value.page, cmd)
      else SentVersion(p, cmd)
  }

  /** The session's last frame of the group is what the page says, or the group was never set. */
  predicate GroupDelivered(h: History, o: Output, cmd: byte) {
    if Version(o, cmd) == 0 then Newest(h, cmd).None?
    else Newest(h, cmd).Some? && Newest(h, cmd).value.0 == Payload(o, cmd)
  }

  predicate Delivered(h: History, o: Output) {
    GroupDelivered(h, o, LED_BUTTONS) && GroupDelivered(h, o, LED_BILLBOARD) && GroupDelivered(h, o, LED_PWM)
  }

  // ----- the laws -----

  predicate BeatIsFresh(h: History, now: nat) {
    LastBeat(h) <= now < LastBeat(h) + HEARTBEAT_MS
  }

  /** No board-info request is due: the first waits 500 ms, each retry 1000 ms. */
  predicate InfoNotDue(h: History, now: nat) {
    match Newest(h, GET_INFO)
    case None => now < Opening(h).1 + INFO_DELAY_MS
    case Some(sent) => now < sent.1 + INFO_TIMEOUT_MS
  }

  predicate SendIsLawful(h: History, cmd: byte, payload: seq<byte>, at: nat) {
    && SessionOpen(h)
    && (cmd == HEARTBEAT ==> payload == [] && at >= LastBeat(h) + HEARTBEAT_MS)
    && (cmd == GET_INFO ==> payload == [] && !InfoNotDue(h, at) && Count(h, GET_INFO) < 4)
    && (IsLed(cmd) ==> Current(h).Some? && !Suspended(h)
                       && payload == Payload(Current(h).value.page, cmd)
                       && SentVersion(h, cmd) != Version(Current(h).value.page, cmd))
    && (cmd == HEARTBEAT || cmd == GET_INFO || IsLed(cmd))
  }

  predicate EndIsLawful(h: History, infoPending: bool) {
    && SessionOpen(h) && Current(h).Some?
    && var o := Current(h).value;
       && BeatIsFresh(h, o.now)
       && (infoPending ==> InfoNotDue(h, o.now))
       && !SilentFor(o, Opening(h).2, STALE_RECONNECT_MS)
       && (!Suspended(h) ==> Delivered(h, o.page))
  }

  predicate Lawful(h: History) {
    h.After? ==>
      && Lawful(h.past)
      && match h.last
         case Connected(_, _, _) => !SessionOpen(h.past)
         case Sent(cmd, payload, at) => SendIsLawful(h.past, cmd, payload, at)
         case Observed(_) => SessionOpen(h.past)
         case Dropped => SessionOpen(h.past)
         case Ended(p) => EndIsLawful(h.past, p)
  }

  // ----- what the laws amount to over a run -----

  /** n heartbeats in a session take at least 100 n milliseconds. */
  lemma {:induction false} BeatsTakeTime(h: History)
    requires Lawful(h) && SessionOpen(h)
    ensures LastBeat(h) >= Opening(h).0 + 100 * Count(h, HEARTBEAT)
  {
    if !h.last.Connected? {
      BeatsTakeTime(h.past);
    }
  }

  /** The n-th board-info request of a session comes no sooner than 500 + 1000 (n - 1) ms after its opening. */
  lemma {:induction false} RequestsTakeTime(h: History)
    requires Lawful(h) && Count(h, GET_INFO) > 0
    ensures Newest(h, GET_INFO).Some?
    ensures Newest(h, GET_INFO).value.1 >= Opening(h).1 + 500 + 1000 * (Count(h, GET_INFO) - 1)
  {
    if Count(h.past, GET_INFO) > 0 && !h.last.Connected? {
      RequestsTakeTime(h.past);
    } else {
      NoneRequested(h.past);
    }
  }

  lemma {:induction false} NoneRequested(h: History)
    requires Count(h, GET_INFO) == 0
    ensures Newest(h, GET_INFO).None?
  {
    if h.After? && !h.last.Connected? {
      NoneRequested(h.past);
    }
  }

  /**
   * When an iteration ends the newest heartbeat, or the opening, is less than 100 ms old; and while
   * board info is pending it is less than 500 ms since the opening with no request made, or less
   * than 1000 ms since the newest request.
   */
  lemma EndedIsPaced(h: History, pending: bool)
    requires Lawful(After(h, Ended(pending)))
    ensures Current(h).Some?
    ensures var now := Current(h).value.now;
            && LastBeat(h) <= now < LastBeat(h) + 100
            && (pending ==> match Newest(h, GET_INFO)
                            case None => now < Opening(h).1 + 500
                            case Some(sent) => now < sent.1 + 1000)
  {
  }

  /** No session sends more than four board-info requests. */
  lemma {:induction false} AtMostFourInfoRequests(h: History)
    requires Lawful(h)
    ensures Count(h, GET_INFO) <= 4
  {
    if h.After? {
      AtMostFourInfoRequests(h.past);
    }
  }

  /**
   * Once suspended, no LED frame is sent until an observation sees the touch counter move,
   * through any number of iterations, drops and reconnects.
   */
  lemma {:induction false} SuspensionHolds(h: History, es: seq<Event>)
    requires Lawful(Extend(h, es)) && Suspended(h)
    requires forall e :: e in es && e.Observed? ==> e.o.frames == LastFrames(h)
    ensures forall e :: e in es && e.Sent? ==> !IsLed(e.cmd)
    ensures Suspended(Extend(h, es)) && LastFrames(Extend(h, es)) == LastFrames(h)
  {
    if es != [] {
      SuspensionHolds(h, es[..|es| - 1]);
    }
  }

  /** An iteration that observed a silent touch stream sends no LED frame afterwards. */
  lemma {:induction false} StaleIterationSendsNoLed(h: History, o: Observation, es: seq<Event>)
    requires Lawful(Extend(After(h, Observed(o)), es)) && SilentFor(o, Opening(h).2, STALE_PAUSE_MS)
    requires forall e :: e in es ==> !e.Observed?
    ensures forall e :: e in es && e.Sent? ==> !IsLed(e.cmd)
  {
    SuspensionHolds(After(h, Observed(o)), es);
  }

  // ----- the link between the history and a page that the game keeps changing -----

  /** A group whose version has not moved since it was sent still has the payload that was sent. */
  predicate InStep(h: History, o: Output, cmd: byte) {
    && SentVersion(h, cmd) <= Version(o, cmd)
    && (SentVersion(h, cmd) == 0 ==> Newest(h, cmd).None?)
    && (0 < SentVersion(h, cmd) == Version(o, cmd) ==> GroupDelivered(h, o, cmd))
  }

  predicate AllInStep(h: History, o: Output) {
    InStep(h, o, LED_BUTTONS) && InStep(h, o, LED_BILLBOARD) && InStep(h, o, LED_PWM)
  }

  lemma UpdateKeepsStep(h: History, o: Output, u: Update)
    requires AllInStep(h, o)
    ensures AllInStep(h, Updated(o, u))
  {
  }

  /** `h` is `g`, or `g` and one more accepted frame with this command. */
  predicate AtMostOne(g: History, h: History, cmd: byte) {
    h == g || (h.After? && h.past == g && h.last.Sent? && h.last.cmd == cmd)
  }

  /** `g` is what `h` was at some earlier moment. */
  predicate IsPast(g: History, h: History) {
    g == h || (h.After? && IsPast(g, h.past))
  }

  /** Nothing that heartbeat and board-info pacing look at differs. */
  predicate SamePacing(g: History, h: History) {
    LastBeat(g) == LastBeat(h) && Opening(g) == Opening(h) && Newest(g, GET_INFO) == Newest(h, GET_INFO)
  }

  lemma PastIsReflexive(h: History)
    ensures IsPast(h, h)
  {
  }

  lemma InfoKeepsBeat(g: History, h: History, now: nat)
    requires AtMostOne(g, h, GET_INFO) && BeatIsFresh(g, now)
    ensures BeatIsFresh(h, now)
  {
  }

  lemma ObservedKeepsPacing(h: History, o: Observation)
    ensures SamePacing(h, After(h, Observed(o))) && Current(After(h, Observed(o))) == Some(o)
  {
  }

  lemma SamePacingSameDue(g: History, h: History, now: nat)
    requires SamePacing(g, h)
    ensures BeatIsFresh(g, now) == BeatIsFresh(h, now) && InfoNotDue(g, now) == InfoNotDue(h, now)
  {
  }

  lemma LedKeepsPacing(g: History, h: History, cmd: byte)
    requires AtMostOne(g, h, cmd) && IsLed(cmd)
    ensures SamePacing(g, h) && Current(h) == Current(g) && Suspended(h) == Suspended(g)
  {
  }

  lemma LedKeepsGroup(g: History, h: History, o: Output, cmd: byte, other: byte)
    requires AtMostOne(g, h, other) && cmd != other && GroupDelivered(g, o, cmd)
    ensures GroupDelivered(h, o, cmd)
  {
  }

  lemma {:induction false} PastIsTransitive(f: History, g: History, h: History)
    requires IsPast(f, g) && IsPast(g, h)
    ensures IsPast(f, h)
  {
    if g != h {
      PastIsTransitive(f, g, h.past);
    }
  }

  lemma OtherEventsKeepStep(h: History, e: Event, o: Output)
    requires AllInStep(h, o) && (e.Sent? ==> !IsLed(e.cmd))
    ensures AllInStep(After(h, e), o)
  {
  }

  /** A dropped session, and at most one heartbeat or board-info request, leave the groups in step. */
  lemma DropKeepsStep(h: History, o: Output)
    requires AllInStep(h, o)
    ensures AllInStep(After(h, Dropped), o)
  {
    hide AllInStep;
    OtherEventsKeepStep(h, Dropped, o);
  }

  lemma AtMostOneKeepsStep(g: History, h: History, cmd: byte, o: Output)
    requires AllInStep(g, o) && AtMostOne(g, h, cmd) && !IsLed(cmd)
    ensures AllInStep(h, o)
  {
    hide AllInStep;
    if h != g {
      OtherEventsKeepStep(g, h.last, o);
    }
  }

  lemma AtMostOneIs(g: History, cmd: byte, at: nat)
    ensures AtMostOne(g, g, cmd) && AtMostOne(g, After(g, Sent(cmd, [], at)), cmd)
  {
  }

  // ----- the thread's variables against the history -----

  /** The locals of the thread, the session's board-info flags, and the clock. */
  datatype Locals = Locals(
    open: bool, lastHeartbeat: nat, infoStart: nat, infoRequest: nat,
    lastButtons: nat, lastBillboard: nat, lastPwm: nat,
    connectedSince: nat, lastTouchFrames: nat, suspended: bool,
    infoPending: bool, infoLogged: bool, clock: nat)

  predicate Agrees(v: Locals, h: History) {
    && v.open == SessionOpen(h)
    && v.lastTouchFrames == LastFrames(h)
    && v.suspended == Suspended(h)
    && v.connectedSince == Opening(h).2 <= v.clock
    && (v.open ==>
          && v.lastHeartbeat == LastBeat(h) <= v.clock
          && v.infoStart == Opening(h).1 <= v.clock
          && v.lastButtons == SentVersion(h, LED_BUTTONS)
          && v.lastBillboard == SentVersion(h, LED_BILLBOARD)
          && v.lastPwm == SentVersion(h, LED_PWM)
          && InfoAgrees(v, h))
  }

  /** The k-th request comes no sooner than 500 + 1000 (k - 1) ms, and the fourth is the last. */
  predicate InfoAgrees(v: Locals, h: History) {
    var n := Count(h, GET_INFO);
    && (v.infoLogged ==> !v.infoPending)
    && n <= 4 && (n == 4 ==> !v.infoPending)
    && (if n == 0 then v.infoRequest == 0 && Newest(h, GET_INFO).None?
        else && Newest(h, GET_INFO).Some? && v.infoRequest == Newest(h, GET_INFO).value.1
             && v.infoStart + INFO_DELAY_MS + INFO_TIMEOUT_MS * (n - 1) <= v.infoRequest <= v.clock)
  }

  predicate Sound(v: Locals, h: History) {
    Lawful(h) && Agrees(v, h)
  }

  lemma OpenKeeps(v: Locals, h: History, beat: nat, info: nat, since: nat)
    requires Sound(v, h) && !v.open && v.clock <= beat <= info <= since
    ensures Sound(v.(open := true, lastHeartbeat := beat, infoStart := info, infoRequest := 0,
                     lastButtons := 0, lastBillboard := 0, lastPwm := 0, connectedSince := since,
                     infoPending := true, infoLogged := false, clock := since),
                  After(h, Connected(beat, info, since)))
  {
  }

  lemma DropKeeps(v: Locals, h: History)
    requires Sound(v, h) && v.open
    ensures Sound(v.(open := false), After(h, Dropped))
  {
  }

  lemma BeatKeeps(v: Locals, h: History)
    requires Sound(v, h) && v.open && v.clock - v.lastHeartbeat >= HEARTBEAT_MS
    ensures Sound(v.(lastHeartbeat := v.clock), After(h, Sent(HEARTBEAT, [], v.clock)))
  {
  }

  /** The condition under which `device_thread` asks for board info, on its own variables. */
  predicate InfoDue(v: Locals) {
    if v.infoRequest == 0 then v.clock - v.infoStart >= INFO_DELAY_MS
    else v.clock - v.infoRequest >= INFO_TIMEOUT_MS
  }

  lemma AskKeeps(v: Locals, h: History, pending: bool, logged: bool)
    requires Sound(v, h) && v.open && v.infoPending && InfoDue(v)
    requires (logged ==> !pending) && (pending ==> v.infoRequest == 0 || v.clock - v.infoStart <= INFO_GIVE_UP_MS)
    ensures var g := After(h, Sent(GET_INFO, [], v.clock));
            Sound(v.(infoRequest := v.clock, infoPending := pending, infoLogged := logged), g) && InfoNotDue(g, v.clock)
  {
  }

  lemma InfoDueAgrees(v: Locals, h: History)
    requires Sound(v, h) && v.open
    ensures InfoDue(v) == !InfoNotDue(h, v.clock) && (v.infoLogged ==> !v.infoPending)
  {
  }

  /** Only the session flag and the three board-info variables may differ. */
  predicate OnlyInfoMoved(u: Locals, v: Locals) {
    v == u.(open := v.open, infoRequest := v.infoRequest, infoPending := v.infoPending, infoLogged := v.infoLogged)
  }

  lemma ReaderKeeps(v: Locals, h: History, pending: bool, logged: bool)
    requires Sound(v, h) && (logged ==> !pending) && (pending ==> v.infoPending)
    ensures Sound(v.(infoPending := pending, infoLogged := logged), h)
  {
  }

  lemma ObserveKeeps(v: Locals, h: History, o: Observation)
    requires Sound(v, h) && v.open
    ensures Sound(v.(lastTouchFrames := o.frames,
                     suspended := SilentFor(o, v.connectedSince, STALE_PAUSE_MS)
                                  || (o.frames == v.lastTouchFrames && v.suspended)),
                  After(h, Observed(o)))
  {
  }

  function SetLast(v: Locals, cmd: byte, version: nat): Locals {
    if cmd == LED_BUTTONS then v.(lastButtons := version)
    else if cmd == LED_BILLBOARD then v.(lastBillboard := version)
    else v.(lastPwm := version)
  }

  function GetLast(v: Locals, cmd: byte): nat {
    if cmd == LED_BUTTONS then v.lastButtons
    else if cmd == LED_BILLBOARD then v.lastBillboard
    else v.lastPwm
  }

  /** Only the session flag and the last-seen sequence of one group may differ. */
  predicate OnlyGroupMoved(u: Locals, v: Locals, cmd: byte) {
    v == SetLast(u.(open := v.open), cmd, GetLast(v, cmd))
  }

  lemma GroupMoveKeeps(u: Locals, v: Locals, cmd: byte)
    requires OnlyGroupMoved(u, v, cmd)
    ensures v.clock == u.clock && v.infoPending == u.infoPending && v.suspended == u.suspended
  {
  }

  /** The state in which LED groups are sent: an observation of the page made, output not suspended. */
  predicate Sending(v: Locals, h: History, page: Output) {
    && Sound(v, h) && v.open && !v.suspended && AllInStep(h, page)
    && Current(h).Some? && Current(h).value.page == page
  }

  /** The state after sending the page's payload of one group. */
  lemma SendIsSound(v: Locals, h: History, page: Output, cmd: byte)
    requires Sending(v, h, page) && IsLed(cmd) && GetLast(v, cmd) != Version(page, cmd)
    ensures Sound(SetLast(v, cmd, Version(page, cmd)), After(h, Sent(cmd, Payload(page, cmd), v.clock)))
  {
    hide AllInStep;
  }

  lemma SendKeepsGroup(h: History, page: Output, cmd: byte, at: nat, other: byte)
    requires Current(h).Some? && Current(h).value.page == page && IsLed(cmd) && IsLed(other)
    requires InStep(h, page, other) && InStep(h, page, cmd) && SentVersion(h, cmd) != Version(page, cmd)
    ensures var g := After(h, Sent(cmd, Payload(page, cmd), at)); InStep(g, page, other) && GroupDelivered(g, page, cmd)
  {
  }

  lemma SendKeeps(v: Locals, h: History, page: Output, cmd: byte)
    requires Sending(v, h, page) && IsLed(cmd) && GetLast(v, cmd) != Version(page, cmd)
    ensures var g := After(h, Sent(cmd, Payload(page, cmd), v.clock));
            Sending(SetLast(v, cmd, Version(page, cmd)), g, page) && GroupDelivered(g, page, cmd)
  {
    LastIsSent(v, h, cmd);
    SendIsSound(v, h, page, cmd);
    hide Sound, InStep, GroupDelivered;
    SendKeepsGroup(h, page, cmd, v.clock, LED_BUTTONS);
    SendKeepsGroup(h, page, cmd, v.clock, LED_BILLBOARD);
    SendKeepsGroup(h, page, cmd, v.clock, LED_PWM);
  }

  lemma LastIsSent(v: Locals, h: History, cmd: byte)
    requires Sound(v, h) && v.open && IsLed(cmd)
    ensures GetLast(v, cmd) == SentVersion(h, cmd)
  {
  }

  lemma ClockKeeps(v: Locals, h: History, now: nat)
    requires Sound(v, h) && v.clock <= now
    ensures Sound(v.(clock := now), h)
  {
  }

  lemma EndKeeps(v: Locals, h: History, infoPending: bool)
    requires Sound(v, h) && v.open && EndIsLawful(h, infoPending)
    ensures Sound(v, After(h, Ended(infoPending)))
  {
  }

  /** While sending, every group is in step, and stays so if the session drops. */
  lemma SendingIsInStep(v: Locals, h: History, page: Output)
    requires Sending(v, h, page)
    ensures AllInStep(h, page) && !v.suspended
    ensures AllInStep(After(h, Dropped), page)
  {
    DropKeepsStep(h, page);
  }

  lemma ThreeGroupsDeliver(h0: History, h1: History, h2: History, h3: History, page: Output)
    requires AtMostOne(h0, h1, LED_BUTTONS) && GroupDelivered(h1, page, LED_BUTTONS)
    requires AtMostOne(h1, h2, LED_BILLBOARD) && GroupDelivered(h2, page, LED_BILLBOARD)
    requires AtMostOne(h2, h3, LED_PWM) && GroupDelivered(h3, page, LED_PWM)
    ensures Delivered(h3, page) && SamePacing(h0, h3) && Current(h3) == Current(h0)
  {
    hide AtMostOne, GroupDelivered;
    LedKeepsPacing(h0, h1, LED_BUTTONS);
    LedKeepsPacing(h1, h2, LED_BILLBOARD);
    LedKeepsPacing(h2, h3, LED_PWM);
    LedKeepsGroup(h1, h2, page, LED_BUTTONS, LED_BILLBOARD);
    LedKeepsGroup(h2, h3, page, LED_BUTTONS, LED_PWM);
    LedKeepsGroup(h2, h3, page, LED_BILLBOARD, LED_PWM);
  }

  // ----- the thread -----

  /** Everything outside the thread that one iteration meets; the clock advances by any amounts. */
  datatype World = World(
    enabled: bool, vendorPresent: bool, portFound: bool, portOpens: bool, active: bool,
    beatOk: bool, infoOk: bool, buttonsOk: bool, billboardOk: bool, pwmOk: bool,
    reader0: nat, reader1: nat, reader2: nat,  // progress of the reader's board-info stores at three points
    frames: nat, lastUpdate: nat,
    wait0: nat, wait1: nat, wait2: nat, wait3: nat)
  {
    /** The iteration gets past the session checks with a session open. */
    predicate Up(open: bool) {
      enabled && !vendorPresent && (open || (portFound && portOpens))
    }

    /** Whether the device accepts a frame with this command. */
    predicate Takes(cmd: byte) {
      if cmd == HEARTBEAT then beatOk
      else if cmd == GET_INFO then infoOk
      else if cmd == LED_BUTTONS then buttonsOk
      else if cmd == LED_BILLBOARD then billboardOk
      else pwmOk
    }
  }

  /** A game update of anything but the buttons, which only the halves of `led_gs_update` change. */
  type OtherUpdate = u: Update | !u.SetButtons? witness SetTouchEnabled(false)

  /** Half of a `led_gs_update` call, another game update of this player's page, or an iteration. */
  datatype Turn = Led(e: Half) | Game(u: OtherUpdate) | Loop(w: World)

  /** The game's side after a turn, for the thread that serves `board`. */
  function PlayTurn(o: Overlap, t: Turn, board: nat): (r: Overlap)
    requires o.Valid() && board <= 1
    ensures r.Valid()
  {
    match t
    case Led(e) => PlayHalf(o, e)
    case Game(u) => o.(leds := o.leds.(pages := o.leds.pages[board := Updated(o.leds.pages[board], u)]))
    case Loop(_) => o
  }

  function Played(start: Overlap, schedule: seq<Turn>, board: nat): (r: Overlap)
    requires start.Valid() && board <= 1
    ensures r.Valid()
  {
    if schedule == [] then start
    else PlayTurn(Played(start, schedule[..|schedule| - 1], board), schedule[|schedule| - 1], board)
  }

  /** The output page that turn `i` of a schedule meets. */
  function PageAt(start: Overlap, schedule: seq<Turn>, board: nat, i: nat): Output
    requires start.Valid() && board <= 1 && i <= |schedule|
  {
    Played(start, schedule[..i], board).leds.pages[board]
  }

  /** What a turn does to this player's page is at most one game update. */
  lemma TurnUpdatesPage(o: Overlap, t: Turn, board: nat) returns (u: Option<Update>)
    requires o.Valid() && board <= 1
    ensures var page := o.leds.pages[board];
            PlayTurn(o, t, board).leds.pages[board] == if u.Some? then Updated(page, u.value) else page
  {
    hide Updated, Latch;
    u := None;
    match t
    case Led(Publishes(n)) =>
      if n < |o.built| {
        assert o.built[n] in o.built;
        if o.built[n].c.board == board {
          u := Some(SetButtons(o.built[n].fades));
        }
      }
    case Led(Latches(c)) => LatchKeepsPages(o, c);
    case Game(v) => u := Some(v);
    case Loop(_) =>
  }

  lemma LatchKeepsPages(o: Overlap, c: Call)
    requires o.Valid()
    ensures PlayHalf(o, Latches(c)).leds.pages == o.leds.pages
  {
  }

  lemma PlayKeepsStep(h: History, o: Overlap, t: Turn, board: nat)
    requires o.Valid() && board <= 1 && AllInStep(h, o.leds.pages[board])
    ensures AllInStep(h, PlayTurn(o, t, board).leds.pages[board])
  {
    hide AllInStep, PlayTurn, Updated;
    var u := TurnUpdatesPage(o, t, board);
    if u.Some? {
      UpdateKeepsStep(h, o.leds.pages[board], u.value);
    }
  }

  /** `touch_serial_age_ms`, with its saturating subtraction. */
  function TouchAge(lastUpdate: nat, since: nat, now: nat): Option<nat> {
    if lastUpdate != 0 then Some(if now >= lastUpdate then now - lastUpdate else 0)
    else if since != 0 then Some(if now >= since then now - since else 0)
    else None
  }

  lemma AgeMeasuresSilence(o: Observation, since: nat, ms: nat)
    requires ms > 0
    ensures var age := TouchAge(o.lastUpdate, since, o.now);
            SilentFor(o, since, ms) == (o.page.touchEnabled && since != 0 && o.now - since >= STALE_GRACE_MS
                                        && age.Some? && age.value >= ms)
  {
  }

  /** Fresh pages, with this player's touch switch as configured. */
  function Begin(enabled: bool, board: nat): (o: Overlap)
    requires board <= 1
    ensures o.Valid()
  {
    Overlap(OFF.(pages := OFF.pages[board := FRESH.(touchEnabled := enabled)]), [])
  }

  predicate ZeroIsUnset(o: Output) {
    && (o.buttonsSequence == 0 ==> o.buttons == FRESH.buttons)
    && (o.billboardSequence == 0 ==> o.billboard == FRESH.billboard)
    && (o.pwmSequence == 0 ==> o.pwm == FRESH.pwm)
  }

  /** From a fresh page, version 0 means the group was never changed. */
  lemma {:induction false} VersionZeroIsNeverSet(enabled: bool, schedule: seq<Turn>, board: nat)
    requires board <= 1
    ensures ZeroIsUnset(Played(Begin(enabled, board), schedule, board).leds.pages[board])
  {
    if schedule != [] {
      hide PlayTurn;
      var before := schedule[..|schedule| - 1];
      VersionZeroIsNeverSet(enabled, before, board);
      var u := TurnUpdatesPage(Played(Begin(enabled, board), before, board), schedule[|schedule| - 1], board);
    }
  }

  // ----- iterations and runs as relations -----

  /** The thread between two turns. */
  datatype Moment = Moment(v: Locals, h: History)

  /** What a turn goes by: what it observes and when, the outside, and whether board info is pending. */
  datatype Terms = Terms(o: Observation, w: World, pending: bool)

  /** The write that is due: a heartbeat, then board info; and with the page read, the first LED group that moved. */
  function Due(h: History, t: Terms): Option<byte> {
    if Current(h).None? then
      if t.o.now >= LastBeat(h) + HEARTBEAT_MS then Some(HEARTBEAT)
      else if t.pending && !InfoNotDue(h, t.o.now) then Some(GET_INFO)
      else None
    else if Suspended(h) then None
    else if SentVersion(h, LED_BUTTONS) != Version(t.o.page, LED_BUTTONS) then Some(LED_BUTTONS)
    else if SentVersion(h, LED_BILLBOARD) != Version(t.o.page, LED_BILLBOARD) then Some(LED_BILLBOARD)
    else if SentVersion(h, LED_PWM) != Version(t.o.page, LED_PWM) then Some(LED_PWM)
    else None
  }

  /**
   * What happens next in a turn. A due write is accepted, or refused, which drops the session; with
   * none due the page and touch state are observed, and then the turn is over: dropped when touch
   * has been silent for a second, else ended.
   */
  function NextEvent(h: History, t: Terms): Event {
    match Due(h, t)
    case Some(cmd) =>
      if t.w.Takes(cmd) then Sent(cmd, if IsLed(cmd) then Payload(t.o.page, cmd) else [], t.o.now) else Dropped
    case None =>
      if Current(h).None? then Observed(t.o)
      else if SilentFor(t.o, Opening(h).2, STALE_RECONNECT_MS) then Dropped
      else Ended(t.pending)
  }

  /** `h` is `g` and what happens next, some steps on, with the turn still under way. */
  predicate Unfolds(g: History, h: History, t: Terms) {
    || h == g
    || (h.After? && (h.last.Sent? || h.last.Observed?) && h.last == NextEvent(h.past, t) && Unfolds(g, h.past, t))
  }

  /** `h` is `g` and the rest of the turn, up to its end or the drop of the session. */
  predicate TurnDone(g: History, h: History, t: Terms) {
    h.After? && (h.last.Ended? || h.last.Dropped?) && h.last == NextEvent(h.past, t) && Unfolds(g, h.past, t)
  }

  /** Where a turn that gets past the session checks starts: the open session, or a new one. */
  function Begun(a: Moment, w: World): (History, nat) {
    if a.v.open then (a.h, a.v.clock)
    else
      var beat := a.v.clock + w.wait0;
      var since := beat + w.wait1 + w.wait2;
      (After(a.h, Connected(beat, beat + w.wait1, since)), since)
  }

  /** Whether board info is still pending after a turn that began at `s`: a retry after three seconds gives up. */
  predicate PendingAfter(s: History, t: Terms) {
    && t.pending
    && (!InfoNotDue(s, t.o.now) ==>
          && t.w.reader1 == 0
          && (Newest(s, GET_INFO).Some? ==> t.o.now - Opening(s).1 <= INFO_GIVE_UP_MS && t.w.reader2 == 0))
  }

  /**
   * What one turn of the `loop` does against one page snapshot, exactly. The thread is left
   * disconnected unless everything needed to connect is there; a dead session is dropped; otherwise
   * the turn is the events that come next, one after the other, up to its end or the drop.
   */
  predicate Iterated(a: Moment, b: Moment, page: Output, w: World) {
    if !w.Up(a.v.open) then
      !b.v.open && b.v.clock == a.v.clock && b.h == if a.v.open then After(a.h, Dropped) else a.h
    else
      var (s, clock) := Begun(a, w);
      if !w.active then !b.v.open && b.v.clock == clock && b.h == After(s, Dropped)
      else
        var t := TermsOf(a, page, w, clock);
        && b.v.clock == t.o.now && TurnDone(s, b.h, t) && b.v.open == b.h.last.Ended?
        && (b.v.open ==> b.v.infoPending == PendingAfter(s, t))
  }

  function TermsOf(a: Moment, page: Output, w: World, clock: nat): Terms {
    var o := Observation(page, w.frames, w.lastUpdate, clock + w.wait3);
    Terms(o, w, (a.v.open ==> a.v.infoPending) && w.reader0 == 0)
  }

  lemma {:induction false} UnfoldsOn(f: History, g: History, h: History, t: Terms)
    requires Unfolds(f, g, t) && Unfolds(g, h, t)
    ensures Unfolds(f, h, t)
  {
    if h != g {
      UnfoldsOn(f, g, h.past, t);
    }
  }

  lemma DoneOn(f: History, g: History, h: History, t: Terms)
    requires Unfolds(f, g, t) && TurnDone(g, h, t)
    ensures TurnDone(f, h, t)
  {
    UnfoldsOn(f, g, h.past, t);
  }

  lemma {:induction false} UnfoldedIsPast(g: History, h: History, t: Terms)
    requires Unfolds(g, h, t)
    ensures IsPast(g, h)
  {
    if h != g {
      UnfoldedIsPast(g, h.past, t);
    }
  }

  /** What lies between the start of a turn and one of its later moments is what comes next. */
  lemma {:induction false} NextIsTaken(g: History, k: History, h: History, t: Terms)
    requires Unfolds(g, k, t) && Unfolds(g, h, t) && IsPast(k, h) && k != h
    ensures IsPast(After(k, NextEvent(k, t)), h)
  {
    if h == g {
      UnfoldedIsPast(g, k, t);
      PastIsShorter(g, k);
      PastIsShorter(k, h);
      assert false;
    } else if h.past != k {
      NextIsTaken(g, k, h.past, t);
    }
  }

  function Length(h: History): nat {
    if h.Start? then 0 else Length(h.past) + 1
  }

  lemma {:induction false} PastIsShorter(g: History, h: History)
    requires IsPast(g, h)
    ensures Length(g) <= Length(h) && (g != h ==> Length(g) < Length(h))
  {
    if g != h {
      PastIsShorter(g, h.past);
    }
  }

  /** Two moments of one turn: one is the past of the other. */
  lemma {:induction false} MomentsCompare(g: History, h: History, k: History, t: Terms)
    requires Unfolds(g, h, t) && Unfolds(g, k, t)
    ensures IsPast(h, k) || IsPast(k, h)
    decreases h
  {
    if h == g {
      UnfoldedIsPast(g, k, t);
    } else {
      MomentsCompare(g, h.past, k, t);
      if IsPast(h.past, k) && h.past != k {
        NextIsTaken(g, h.past, k, t);
      }
    }
  }

  /** A turn under way is not over: what comes next does not also lie inside it. */
  lemma OverIsLast(g: History, h: History, k: History, t: Terms)
    requires TurnDone(g, h, t) && Unfolds(g, k, t) && IsPast(h.past, k)
    ensures h.past == k
  {
    if h.past != k {
      NextIsTaken(g, h.past, k, t);
      OverIsNoPast(g, h, k, t);
    }
  }

  lemma {:induction false} OverIsNoPast(g: History, h: History, k: History, t: Terms)
    requires TurnDone(g, h, t) && Unfolds(g, k, t)
    ensures !IsPast(h, k)
  {
    if k == g {
      UnfoldedIsPast(g, h.past, t);
      if IsPast(h, k) {
        PastIsShorter(g, h.past);
        PastIsShorter(h, k);
      }
    } else {
      OverIsNoPast(g, h, k.past, t);
    }
  }

  /** A turn's whole history is fixed by where it starts, the page, the outside and the pending flag. */
  lemma TurnIsDetermined(g: History, h: History, k: History, t: Terms)
    requires TurnDone(g, h, t) && TurnDone(g, k, t)
    ensures h == k
  {
    MomentsCompare(g, h.past, k.past, t);
    if IsPast(h.past, k.past) {
      OverIsLast(g, h, k.past, t);
    } else {
      OverIsLast(g, k, h.past, t);
    }
  }

  /** One turn from the same moment, page and outside leads to one history, clock, session and pending flag. */
  lemma IterationIsDetermined(a: Moment, b: Moment, c: Moment, page: Output, w: World)
    requires Iterated(a, b, page, w) && Iterated(a, c, page, w)
    ensures b.h == c.h && b.v.clock == c.v.clock && b.v.open == c.v.open
    ensures b.v.open ==> b.v.infoPending == c.v.infoPending
  {
    var (s, clock) := Begun(a, w);
    if w.Up(a.v.open) && w.active {
      TurnIsDetermined(s, b.h, c.h, TermsOf(a, page, w, clock));
    }
  }

  /** The history only grows. */
  lemma IterationKeepsPast(a: Moment, b: Moment, page: Output, w: World)
    requires Iterated(a, b, page, w)
    ensures IsPast(a.h, b.h) && (w.Up(a.v.open) ==> a.h != b.h)
  {
    var (s, clock) := Begun(a, w);
    PastIsReflexive(a.h);
    if w.Up(a.v.open) {
      if w.active {
        UnfoldedIsPast(s, b.h.past, TermsOf(a, page, w, clock));
      }
      assert IsPast(s, b.h.past);
      PastIsTransitive(a.h, s, b.h.past);
      PastIsShorter(a.h, b.h.past);
    }
  }

  /** Every frame a turn adds to the history was accepted by the device. */
  lemma {:induction false} SentWasAccepted(g: History, h: History, t: Terms, es: seq<Event>)
    requires Unfolds(g, h, t) && h == Extend(g, es)
    ensures forall e :: e in es && e.Sent? ==> t.w.Takes(e.cmd) && e.at == t.o.now
  {
    if es != [] {
      var before := es[..|es| - 1];
      ExtendIsLonger(g, es);
      SentWasAccepted(g, Extend(g, before), t, before);
    }
  }

  lemma {:induction false} ExtendIsLonger(g: History, es: seq<Event>)
    ensures Length(Extend(g, es)) == Length(g) + |es|
  {
    if es != [] {
      ExtendIsLonger(g, es[..|es| - 1]);
    }
  }

  // ----- the steps of a turn -----

  /** What a write that may be due leaves: nothing new, the accepted frame, or a dropped session. */
  function Written(h: History, due: bool, cmd: byte, payload: seq<byte>, now: nat, ok: bool): History {
    if due then After(h, if ok then Sent(cmd, payload, now) else Dropped) else h
  }

  predicate BeatDue(h: History, now: nat) {
    now >= LastBeat(h) + HEARTBEAT_MS
  }

  predicate GroupDue(h: History, page: Output, cmd: byte) {
    SentVersion(h, cmd) != Version(page, cmd)
  }

  lemma BeatUnfolds(h: History, k: History, t: Terms)
    requires Current(h).None? && k == Written(h, BeatDue(h, t.o.now), HEARTBEAT, [], t.o.now, t.w.beatOk)
    ensures if BeatDue(h, t.o.now) && !t.w.beatOk then TurnDone(h, k, t)
            else && Unfolds(h, k, t) && Current(k).None? && !BeatDue(k, t.o.now)
                 && PendingAfter(k, t) == PendingAfter(h, t)
  {
  }

  lemma AskUnfolds(h: History, k: History, t: Terms)
    requires Current(h).None? && !BeatDue(h, t.o.now)
    requires k == Written(h, t.pending && !InfoNotDue(h, t.o.now), GET_INFO, [], t.o.now, t.w.infoOk)
    ensures if t.pending && !InfoNotDue(h, t.o.now) && !t.w.infoOk then TurnDone(h, k, t)
            else Unfolds(h, k, t) && Current(k).None? && Due(k, t) == None
  {
  }

  lemma ObserveUnfolds(h: History, t: Terms)
    requires Current(h).None? && Due(h, t) == None
    ensures var k := After(h, Observed(t.o));
            && Unfolds(h, k, t) && Current(k) == Some(t.o)
            && (SilentFor(t.o, Opening(h).2, STALE_RECONNECT_MS) ==> TurnDone(h, After(k, Dropped), t))
  {
  }

  /** The page has been read and touch is not so silent that the session would be dropped. */
  predicate Watched(h: History, t: Terms) {
    Current(h) == Some(t.o) && !SilentFor(t.o, Opening(h).2, STALE_RECONNECT_MS)
  }

  /** The groups up to and with this one have been sent. */
  predicate UpTo(h: History, page: Output, cmd: byte) {
    && !GroupDue(h, page, LED_BUTTONS)
    && (cmd != LED_BUTTONS ==> !GroupDue(h, page, LED_BILLBOARD))
    && (cmd == LED_PWM ==> !GroupDue(h, page, LED_PWM))
  }

  lemma LedUnfolds(h: History, k: History, t: Terms, cmd: byte)
    requires IsLed(cmd) && Watched(h, t) && !Suspended(h)
    requires cmd == LED_BILLBOARD ==> UpTo(h, t.o.page, LED_BUTTONS)
    requires cmd == LED_PWM ==> UpTo(h, t.o.page, LED_BILLBOARD)
    requires k == Written(h, GroupDue(h, t.o.page, cmd), cmd, Payload(t.o.page, cmd), t.o.now, t.w.Takes(cmd))
    ensures if GroupDue(h, t.o.page, cmd) && !t.w.Takes(cmd) then TurnDone(h, k, t)
            else Unfolds(h, k, t) && Watched(k, t) && !Suspended(k) && UpTo(k, t.o.page, cmd)
  {
  }

  lemma EndIsNext(h: History, t: Terms)
    requires Watched(h, t) && (Suspended(h) || UpTo(h, t.o.page, LED_PWM))
    ensures NextEvent(h, t) == Ended(t.pending)
  {
  }

  /** A run: every iteration does what an iteration does to the page it meets, and nothing else moves the thread. */
  predicate IsRun(ms: seq<Moment>, start: Overlap, schedule: seq<Turn>, board: nat)
    requires start.Valid() && board <= 1
  {
    && |ms| == |schedule| + 1
    && (forall i :: 0 <= i < |ms| ==> Sound(ms[i].v, ms[i].h) && Current(ms[i].h).None?)
    && (forall i :: 0 <= i < |schedule| ==> TurnTaken(ms[i], ms[i + 1], PageAt(start, schedule, board, i), schedule[i]))
  }

  predicate TurnTaken(a: Moment, b: Moment, page: Output, t: Turn) {
    if t.Loop? then Iterated(a, b, page, t.w) else b == a
  }

  /** What `PendingAfter` comes to on the thread's variables: a retry is a request after one of the session. */
  lemma PendingAgrees(v: Locals, h: History, t: Terms)
    requires Sound(v, h) && v.open && t.o.now == v.clock && (t.pending ==> v.infoPending)
    ensures PendingAfter(h, t)
         == (t.pending && (InfoDue(v) ==>
                             && t.w.reader1 == 0
                             && (v.infoRequest != 0 ==> v.clock - v.infoStart <= INFO_GIVE_UP_MS && t.w.reader2 == 0)))
  {
  }

  /** `device_thread`; its mutable locals are one record. */
  class DeviceThread {
    var v: Locals
    var ledSuspendedFlag: bool  // DeviceHandle::led_suspended
    ghost var h: History

    /** Between iterations the shared suspend flag mirrors the local latch. */
    ghost predicate Valid()
      reads this
    {
      Sound(v, h) && ledSuspendedFlag == v.suspended
    }

    constructor (startClock: nat, frames: nat)
      ensures Valid() && h == Start(frames) && v.clock == startClock && !v.open
    {
      v := Locals(false, startClock, 0, 0, 0, 0, 0, 0, frames, false, false, false, startClock);
      ledSuspendedFlag := false;
      h := Start(frames);
    }

    /** `disconnect_session` as this thread sees it; its effect on the input page is in Mai2Inputs. */
    method Disconnect()
      requires Valid()
      modifies this`v, this`h
      ensures Valid() && v == old(v).(open := false)
      ensures h == if old(v).open then After(old(h), Dropped) else old(h)
    {
      hide Sound;
      if v.open {
        DropKeeps(v, h);
        h := After(h, Dropped);
      }
      v := v.(open := false);
    }

    /** `write_frame`: the history records exactly the frames the device accepted. */
    method WriteFrame(cmd: byte, payload: seq<byte>, now: nat, accepted: bool) returns (ok: bool)
      modifies this`h
      ensures ok == accepted
      ensures h == if ok then After(old(h), Sent(cmd, payload, now)) else old(h)
    {
      ok := accepted;
      if ok {
        h := After(h, Sent(cmd, payload, now));
      }
    }

    /** Opens a session; no last-seen sequence survives a reconnect. */
    method Open(w: World)
      requires Valid() && !v.open
      modifies this`v, this`h
      ensures Valid() && v.open && v.infoPending
      ensures (h, v.clock) == Begun(Moment(old(v), old(h)), w)
    {
      hide Sound;
      v := v.(open := true, infoPending := true, infoLogged := false);
      v := v.(clock := v.clock + w.wait0);
      v := v.(lastHeartbeat := v.clock, clock := v.clock + w.wait1);
      v := v.(infoStart := v.clock, infoRequest := 0);
      v := v.(lastButtons := 0, lastBillboard := 0, lastPwm := 0, clock := v.clock + w.wait2);
      v := v.(connectedSince := v.clock);
      OpenKeeps(old(v), h, v.lastHeartbeat, v.infoStart, v.connectedSince);
      h := After(h, Connected(v.lastHeartbeat, v.infoStart, v.connectedSince));
    }

    method Beat(now: nat, w: World) returns (go: bool)
      requires Valid() && v.open && now == v.clock
      modifies this`v, this`h
      ensures Valid() && v.open == go && v == old(v).(open := v.open, lastHeartbeat := v.lastHeartbeat)
      ensures h == Written(old(h), BeatDue(old(h), now), HEARTBEAT, [], now, w.beatOk)
      ensures go == (BeatDue(old(h), now) ==> w.beatOk)
      ensures go ==> BeatIsFresh(h, now) && AtMostOne(old(h), h, HEARTBEAT)
    {
      if now - v.lastHeartbeat >= HEARTBEAT_MS {
        BeatKeeps(v, h);
        var ok := WriteFrame(HEARTBEAT, [], now, w.beatOk);
        if !ok {
          Disconnect();
          return false;
        }
        v := v.(lastHeartbeat := now);
      }
      go := true;
    }

    /** The reader thread's two stores on a board-info frame, `pending` first, done as far as `progress`. */
    method ReaderStores(progress: nat)
      modifies this`v
      ensures v == old(v).(infoPending := old(v).infoPending && progress == 0,
                           infoLogged := old(v).infoLogged || progress >= 2)
    {
      if progress >= 1 {
        v := v.(infoPending := false);
      }
      if progress >= 2 {
        v := v.(infoLogged := true);
      }
    }

    /** Sends a board-info request; a retry after three seconds gives up unless the reader has an answer. */
    method RequestInfo(now: nat, w: World, retry: bool) returns (go: bool)
      requires Valid() && v.open && now == v.clock && v.infoPending && InfoDue(v) && retry == (v.infoRequest != 0)
      modifies this`v, this`h
      ensures Valid() && v.open == go
      ensures OnlyInfoMoved(old(v), v)
      ensures h == Written(old(h), true, GET_INFO, [], now, w.infoOk) && go == w.infoOk
      ensures go ==> AtMostOne(old(h), h, GET_INFO) && InfoNotDue(h, now)
      ensures go ==>
                && v.infoRequest == now
                && v.infoPending
                   == (w.reader1 == 0 && (retry ==> now - v.infoStart <= INFO_GIVE_UP_MS && w.reader2 == 0))
    {
      hide Sound, InfoNotDue, AtMostOne, Lawful, SessionOpen, Opening, LastBeat, Count, Newest;
      hide SentVersion, LastFrames, Current, Suspended;
      AtMostOneIs(h, GET_INFO, now);
      InfoDueAgrees(v, h);
      var ok := WriteFrame(GET_INFO, [], now, w.infoOk);
      if !ok {
        Disconnect();
        return false;
      }
      v := v.(infoRequest := now);
      ReaderStores(w.reader1);
      if retry {
        if now - v.infoStart > INFO_GIVE_UP_MS && !v.infoLogged {
          v := v.(infoPending := false, infoLogged := true);
        }
        ReaderStores(w.reader2);
      }
      AskKeeps(old(v), old(h), v.infoPending, v.infoLogged);
      go := true;
    }

    method AskInfo(now: nat, w: World, ghost t: Terms) returns (go: bool, pending: bool)
      requires Valid() && v.open && now == v.clock
      requires t.w == w && t.o.now == now && t.pending == (v.infoPending && w.reader0 == 0)
      modifies this`v, this`h
      ensures Valid() && v.open == go && pending == t.pending
      ensures OnlyInfoMoved(old(v), v)
      ensures var due := pending && !InfoNotDue(old(h), now);
              h == Written(old(h), due, GET_INFO, [], now, w.infoOk) && go == (due ==> w.infoOk)
      ensures go ==> AtMostOne(old(h), h, GET_INFO) && (pending ==> InfoNotDue(h, now))
      ensures go ==> v.infoPending == PendingAfter(old(h), t)
    {
      hide PendingAfter, Sound, InfoNotDue, AtMostOne, Lawful, SessionOpen, Opening, LastBeat, Count, Newest;
      hide SentVersion, LastFrames, Current, Suspended;
      InfoDueAgrees(v, h);
      AtMostOneIs(h, GET_INFO, now);
      ReaderStores(w.reader0);
      ReaderKeeps(old(v), h, v.infoPending, v.infoLogged);
      pending := v.infoPending;
      go := true;
      PendingAgrees(v, h, t);
      if pending {
        go := AskIfDue(now, w);
      }
    }

    /** The first request waits 500 ms, a retry one second. */
    method AskIfDue(now: nat, w: World) returns (go: bool)
      requires Valid() && v.open && now == v.clock && v.infoPending
      modifies this`v, this`h
      ensures Valid() && v.open == go && OnlyInfoMoved(old(v), v)
      ensures h == Written(old(h), !InfoNotDue(old(h), now), GET_INFO, [], now, w.infoOk)
      ensures go == (!InfoNotDue(old(h), now) ==> w.infoOk)
      ensures go ==> AtMostOne(old(h), h, GET_INFO) && InfoNotDue(h, now)
      ensures go ==> v.infoPending == (InfoDue(old(v)) ==>
                       && w.reader1 == 0
                       && (old(v).infoRequest != 0 ==> now - old(v).infoStart <= INFO_GIVE_UP_MS && w.reader2 == 0))
    {
      InfoDueAgrees(v, h);
      AtMostOneIs(h, GET_INFO, now);
      hide Sound, InfoNotDue, AtMostOne, Lawful, SessionOpen, Opening, LastBeat, Count, Newest;
      go := true;
      if v.infoRequest == 0 && now - v.infoStart >= INFO_DELAY_MS {
        go := RequestInfo(now, w, false);
      } else if v.infoRequest != 0 && now - v.infoRequest >= INFO_TIMEOUT_MS {
        go := RequestInfo(now, w, true);
      }
    }

    /** Reads the page and the touch state, and settles the suspend latch and its shared mirror. */
    method Watch(page: Output, now: nat, w: World) returns (go: bool)
      requires Valid() && v.open && now == v.clock
      modifies this
      ensures Valid() && v.open == go
      ensures v == old(v).(open := v.open, suspended := v.suspended, lastTouchFrames := v.lastTouchFrames)
      ensures var o := Observation(page, w.frames, w.lastUpdate, now);
              && go == !SilentFor(o, v.connectedSince, STALE_RECONNECT_MS)
              && h == (if go then After(old(h), Observed(o)) else After(After(old(h), Observed(o)), Dropped))
    {
      hide Sound, Lawful, SessionOpen, Opening, LastBeat, Count, Newest, SentVersion, LastFrames, Current, Suspended;
      ghost var o := Observation(page, w.frames, w.lastUpdate, now);
      ObserveKeeps(v, h, o);
      h := After(h, Observed(o));
      if w.frames != v.lastTouchFrames {
        v := v.(lastTouchFrames := w.frames, suspended := false);
        ledSuspendedFlag := false;
      }
      var age := TouchAge(w.lastUpdate, v.connectedSince, now);
      AgeMeasuresSilence(o, v.connectedSince, STALE_PAUSE_MS);
      AgeMeasuresSilence(o, v.connectedSince, STALE_RECONNECT_MS);
      hide TouchAge, SilentFor;
      var protect := page.touchEnabled && v.connectedSince != 0 && now - v.connectedSince >= STALE_GRACE_MS;
      if protect && age.Some? && age.value >= STALE_PAUSE_MS {
        v := v.(suspended := true);
        ledSuspendedFlag := true;
      }
      if protect && age.Some? && age.value >= STALE_RECONNECT_MS {
        Disconnect();
        return false;
      }
      go := true;
    }

    method SendButtons(page: Output, now: nat, w: World) returns (go: bool)
      requires Valid() && Sending(v, h, page) && now == v.clock
      modifies this`v, this`h
      ensures Valid() && v.open == go && OnlyGroupMoved(old(v), v, LED_BUTTONS)
      ensures var due := GroupDue(old(h), page, LED_BUTTONS);
              && h == Written(old(h), due, LED_BUTTONS, Payload(page, LED_BUTTONS), now, w.buttonsOk)
              && go == (due ==> w.buttonsOk)
      ensures go ==> Sending(v, h, page) && GroupDelivered(h, page, LED_BUTTONS) && AtMostOne(old(h), h, LED_BUTTONS)
    {
      LastIsSent(v, h, LED_BUTTONS);
      if page.buttonsSequence != v.lastButtons {
        SendKeeps(v, h, page, LED_BUTTONS);
        var payload := ButtonRgbPayload(page.buttons);
        var ok := WriteFrame(LED_BUTTONS, payload, now, w.buttonsOk);
        if !ok {
          Disconnect();
          return false;
        }
        v := v.(lastButtons := page.buttonsSequence);
      }
      go := true;
    }

    method SendBillboard(page: Output, now: nat, w: World) returns (go: bool)
      requires Valid() && Sending(v, h, page) && now == v.clock
      modifies this`v, this`h
      ensures Valid() && v.open == go && OnlyGroupMoved(old(v), v, LED_BILLBOARD)
      ensures var due := GroupDue(old(h), page, LED_BILLBOARD);
              && h == Written(old(h), due, LED_BILLBOARD, Payload(page, LED_BILLBOARD), now, w.billboardOk)
              && go == (due ==> w.billboardOk)
      ensures go ==>
                Sending(v, h, page) && GroupDelivered(h, page, LED_BILLBOARD) && AtMostOne(old(h), h, LED_BILLBOARD)
    {
      LastIsSent(v, h, LED_BILLBOARD);
      if page.billboardSequence != v.lastBillboard {
        SendKeeps(v, h, page, LED_BILLBOARD);
        var ok := WriteFrame(LED_BILLBOARD, page.billboard, now, w.billboardOk);
        if !ok {
          Disconnect();
          return false;
        }
        v := v.(lastBillboard := page.billboardSequence);
      }
      go := true;
    }

    method SendPwm(page: Output, now: nat, w: World) returns (go: bool)
      requires Valid() && Sending(v, h, page) && now == v.clock
      modifies this`v, this`h
      ensures Valid() && v.open == go && OnlyGroupMoved(old(v), v, LED_PWM)
      ensures var due := GroupDue(old(h), page, LED_PWM);
              && h == Written(old(h), due, LED_PWM, Payload(page, LED_PWM), now, w.pwmOk)
              && go == (due ==> w.pwmOk)
      ensures go ==> Sending(v, h, page) && GroupDelivered(h, page, LED_PWM) && AtMostOne(old(h), h, LED_PWM)
    {
      LastIsSent(v, h, LED_PWM);
      if page.pwmSequence != v.lastPwm {
        SendKeeps(v, h, page, LED_PWM);
        var ok := WriteFrame(LED_PWM, page.pwm, now, w.pwmOk);
        if !ok {
          Disconnect();
          return false;
        }
        v := v.(lastPwm := page.pwmSequence);
      }
      go := true;
    }

    /** `tick_ms`: the clock has moved on by any amount. */
    method Tick(wait: nat) returns (now: nat)
      requires Valid()
      modifies this`v
      ensures Valid() && v == old(v).(clock := now) && now == old(v).clock + wait
    {
      hide Sound;
      ClockKeeps(v, h, v.clock + wait);
      now := v.clock + wait;
      v := v.(clock := now);
    }

    /** The part of an iteration that keeps the session alive: clock, heartbeat, board info. */
    method KeepAlive(ghost page: Output, w: World, ghost t: Terms) returns (go: bool, pending: bool)
      requires Valid() && v.open && AllInStep(h, page) && Current(h).None?
      requires t.w == w && t.o.now == v.clock + w.wait3 && t.pending == (v.infoPending && w.reader0 == 0)
      modifies this`v, this`h
      ensures Valid() && v.open == go && AllInStep(h, page) && v.clock == t.o.now
      ensures if go then Unfolds(old(h), h, t) && Current(h).None? && Due(h, t) == None
              else TurnDone(old(h), h, t) && h.last.Dropped?
      ensures go ==> BeatIsFresh(h, v.clock) && (pending ==> InfoNotDue(h, v.clock))
      ensures go ==> pending == t.pending && v.infoPending == PendingAfter(old(h), t)
    {
      hide Sound, AllInStep, InfoNotDue, BeatIsFresh, BeatDue, AtMostOne, PendingAfter, Unfolds, NextEvent, Due;
      hide Lawful, SessionOpen, Opening, LastBeat, Count, Newest, SentVersion, LastFrames, Current, Suspended;
      var now := Tick(w.wait3);
      pending := false;
      DropKeepsStep(h, page);
      go := Beat(now, w);
      ghost var g := h;
      BeatUnfolds(old(h), g, t);
      if !go {
        return;
      }
      AtMostOneKeepsStep(old(h), g, HEARTBEAT, page);
      DropKeepsStep(g, page);
      go, pending := AskInfo(now, w, t);
      AskUnfolds(g, h, t);
      if !go {
        DoneOn(old(h), g, h, t);
        return;
      }
      AtMostOneKeepsStep(g, h, GET_INFO, page);
      UnfoldsOn(old(h), g, h, t);
      InfoKeepsBeat(g, h, now);
    }

    /** The three LED groups in order; the first failed write ends the session. */
    method SendLeds(page: Output, now: nat, w: World, ghost t: Terms) returns (go: bool)
      requires Valid() && Sending(v, h, page) && now == v.clock
      requires t.w == w && t.o.page == page && t.o.now == now && Watched(h, t) && !Suspended(h)
      modifies this`v, this`h
      ensures Valid() && v.open == go && v.clock == old(v).clock && v.infoPending == old(v).infoPending
      ensures AllInStep(h, page)
      ensures if go then Unfolds(old(h), h, t) && Watched(h, t) && UpTo(h, page, LED_PWM)
              else TurnDone(old(h), h, t) && h.last.Dropped?
      ensures go ==> Delivered(h, page) && SamePacing(old(h), h) && !v.suspended
    {
      hide Sound, AllInStep, AtMostOne, GroupDelivered, SamePacing, Delivered, OnlyGroupMoved;
      hide Unfolds, NextEvent, Watched, UpTo, GroupDue, Suspended, Version, Payload;
      ghost var h0, v0 := h, v;
      SendingIsInStep(v, h, page);
      go := SendButtons(page, now, w);
      ghost var h1, v1 := h, v;
      GroupMoveKeeps(v0, v1, LED_BUTTONS);
      LedUnfolds(h0, h1, t, LED_BUTTONS);
      if !go {
        return;
      }
      SendingIsInStep(v, h, page);
      go := SendBillboard(page, now, w);
      ghost var h2, v2 := h, v;
      GroupMoveKeeps(v1, v2, LED_BILLBOARD);
      LedUnfolds(h1, h2, t, LED_BILLBOARD);
      if !go {
        DoneOn(h0, h1, h2, t);
        return;
      }
      SendingIsInStep(v, h, page);
      UnfoldsOn(h0, h1, h2, t);
      go := SendPwm(page, now, w);
      GroupMoveKeeps(v2, v, LED_PWM);
      LedUnfolds(h2, h, t, LED_PWM);
      if !go {
        DoneOn(h0, h2, h, t);
        return;
      }
      SendingIsInStep(v, h, page);
      UnfoldsOn(h0, h2, h, t);
      ThreeGroupsDeliver(h0, h1, h2, h, page);
    }

    /** The rest of an iteration: the page snapshot, the watchdog, the LED groups. */
    method Drive(page: Output, w: World, pending: bool, ghost t: Terms)
      requires Valid() && v.open && AllInStep(h, page)
      requires t == Terms(Observation(page, w.frames, w.lastUpdate, v.clock), w, pending)
      requires Current(h).None? && Due(h, t) == None
      requires BeatIsFresh(h, v.clock) && (pending ==> InfoNotDue(h, v.clock))
      modifies this
      ensures Valid() && AllInStep(h, page) && v.clock == old(v).clock && v.infoPending == old(v).infoPending
      ensures TurnDone(old(h), h, t) && v.open == h.last.Ended? && Current(h).None?
    {
      hide AllInStep, Delivered, SilentFor, BeatIsFresh, InfoNotDue, Lawful;
      hide LastBeat, Count, Newest, SentVersion, LastFrames;
      hide Unfolds, NextEvent, Due, UpTo, PendingAfter;
      var now := v.clock;
      ghost var o := t.o;
      ghost var seen := After(h, Observed(o));
      ObservedKeepsPacing(h, o);
      ObserveUnfolds(h, t);
      OtherEventsKeepStep(h, Observed(o), page);
      OtherEventsKeepStep(seen, Dropped, page);
      var go := Watch(page, now, w);
      if !go {
        return;
      }
      if !v.suspended {
        go := SendLeds(page, now, w, t);
        if !go {
          DoneOn(old(h), seen, h, t);
          return;
        }
        UnfoldsOn(old(h), seen, h, t);
      }
      SamePacingSameDue(old(h), h, now);
      EndKeeps(v, h, pending);
      EndIsNext(h, t);
      OtherEventsKeepStep(h, Ended(pending), page);
      h := After(h, Ended(pending));
    }

    /** One turn of the `loop`. */
    method Iterate(page: Output, w: World)
      requires Valid() && AllInStep(h, page) && Current(h).None?
      modifies this
      ensures Valid() && AllInStep(h, page) && Current(h).None?
      ensures Iterated(Moment(old(v), old(h)), Moment(v, h), page, w)
    {
      hide Sound, AllInStep, Unfolds, Due, PendingAfter;
      DropKeepsStep(h, page);
      ghost var a := Moment(v, h);
      if !w.enabled {
        Disconnect();
        return;
      }
      if w.vendorPresent {
        Disconnect();
        return;
      }
      if !v.open {
        if !w.portFound {
          return;
        }
        if !w.portOpens {
          return;
        }
        Open(w);
        OtherEventsKeepStep(old(h), h.last, page);
        DropKeepsStep(h, page);
      }
      ghost var start := h;
      if !w.active {
        Disconnect();
        return;
      }
      ghost var t := TermsOf(a, page, w, v.clock);
      var go, pending := KeepAlive(page, w, t);
      ghost var kept := h;
      if !go {
        return;
      }
      Drive(page, w, pending, t);
      DoneOn(start, kept, h, t);
    }

    /**
     * Any number of turns of the loop, with any halves of LED calls and other game updates of the
     * page in between. The moments returned are those between the turns.
     */
    method Run(start: Overlap, schedule: seq<Turn>, board: nat) returns (o: Overlap, ghost ms: seq<Moment>)
      requires Valid() && start.Valid() && board <= 1 && AllInStep(h, start.leds.pages[board]) && Current(h).None?
      modifies this
      ensures Valid() && o == Played(start, schedule, board) && AllInStep(h, o.leds.pages[board])
      ensures IsRun(ms, start, schedule, board)
      ensures ms[0] == Moment(old(v), old(h)) && ms[|schedule|] == Moment(v, h)
    {
      hide Sound, AllInStep, Iterated, PlayTurn, SilentFor, Current;
      o := start;
      ms := [Moment(v, h)];
      for i := 0 to |schedule|
        invariant Valid() && o == Played(start, schedule[..i], board) && AllInStep(h, o.leds.pages[board])
        invariant |ms| == i + 1 && ms[0] == Moment(old(v), old(h)) && ms[i] == Moment(v, h)
        invariant forall k :: 0 <= k <= i ==> Sound(ms[k].v, ms[k].h) && Current(ms[k].h).None?
        invariant forall k :: 0 <= k < i ==> TurnTaken(ms[k], ms[k + 1], PageAt(start, schedule, board, k), schedule[k])
      {
        assert schedule[..i + 1][..i] == schedule[..i];
        PlayKeepsStep(h, o, schedule[i], board);
        match schedule[i] {
          case Loop(w) =>
            Iterate(o.leds.pages[board], w);
            PlayKeepsStep(h, o, schedule[i], board);
          case _ =>
        }
        o := PlayTurn(o, schedule[i], board);
        ms := ms + [Moment(v, h)];
      }
      assert schedule[..|schedule|] == schedule;
    }
  }

  // ----- from the game's calls to the device -----

  /** After a completed, unsuspended iteration the device holds, for every group, what the page said. */
  lemma CompletedTurnDelivers(ms: seq<Moment>, start: Overlap, schedule: seq<Turn>, board: nat, i: nat)
    requires start.Valid() && board <= 1 && IsRun(ms, start, schedule, board) && i < |schedule| && schedule[i].Loop?
    ensures ms[i + 1].v.open && !ms[i + 1].v.suspended ==> Delivered(ms[i + 1].h, PageAt(start, schedule, board, i))
  {
    var a, b, page := ms[i], ms[i + 1], PageAt(start, schedule, board, i);
    assert TurnTaken(a, b, page, schedule[i]) && Sound(b.v, b.h) && Current(a.h).None?;
    if b.v.open && !b.v.suspended {
      var (s, clock) := Begun(a, schedule[i].w);
      UnfoldedObserves(s, b.h.past, TermsOf(a, page, schedule[i].w, clock));
      EndedMeansDelivered(b, page);
    }
  }

  /** Within a turn nothing but its own observation is made. */
  lemma {:induction false} UnfoldedObserves(g: History, h: History, t: Terms)
    requires Unfolds(g, h, t) && Current(g).None?
    ensures Current(h).None? || Current(h) == Some(t.o)
  {
    if h != g {
      UnfoldedObserves(g, h.past, t);
    }
  }

  lemma EndedMeansDelivered(b: Moment, page: Output)
    requires Sound(b.v, b.h) && !b.v.suspended && b.h.After? && b.h.last.Ended?
    requires Current(b.h.past).Some? && Current(b.h.past).value.page == page
    ensures Delivered(b.h, page)
  {
  }

  /** The halves of LED calls in a schedule. */
  function HalvesIn(schedule: seq<Turn>): seq<Half> {
    if schedule == [] then []
    else
      var t := schedule[|schedule| - 1];
      HalvesIn(schedule[..|schedule| - 1]) + if t.Led? then [t.e] else []
  }

  /** Two game states that differ at most in what the button path neither reads nor writes. */
  predicate SameButtons(o: Overlap, p: Overlap)
    requires o.Valid() && p.Valid()
  {
    && o.built == p.built && o.leds.latches == p.leds.latches
    && forall b :: 0 <= b <= 1 ==> o.leds.pages[b].buttons == p.leds.pages[b].buttons
  }

  lemma SameHalf(o: Overlap, p: Overlap, e: Half)
    requires o.Valid() && p.Valid() && SameButtons(o, p)
    ensures SameButtons(PlayHalf(o, e), PlayHalf(p, e))
  {
    if e.Publishes? && e.n < |o.built| {
      assert o.built[e.n] in o.built;
    }
  }

  lemma OtherTurnKeepsButtons(o: Overlap, p: Overlap, t: Turn, board: nat)
    requires o.Valid() && p.Valid() && board <= 1 && SameButtons(o, p) && !t.Led?
    ensures SameButtons(PlayTurn(o, t, board), p)
  {
  }

  lemma HalvesOneMore(halves: seq<Half>, e: Half)
    ensures PlayHalves(halves + [e]) == PlayHalf(PlayHalves(halves), e)
  {
    hide PlayHalf;
    assert (halves + [e])[..|halves|] == halves;
  }

  lemma {:induction false} ScheduleFollowsHalves(enabled: bool, schedule: seq<Turn>, board: nat)
    requires board <= 1
    ensures SameButtons(Played(Begin(enabled, board), schedule, board), PlayHalves(HalvesIn(schedule)))
  {
    if schedule != [] {
      hide PlayHalf, PlayHalves, SameButtons, Begin;
      var before, t := schedule[..|schedule| - 1], schedule[|schedule| - 1];
      var o, p := Played(Begin(enabled, board), before, board), PlayHalves(HalvesIn(before));
      ScheduleFollowsHalves(enabled, before, board);
      if t.Led? {
        HalvesOneMore(HalvesIn(before), t.e);
        SameHalf(o, p, t.e);
      } else {
        OtherTurnKeepsButtons(o, p, t, board);
        assert HalvesIn(before) + [] == HalvesIn(before);
      }
    }
  }

  /** A frame of colours is what a call asks for, byte by byte. */
  predicate ShowsColours(frame: seq<byte>, c: Option<Call>)
    requires c.Some? ==> Accepted(c.value)
  {
    |frame| == 24 && forall k :: 0 <= k < 24 ==> frame[k] == Colour(c, k / 3, k % 3)
  }

  lemma TargetsShowColours(c: Option<Call>)
    requires c.Some? ==> Accepted(c.value)
    ensures ShowsColours(TargetsIn(c), c)
  {
    forall k | 0 <= k < 24
      ensures TargetsIn(c)[k] == Colour(c, k / 3, k % 3)
    {
      TargetsAt(c, k / 3, k % 3);
    }
  }

  /**
   * End to end: in every run from fresh pages, after a completed, unsuspended iteration the newest
   * button frame of the session carries the colour bytes of the call that published last before
   * it, however the game's calls overlap; with no frame sent, that call asked for dark or there is none.
   */
  lemma DeviceShowsLastColours(ms: seq<Moment>, enabled: bool, schedule: seq<Turn>, board: nat, i: nat)
    requires board <= 1 && IsRun(ms, Begin(enabled, board), schedule, board) && i < |schedule| && schedule[i].Loop?
    ensures ms[i + 1].v.open && !ms[i + 1].v.suspended ==>
              ShowsColours(Newest(ms[i + 1].h, 0x14).GetOr((seq(24, _ => 0), 0)).0,
                           LastToPublish(HalvesIn(schedule[..i]), board))
  {
    var page := PageAt(Begin(enabled, board), schedule, board, i);
    CompletedTurnDelivers(ms, Begin(enabled, board), schedule, board, i);
    ScheduleFollowsHalves(enabled, schedule[..i], board);
    OverlapSplitsColours(HalvesIn(schedule[..i]), board);
    VersionZeroIsNeverSet(enabled, schedule[..i], board);
    TargetsShowColours(LastToPublish(HalvesIn(schedule[..i]), board));
    hide IsRun, PlayHalves, ButtonRgb, TargetsIn;
    DarkIsDark();
    assert ButtonRgb(page.buttons) == LastPublished(HalvesIn(schedule[..i]), board);
    assert DARK == seq(24, _ => 0);
  }

  /** The game's last word on each of the other groups in a schedule. */
  function LastBillboard(schedule: seq<Turn>): Rgb {
    if schedule == [] then DARK
    else
      var t := schedule[|schedule| - 1];
      if t.Game? && t.u.SetBillboard? then t.u.rgb else LastBillboard(schedule[..|schedule| - 1])
  }

  function LastPwm(schedule: seq<Turn>): seq<byte> {
    if schedule == [] then [0, 0, 0]
    else
      var t := schedule[|schedule| - 1];
      if t.Game? && t.u.SetPwm? then t.u.rgb3 else LastPwm(schedule[..|schedule| - 1])
  }

  function LastTouchSwitch(schedule: seq<Turn>, enabled: bool): bool {
    if schedule == [] then enabled
    else
      var t := schedule[|schedule| - 1];
      if t.Game? && t.u.SetTouchEnabled? then t.u.on else LastTouchSwitch(schedule[..|schedule| - 1], enabled)
  }

  predicate SameOthers(p: Output, q: Output) {
    p.billboard == q.billboard && p.pwm == q.pwm && p.touchEnabled == q.touchEnabled
  }

  lemma HalfKeepsOthers(o: Overlap, e: Half, board: nat)
    requires o.Valid() && board <= 1
    ensures SameOthers(o.leds.pages[board], PlayHalf(o, e).leds.pages[board])
  {
    hide Targets, Fade;
    if e.Publishes? && e.n < |o.built| {
      assert o.built[e.n] in o.built;
    }
  }

  /** The page a schedule leads to holds the game's last word on billboard, pwm and touch switch. */
  lemma {:induction false} PageHoldsLastWord(enabled: bool, schedule: seq<Turn>, board: nat)
    requires board <= 1
    ensures var page := Played(Begin(enabled, board), schedule, board).leds.pages[board];
            && page.billboard == LastBillboard(schedule) && page.pwm == LastPwm(schedule)
            && page.touchEnabled == LastTouchSwitch(schedule, enabled)
  {
    if schedule != [] {
      hide PlayHalf;
      var before, t := schedule[..|schedule| - 1], schedule[|schedule| - 1];
      PageHoldsLastWord(enabled, before, board);
      if t.Led? {
        HalfKeepsOthers(Played(Begin(enabled, board), before, board), t.e, board);
      }
    }
  }

  /**
   * And for the other groups: the newest billboard and pwm frames carry the last colours the game
   * set; with no frame sent, those are the dark ones the device started with.
   */
  lemma DeviceShowsLastUpdates(ms: seq<Moment>, enabled: bool, schedule: seq<Turn>, board: nat, i: nat)
    requires board <= 1 && IsRun(ms, Begin(enabled, board), schedule, board) && i < |schedule| && schedule[i].Loop?
    ensures ms[i + 1].v.open && !ms[i + 1].v.suspended ==>
              && Newest(ms[i + 1].h, 0x15).GetOr((seq(24, _ => 0), 0)).0 == LastBillboard(schedule[..i])
              && Newest(ms[i + 1].h, 0x16).GetOr(([0, 0, 0], 0)).0 == LastPwm(schedule[..i])
  {
    CompletedTurnDelivers(ms, Begin(enabled, board), schedule, board, i);
    VersionZeroIsNeverSet(enabled, schedule[..i], board);
    PageHoldsLastWord(enabled, schedule[..i], board);
    hide IsRun;
    assert DARK == seq(24, _ => 0);
  }

  /** And when the calls do not overlap, that call asks for the colours of the last call for the board. */
  lemma LastPublishedOneByOne(calls: seq<Call>, board: nat, led: nat, i: nat)
    requires board <= 1 && led < 8 && i < 3
    ensures LastPublished(OneByOne(calls), board) == LastTargets(calls, board)
    ensures Colour(LastToPublish(OneByOne(calls), board), led, i) == Colour(LastCall(calls, board), led, i)
  {
    OverlapSplitsColours(OneByOne(calls), board);
    OneByOneIsGsUpdates(calls);
    ColoursFollowCalls(calls, board);
    TargetsAt(LastToPublish(OneByOne(calls), board), led, i);
    TargetsAt(LastCall(calls, board), led, i);
  }

  // ----- when a turn sends nothing, and when touch decides it -----

  /** Everything a turn needs to have a session: the player enabled, no vendor HID, and a port. */
  predicate MayRun(open: bool, w: World) {
    w.enabled && !w.vendorPresent && (open || (w.portFound && w.portOpens))
  }

  /** Without that the thread sends nothing and is left without a session. */
  lemma NoSerialBesideVendor(a: Moment, b: Moment, page: Output, w: World)
    requires Iterated(a, b, page, w) && !MayRun(a.v.open, w)
    ensures !b.v.open && b.h == if a.v.open then After(a.h, Dropped) else a.h
  {
  }

  /** When the session's reader has failed, the turn only drops the session, opened just now or before. */
  lemma DeadSessionIsDropped(a: Moment, b: Moment, page: Output, w: World)
    requires Iterated(a, b, page, w) && MayRun(a.v.open, w) && !w.active
    ensures !b.v.open && b.h.After? && b.h.last.Dropped?
    ensures if a.v.open then b.h.past == a.h else b.h.past.After? && b.h.past.past == a.h && b.h.past.last.Connected?
  {
  }

  /** Touch has been silent for `ms`: switched on, past the first three seconds, and that long without an update. */
  predicate TouchSilent(enabled: bool, since: nat, lastUpdate: nat, now: nat, ms: nat) {
    enabled && since != 0 && now >= since + 3000 && now >= (if lastUpdate != 0 then lastUpdate else since) + ms
  }

  /** Within a turn the opening, and what was last observed before it, do not change. */
  lemma {:induction false} TurnFacts(g: History, h: History, t: Terms)
    requires Unfolds(g, h, t) && Current(g).None?
    ensures Opening(h) == Opening(g)
    ensures if Current(h).None? then LastFrames(h) == LastFrames(g) && Suspended(h) == Suspended(g)
            else && Current(h) == Some(t.o)
                 && Suspended(h) == (SilentFor(t.o, Opening(g).2, STALE_PAUSE_MS)
                                     || (t.o.frames == LastFrames(g) && Suspended(g)))
  {
    if h != g {
      TurnFacts(g, h.past, t);
    }
  }

  /**
   * When the device takes every frame, a turn of a live session ends with the session open if and
   * only if touch has not been silent for a second.
   */
  lemma SilenceDropsExactly(a: Moment, b: Moment, page: Output, w: World)
    requires Sound(a.v, a.h) && Sound(b.v, b.h) && Current(a.h).None? && Iterated(a, b, page, w)
    requires MayRun(a.v.open, w) && w.active && forall cmd :: w.Takes(cmd)
    ensures b.v.open <==> !TouchSilent(page.touchEnabled, b.v.connectedSince, w.lastUpdate, b.v.clock, 1000)
  {
    var (s, clock) := Begun(a, w);
    var t := TermsOf(a, page, w, clock);
    BegunIsFresh(a, w);
    TurnFacts(s, b.h.past, t);
  }

  lemma BegunIsFresh(a: Moment, w: World)
    requires Current(a.h).None?
    ensures var s := Begun(a, w).0;
            Current(s).None? && LastFrames(s) == LastFrames(a.h) && Suspended(s) == Suspended(a.h)
  {
  }

  /**
   * After a turn that ends with the session open, LED output is suspended if and only if touch has
   * been silent for 300 ms, or output was suspended and the touch counter has not moved.
   */
  lemma SuspendsExactly(a: Moment, b: Moment, page: Output, w: World)
    requires Sound(a.v, a.h) && Sound(b.v, b.h) && Current(a.h).None? && Iterated(a, b, page, w) && b.v.open
    ensures b.v.suspended <==>
              || TouchSilent(page.touchEnabled, b.v.connectedSince, w.lastUpdate, b.v.clock, 300)
              || (a.v.suspended && w.frames == a.v.lastTouchFrames)
  {
    var (s, clock) := Begun(a, w);
    var t := TermsOf(a, page, w, clock);
    BegunIsFresh(a, w);
    TurnFacts(s, b.h.past, t);
  }
}
