/**
 * The four input sources of one player as a step system: the serial device thread with its
 * reader thread, and the vendor, touch and button HID threads. They share one input page and
 * three `*_connected` flags. Every page operation and every flag load or store is one step,
 * so a schedule (any sequence of actions) is any interleaving of the five threads.
 */
module Mai2Inputs {
  import opened Bytes

  const ZERO_TOUCH: seq<byte> := [0, 0, 0, 0, 0, 0, 0]

  datatype Page = Page(buttons: byte, ioStatus: byte, connected: bool, touch: seq<byte>, sequence: nat) {
    function Touched(): Page {
      this.(connected := true, sequence := Bump(sequence))
    }

    /** `apply_device_frame`: a field given as None keeps its value. */
    function Apply(b: Option<byte>, io: Option<byte>, t: Option<seq<byte>>): Page {
      Touched().(buttons := if b.Some? then b.value else buttons,
                 ioStatus := if io.Some? then io.value else ioStatus,
                 touch := if t.Some? then t.value else touch)
    }

    /** The page update of `clear_inputs_on_source_drop`. */
    function Clear(buttonsLive: bool, touchLive: bool): Page {
      var b := !buttonsLive && (buttons != 0 || ioStatus != 0);
      var t := !touchLive && touch != ZERO_TOUCH;
      this.(buttons := if b then 0 else buttons,
            ioStatus := if b then 0 else ioStatus,
            touch := if t then ZERO_TOUCH else touch,
            sequence := if b || t then Bump(sequence) else sequence)
    }
  }

  function Bump(sequence: nat): nat {
    (sequence + 1) % 0x1_0000_0000_0000_0000
  }

  const BLANK := Page(0, 0, false, ZERO_TOUCH, 0)

  datatype Source = Vendor | TouchHid | ButtonHid

  /** Where a HID thread stands inside `clear_inputs_on_source_drop`, with the answers it holds. */
  datatype ClearPc =
    | ReadHid
    | ReadVendorForButtons
    | ReadTouchHid(buttonsLive: bool)
    | ReadVendorForTouch(buttonsLive: bool)
    | Update(buttonsLive: bool, touchLive: bool)

  /**
   * A HID thread: no device; flag raised but page not yet marked connected; streaming reports;
   * (vendor only) button policy decided but frame not yet applied; flag lowered and clearing.
   */
  datatype Phase = Idle | Raised | Streaming | Decided(useButtons: bool) | Lowered(pc: ClearPc)

  /**
   * The device thread's session, up to and through `disconnect_session`. That is also called when
   * there is no session, so its flag loads remember whether they tear one down.
   */
  datatype Serial =
    | Absent | Opened | Running | Closing
    | Checking(flag: Source, session: bool)
    | Settling(live: bool, session: bool)

  datatype Reader = NoReader | Looping | Holding(useButtons: bool) | Exited

  datatype Field = ButtonField | TouchField

  datatype State = State(
    page: Page,
    hid: bool, vendor: bool, touchHid: bool,
    vendorPhase: Phase, touchHidPhase: Phase, hidPhase: Phase,
    serial: Serial, reader: Reader)
  {
    function Phase(src: Source): Phase {
      match src case Vendor => vendorPhase case TouchHid => touchHidPhase case ButtonHid => hidPhase
    }

    function Flag(src: Source): bool {
      match src case Vendor => vendor case TouchHid => touchHid case ButtonHid => hid
    }

    function WithFlag(src: Source, up: bool): State {
      match src
      case Vendor => this.(vendor := up)
      case TouchHid => this.(touchHid := up)
      case ButtonHid => this.(hid := up)
    }

    function At(src: Source, p: Phase): State {
      match src
      case Vendor => this.(vendorPhase := p)
      case TouchHid => this.(touchHidPhase := p)
      case ButtonHid => this.(hidPhase := p)
    }
  }

  const INIT := State(BLANK, false, false, false, Idle, Idle, Idle, Absent, NoReader)

  datatype Action =
    // device thread
    | OpenSession | MarkSession | BeginDisconnect | JoinReader | CheckFlag | FinishDisconnect
    // serial reader thread
    | ReaderLoad | ReaderApply(b: Option<byte>, io: Option<byte>, t: Option<seq<byte>>) | ReaderExit
    // HID threads
    | Raise(src: Source) | Mark(src: Source) | VendorLoad
    | Deliver(src: Source, b: Option<byte>, io: Option<byte>, t: Option<seq<byte>>)
    | Lower(src: Source) | Clear(src: Source)

  /** One atomic step; an action that is not enabled leaves the state alone. */
  function Step(s: State, a: Action): State {
    match a
    case OpenSession =>
      if s.serial == Absent then s.(serial := Opened, reader := Looping) else s
    case MarkSession =>
      if s.serial == Opened then s.(serial := Running, page := s.page.Touched()) else s
    case BeginDisconnect =>
      if s.serial == Running then s.(serial := Closing)
      else if s.serial == Absent then s.(serial := Checking(Vendor, false))
      else s
    case JoinReader =>
      if s.serial == Closing && s.reader == Exited then s.(serial := Checking(Vendor, true), reader := NoReader) else s
    case CheckFlag =>
      if !s.serial.Checking? then s
      else if s.Flag(s.serial.flag) then s.(serial := Settling(true, s.serial.session))
      else
        s.(serial := match s.serial.flag
                     case Vendor => Checking(TouchHid, s.serial.session)
                     case TouchHid => Checking(ButtonHid, s.serial.session)
                     case ButtonHid => Settling(false, s.serial.session))
    case FinishDisconnect =>
      if s.serial.Settling? then
        s.(serial := Absent, page := if s.serial.live then s.page.Touched() else BLANK)
      else s
    case ReaderLoad =>
      if s.reader == Looping then s.(reader := Holding(!s.hid)) else s
    case ReaderApply(b, io, t) =>
      if s.reader.Holding? then
        var use := s.reader.useButtons;
        s.(reader := Looping, page := s.page.Apply(if use then b else None, if use then io else None, t))
      else s
    case ReaderExit =>
      if s.reader == Looping then s.(reader := Exited) else s
    case Raise(src) =>
      if s.Phase(src) == Idle then
        s.WithFlag(src, true).At(src, if src.ButtonHid? then Streaming else Raised)
      else s
    case Mark(src) =>
      if s.Phase(src) == Raised then s.At(src, Streaming).(page := s.page.Touched()) else s
    case VendorLoad =>
      if s.Phase(Vendor) == Streaming then s.At(Vendor, Decided(!s.hid)) else s
    case Deliver(src, b, io, t) =>
      match src {
        case Vendor =>
          if s.Phase(src).Decided? then
            var use := s.Phase(src).useButtons;
            s.At(src, Streaming).(page := s.page.Apply(if use then b else None, if use then io else None, t))
          else s
        case TouchHid =>
          if s.Phase(src) == Streaming then s.(page := s.page.Apply(None, None, t)) else s
        case ButtonHid =>
          if s.Phase(src) == Streaming then s.(page := s.page.Apply(b, io, None)) else s
      }
    case Lower(src) =>
      if s.Phase(src) == Streaming then s.WithFlag(src, false).At(src, Lowered(ReadHid)) else s
    case Clear(src) =>
      if s.Phase(src).Lowered? then ClearStep(s, src, s.Phase(src).pc) else s
  }

  /** The next step of `clear_inputs_on_source_drop`: a flag load, or the page update. */
  function ClearStep(s: State, src: Source, pc: ClearPc): State {
    match pc
    case Update(b, t) => s.At(src, Idle).(page := s.page.Clear(b, t))
    case _ => s.At(src, AfterLoad(s, pc))
  }

  /** Where a flag load leads; `||` does not load its second flag when the first is up. */
  function AfterLoad(s: State, pc: ClearPc): Phase
    requires !pc.Update?
  {
    match pc
    case ReadHid => Lowered(if s.hid then ReadTouchHid(true) else ReadVendorForButtons)
    case ReadVendorForButtons => Lowered(ReadTouchHid(s.vendor))
    case ReadTouchHid(b) => if s.touchHid then AfterLoads(b, true) else Lowered(ReadVendorForTouch(b))
    case ReadVendorForTouch(b) => AfterLoads(b, s.vendor)
  }

  function AfterLoads(buttonsLive: bool, touchLive: bool): Phase {
    if buttonsLive && touchLive then Idle else Lowered(Update(buttonsLive, touchLive))
  }

  function Run(s: State, schedule: seq<Action>): State
    decreases |schedule|
  {
    if schedule == [] then s else Run(Step(s, schedule[0]), schedule[1..])
  }

  // ----- who is answerable for a field that is not zero -----

  predicate NonZero(p: Page, f: Field) {
    match f
    case ButtonField => p.buttons != 0 || p.ioStatus != 0
    case TouchField => p.touch != ZERO_TOUCH
  }

  /** A flag whose source feeds the field is up. */
  predicate Fed(s: State, f: Field) {
    s.vendor || (if f.ButtonField? then s.hid else s.touchHid)
  }

  predicate AnyFlag(s: State) {
    s.vendor || s.touchHid || s.hid
  }

  /** A serial session is open, or is being torn down and no live flag has been seen. */
  predicate SerialHolds(s: State) {
    match s.serial
    case Absent => false
    case Checking(_, session) => session
    case Settling(live, session) => session && !live
    case _ => true
  }

  /** The thread has lowered its flag, has read no live flag for the field, and has yet to clear it. */
  predicate WillClear(p: Phase, f: Field) {
    p.Lowered? && match p.pc
                  case ReadTouchHid(b) => f.ButtonField? ==> !b
                  case ReadVendorForTouch(b) => f.ButtonField? ==> !b
                  case Update(b, t) => if f.ButtonField? then !b else !t
                  case _ => true
  }

  predicate SomeoneWillClear(s: State, f: Field) {
    WillClear(s.Phase(Vendor), f) || WillClear(s.Phase(TouchHid), f) || WillClear(s.Phase(ButtonHid), f)
  }

  predicate Guarded(s: State, f: Field) {
    AnyFlag(s) || SerialHolds(s) || SomeoneWillClear(s, f)
  }

  predicate FlagMatchesPhase(s: State, src: Source) {
    s.Flag(src) == (s.Phase(src) in {Raised, Streaming} || s.Phase(src).Decided?)
  }

  predicate Consistent(s: State) {
    && FlagMatchesPhase(s, Vendor) && FlagMatchesPhase(s, TouchHid) && FlagMatchesPhase(s, ButtonHid)
    && (s.reader.Looping? || s.reader.Holding? ==> s.serial in {Opened, Running, Closing})
  }

  ghost predicate Inv(s: State) {
    && Consistent(s)
    && (NonZero(s.page, ButtonField) ==> Guarded(s, ButtonField))
    && (NonZero(s.page, TouchField) ==> Guarded(s, TouchField))
  }

  lemma StepKeepsInv(s: State, a: Action)
    requires Inv(s)
    ensures Inv(Step(s, a))
  {
    match a
    case Raise(src) => SourceKeepsInv(s, a, src);
    case Mark(src) => SourceKeepsInv(s, a, src);
    case VendorLoad => SourceKeepsInv(s, a, Vendor);
    case Deliver(src, _, _, _) => SourceKeepsInv(s, a, src);
    case Lower(src) => SourceKeepsInv(s, a, src);
    case Clear(src) => if s.Phase(src).Lowered? { ClearKeepsInv(s, src); }
    case _ => SerialKeepsInv(s, a);
  }

  lemma SerialKeepsInv(s: State, a: Action)
    requires Inv(s)
    requires a.OpenSession? || a.MarkSession? || a.BeginDisconnect? || a.JoinReader? || a.CheckFlag?
             || a.FinishDisconnect? || a.ReaderLoad? || a.ReaderApply? || a.ReaderExit?
    ensures Inv(Step(s, a))
  {
  }

  lemma SourceKeepsInv(s: State, a: Action, src: Source)
    requires Inv(s)
    requires a == VendorLoad || ((a.Raise? || a.Mark? || a.Deliver? || a.Lower?) && a.src == src)
    ensures Inv(Step(s, a))
  {
    match src
    case Vendor =>
    case TouchHid =>
    case ButtonHid =>
  }

  /** One step of a cleanup touches its own thread's phase and the page, and nothing else. */
  predicate SameButFor(s: State, t: State, src: Source) {
    && t == s.At(src, t.Phase(src)).(page := t.page)
    && forall other :: other != src ==> t.Phase(other) == s.Phase(other)
  }

  lemma ClearTouchesOwn(s: State, src: Source)
    requires s.Phase(src).Lowered?
    ensures var t := ClearStep(s, src, s.Phase(src).pc);
            SameButFor(s, t, src) && (t.Phase(src).Lowered? || t.Phase(src).Idle?)
  {
    match src
    case Vendor =>
    case TouchHid =>
    case ButtonHid =>
  }

  lemma PhaseAt(s: State, src: Source, p: Phase)
    ensures s.At(src, p).Phase(src) == p && s.At(src, p).page == s.page
  {
  }

  lemma OwnClear(s: State, src: Source, f: Field)
    requires s.Phase(src).Lowered?
    ensures var t := ClearStep(s, src, s.Phase(src).pc);
            && SameButFor(s, t, src) && (t.Phase(src).Lowered? || t.Phase(src).Idle?)
            && (NonZero(t.page, f) ==> NonZero(s.page, f))
            && (!Fed(s, f) ==> (NonZero(t.page, f) && !WillClear(t.Phase(src), f)
                                <==> NonZero(s.page, f) && !WillClear(s.Phase(src), f)))
  {
    ClearTouchesOwn(s, src);
    hide SameButFor, State.At, State.Phase;
    forall p {
      PhaseAt(s, src, p);
    }
    match f
    case ButtonField =>
    case TouchField =>
  }

  lemma ClearKeepsInv(s: State, src: Source)
    requires Inv(s) && s.Phase(src).Lowered?
    ensures Inv(ClearStep(s, src, s.Phase(src).pc))
  {
    hide ClearStep, NonZero, WillClear;
    OwnClear(s, src, ButtonField);
    OwnClear(s, src, TouchField);
    match src
    case Vendor =>
    case TouchHid =>
    case ButtonHid =>
  }

  lemma {:induction false} InvAlways(s: State, schedule: seq<Action>)
    requires Inv(s)
    ensures Inv(Run(s, schedule))
    decreases |schedule|
  {
    if schedule != [] {
      StepKeepsInv(s, schedule[0]);
      InvAlways(Step(s, schedule[0]), schedule[1..]);
    }
  }

  /**
   * No stuck input, for every interleaving: a field that is not zero has a HID flag up, or a
   * serial session open or being torn down, or a source thread that is going to clear it.
   */
  lemma NoStuckInput(schedule: seq<Action>, f: Field)
    ensures var s := Run(INIT, schedule);
            NonZero(s.page, f) ==> AnyFlag(s) || SerialHolds(s) || SomeoneWillClear(s, f)
  {
    InvAlways(INIT, schedule);
  }

  predicate Quiet(s: State) {
    s.serial == Absent && forall src: Source :: !s.Phase(src).Lowered?
  }

  /** Once every source is gone and none is in the middle of clearing, every input byte is zero. */
  lemma AllGoneMeansAllZero(schedule: seq<Action>)
    ensures var s := Run(INIT, schedule);
            Quiet(s) && !AnyFlag(s) ==> s.page.buttons == 0 && s.page.ioStatus == 0 && s.page.touch == ZERO_TOUCH
  {
    NoStuckInput(schedule, ButtonField);
    NoStuckInput(schedule, TouchField);
  }

  // ----- the stronger promise: a field outlives its sources only while a source that feeds it is live -----

  /** A field is loose when it is not zero and nobody is answerable for it. */
  predicate Loose(s: State, f: Field) {
    NonZero(s.page, f) && !Fed(s, f) && !SerialHolds(s) && !SomeoneWillClear(s, f)
  }

  /**
   * `disconnect_session`, tearing a session down, loads a flag that is up: it will keep the page,
   * although nobody else is answerable for the field. (The flag is then the other field's.)
   */
  predicate Strands(s: State, a: Action, f: Field) {
    && a == CheckFlag && s.serial.Checking? && s.serial.session && s.Flag(s.serial.flag)
    && NonZero(s.page, f) && !Fed(s, f) && !SomeoneWillClear(s, f)
  }

  predicate Feeds(src: Source, f: Field) {
    src.Vendor? || (if f.ButtonField? then src.ButtonHid? else src.TouchHid?)
  }

  /** What ends the looseness of a field: an answerable source, a cleanup that will clear it, or a blank page. */
  predicate Rescues(s: State, a: Action, f: Field) {
    match a
    case Raise(src) => Feeds(src, f) && s.Phase(src) == Idle
    case OpenSession => s.serial == Absent
    case Lower(src) => s.Phase(src) == Streaming
    case FinishDisconnect => s.serial.Settling? && !s.serial.live
    case _ => false
  }

  /** One step makes a field loose, or ends its looseness, exactly under these two guards. */
  lemma LooseStep(s: State, a: Action, f: Field)
    requires Consistent(s)
    ensures Loose(Step(s, a), f) <==> if Loose(s, f) then !Rescues(s, a, f) else Strands(s, a, f)
    ensures Strands(s, a, f) ==> !Loose(s, f)
  {
    match a
    case Raise(src) => LooseSourceStep(s, a, src, f);
    case Mark(src) => LooseSourceStep(s, a, src, f);
    case VendorLoad => LooseSourceStep(s, a, Vendor, f);
    case Deliver(src, _, _, _) => LooseSourceStep(s, a, src, f);
    case Lower(src) => LooseSourceStep(s, a, src, f);
    case Clear(src) => LooseClearStep(s, src, f);
    case _ =>
  }

  lemma LooseSourceStep(s: State, a: Action, src: Source, f: Field)
    requires Consistent(s)
    requires a == VendorLoad || ((a.Raise? || a.Mark? || a.Deliver? || a.Lower?) && a.src == src)
    ensures Loose(Step(s, a), f) <==> Loose(s, f) && !Rescues(s, a, f)
  {
    match src
    case Vendor =>
    case TouchHid =>
    case ButtonHid =>
  }

  lemma LooseClearStep(s: State, src: Source, f: Field)
    requires Consistent(s)
    ensures Loose(Step(s, Clear(src)), f) <==> Loose(s, f)
  {
    hide ClearStep, NonZero, WillClear;
    if s.Phase(src).Lowered? {
      OwnClear(s, src, f);
      match src
      case Vendor =>
      case TouchHid =>
      case ButtonHid =>
    }
  }

  /** The state before step `i` of a schedule from the start state. */
  function StateAt(schedule: seq<Action>, i: nat): State
    requires i <= |schedule|
  {
    Run(INIT, schedule[..i])
  }

  lemma StateAtNext(schedule: seq<Action>, i: nat)
    requires i < |schedule|
    ensures StateAt(schedule, i + 1) == Step(StateAt(schedule, i), schedule[i])
    ensures Consistent(StateAt(schedule, i))
  {
    hide Step;
    assert schedule[..i + 1] == schedule[..i] + [schedule[i]];
    RunAppend(INIT, schedule[..i], [schedule[i]]);
    InvAlways(INIT, schedule[..i]);
  }

  /** Step `i` of the schedule stranded the field, and no step before `n` has rescued it since. */
  predicate StrandedSince(schedule: seq<Action>, f: Field, i: nat, n: nat)
    requires i < n <= |schedule|
  {
    && Strands(StateAt(schedule, i), schedule[i], f)
    && forall j :: i < j < n ==> !Rescues(StateAt(schedule, j), schedule[j], f)
  }

  /** Over every run, a field is loose exactly when a disconnect stranded it and nothing rescued it since. */
  lemma {:induction false} LooseExactly(schedule: seq<Action>, f: Field, n: nat)
    requires n <= |schedule|
    ensures Loose(StateAt(schedule, n), f) <==> exists i :: 0 <= i < n && StrandedSince(schedule, f, i, n)
  {
    hide Step, Loose, Strands, Rescues;
    if n == 0 {
      assert !Loose(INIT, f) by { NothingLooseAtFirst(f); }
    } else {
      var s, a := StateAt(schedule, n - 1), schedule[n - 1];
      LooseExactly(schedule, f, n - 1);
      StateAtNext(schedule, n - 1);
      LooseStep(s, a, f);
      if Loose(StateAt(schedule, n), f) {
        if Loose(s, f) {
          var i :| 0 <= i < n - 1 && StrandedSince(schedule, f, i, n - 1);
          assert StrandedSince(schedule, f, i, n);
        } else {
          assert StrandedSince(schedule, f, n - 1, n);
        }
      }
      if i :| 0 <= i < n && StrandedSince(schedule, f, i, n) {
        if i < n - 1 {
          assert StrandedSince(schedule, f, i, n - 1);
        }
      }
    }
  }

  lemma NothingLooseAtFirst(f: Field)
    ensures !Loose(INIT, f)
  {
  }

  /** A run ever leaves a field loose if and only if one of its steps strands it. */
  lemma EverLooseExactly(schedule: seq<Action>, f: Field)
    ensures (exists n :: 0 <= n <= |schedule| && Loose(StateAt(schedule, n), f))
            <==> (exists i :: 0 <= i < |schedule| && Strands(StateAt(schedule, i), schedule[i], f))
  {
    hide Loose, Strands, Rescues, StateAt;
    if n :| 0 <= n <= |schedule| && Loose(StateAt(schedule, n), f) {
      LooseExactly(schedule, f, n);
      var i :| 0 <= i < n && StrandedSince(schedule, f, i, n);
      assert Strands(StateAt(schedule, i), schedule[i], f);
    }
    if i :| 0 <= i < |schedule| && Strands(StateAt(schedule, i), schedule[i], f) {
      LooseExactly(schedule, f, i + 1);
      assert StrandedSince(schedule, f, i, i + 1);
    }
  }

  /**
   * At rest, a field is nonzero with no source feeding it if and only if some disconnect of the
   * run stranded it and nothing has rescued it since.
   */
  lemma HeldOnlyWhileFedExactly(schedule: seq<Action>, f: Field)
    ensures var s := StateAt(schedule, |schedule|);
            Quiet(s) ==> (NonZero(s.page, f) && !Fed(s, f)
                          <==> exists i :: 0 <= i < |schedule| && StrandedSince(schedule, f, i, |schedule|))
  {
    hide StateAt, StrandedSince;
    LooseExactly(schedule, f, |schedule|);
  }

  // ----- what must be on the page -----

  /** Whether a cleanup has seen a live flag for each field. */
  datatype Seen = Seen(buttons: bool, touch: bool)

  /**
   * The page a run should leave, told from the frames and from the flags as they stood when they
   * were loaded; it looks at where a thread stands, and never at an answer the thread has stored.
   */
  datatype Ledger = Ledger(
    readerDown: bool, vendorDown: bool,  // the button HID's flag was down when the thread last loaded it
    flagSeen: bool,                      // disconnect_session has loaded a raised flag
    byVendor: Seen, byTouchHid: Seen, byButtonHid: Seen,
    buttons: byte, ioStatus: byte, touch: seq<byte>, connected: bool)
  {
    function Taken(down: bool, b: Option<byte>, io: Option<byte>, t: Option<seq<byte>>): Ledger {
      this.(buttons := if down then b.GetOr(buttons) else buttons,
            ioStatus := if down then io.GetOr(ioStatus) else ioStatus,
            touch := t.GetOr(touch), connected := true)
    }

    function By(src: Source): Seen {
      match src case Vendor => byVendor case TouchHid => byTouchHid case ButtonHid => byButtonHid
    }

    function Saw(src: Source, x: Seen): Ledger {
      match src
      case Vendor => this.(byVendor := x)
      case TouchHid => this.(byTouchHid := x)
      case ButtonHid => this.(byButtonHid := x)
    }

    function Cleaned(x: Seen): Ledger {
      this.(buttons := if x.buttons then buttons else 0,
            ioStatus := if x.buttons then ioStatus else 0,
            touch := if x.touch then touch else ZERO_TOUCH)
    }
  }

  const UNSEEN := Seen(false, false)
  const UNTOLD := Ledger(false, false, false, UNSEEN, UNSEEN, UNSEEN, 0, 0, ZERO_TOUCH, false)

  function Told(l: Ledger, s: State, a: Action): Ledger {
    match a
    case ReaderLoad => if s.reader == Looping then l.(readerDown := !s.hid) else l
    case ReaderApply(b, io, t) => if s.reader.Holding? then l.Taken(l.readerDown, b, io, t) else l
    case VendorLoad => if s.vendorPhase == Streaming then l.(vendorDown := !s.hid) else l
    case Deliver(Vendor, b, io, t) => if s.vendorPhase.Decided? then l.Taken(l.vendorDown, b, io, t) else l
    case Deliver(TouchHid, _, _, t) => if s.touchHidPhase == Streaming then l.Taken(false, None, None, t) else l
    case Deliver(ButtonHid, b, io, _) => if s.hidPhase == Streaming then l.Taken(true, b, io, None) else l
    case Mark(src) => if s.Phase(src) == Raised then l.(connected := true) else l
    case MarkSession => if s.serial == Opened then l.(connected := true) else l
    case CheckFlag => if s.serial.Checking? then l.(flagSeen := s.Flag(s.serial.flag)) else l
    case FinishDisconnect =>
      if !s.serial.Settling? then l
      else if l.flagSeen then l.(connected := true)
      else l.Cleaned(UNSEEN).(connected := false)
    case Clear(src) => if s.Phase(src).Lowered? then ToldCleanup(l, s, src, s.Phase(src).pc) else l
    case _ => l
  }

  function ToldCleanup(l: Ledger, s: State, src: Source, pc: ClearPc): Ledger {
    match pc
    case Update(_, _) => l.Cleaned(l.By(src))
    case _ => l.Saw(src, SeenAfterLoad(l.By(src), s, pc))
  }

  /** The load of `pc`: the button field's flags come first. */
  function SeenAfterLoad(x: Seen, s: State, pc: ClearPc): Seen {
    match pc
    case ReadHid => Seen(s.hid, false)
    case ReadVendorForButtons => Seen(s.vendor, false)
    case ReadTouchHid(_) => Seen(x.buttons, s.touchHid)
    case ReadVendorForTouch(_) => Seen(x.buttons, s.vendor)
    case Update(_, _) => x
  }

  function LedgerOf(l: Ledger, s: State, schedule: seq<Action>): Ledger
    decreases |schedule|
  {
    if schedule == [] then l else LedgerOf(Told(l, s, schedule[0]), Step(s, schedule[0]), schedule[1..])
  }

  predicate ShowsLedger(p: Page, l: Ledger) {
    p.buttons == l.buttons && p.ioStatus == l.ioStatus && p.touch == l.touch && p.connected == l.connected
  }

  predicate CleanupAgrees(p: Phase, x: Seen) {
    p.Lowered? ==> match p.pc
                   case ReadTouchHid(b) => b == x.buttons
                   case ReadVendorForTouch(b) => b == x.buttons
                   case Update(b, t) => b == x.buttons && t == x.touch
                   case _ => true
  }

  /** The answers the threads have stored are those the flags gave, and the page is as told. */
  predicate LedgerAgrees(s: State, l: Ledger) {
    && ShowsLedger(s.page, l)
    && (s.reader.Holding? ==> s.reader.useButtons == l.readerDown)
    && (s.vendorPhase.Decided? ==> s.vendorPhase.useButtons == l.vendorDown)
    && (s.serial.Settling? ==> s.serial.live == l.flagSeen)
    && CleanupAgrees(s.vendorPhase, l.byVendor)
    && CleanupAgrees(s.touchHidPhase, l.byTouchHid)
    && CleanupAgrees(s.hidPhase, l.byButtonHid)
  }

  lemma StepKeepsLedger(s: State, l: Ledger, a: Action)
    requires LedgerAgrees(s, l)
    ensures LedgerAgrees(Step(s, a), Told(l, s, a))
  {
    match a
    case Raise(src) => SourceKeepsLedger(s, l, a, src);
    case Mark(src) => SourceKeepsLedger(s, l, a, src);
    case Lower(src) => SourceKeepsLedger(s, l, a, src);
    case Deliver(src, _, _, _) => FrameKeepsLedger(s, l, a, src);
    case Clear(src) => if s.Phase(src).Lowered? { CleanupKeepsLedger(s, l, src); }
    case _ => ThreadKeepsLedger(s, l, a);
  }

  lemma ThreadKeepsLedger(s: State, l: Ledger, a: Action)
    requires LedgerAgrees(s, l)
    requires !(a.Raise? || a.Mark? || a.Lower? || a.Deliver? || a.Clear?)
    ensures LedgerAgrees(Step(s, a), Told(l, s, a))
  {
    hide ClearStep, ToldCleanup;
  }

  lemma SourceKeepsLedger(s: State, l: Ledger, a: Action, src: Source)
    requires LedgerAgrees(s, l) && (a.Raise? || a.Mark? || a.Lower?) && a.src == src
    ensures LedgerAgrees(Step(s, a), Told(l, s, a))
  {
    hide ClearStep, ToldCleanup, Ledger.Taken, Page.Apply;
    match src
    case Vendor =>
    case TouchHid =>
    case ButtonHid =>
  }

  lemma FrameKeepsLedger(s: State, l: Ledger, a: Action, src: Source)
    requires LedgerAgrees(s, l) && a.Deliver? && a.src == src
    ensures LedgerAgrees(Step(s, a), Told(l, s, a))
  {
    hide ClearStep, ToldCleanup;
    match src
    case Vendor =>
    case TouchHid => hide CleanupAgrees;
    case ButtonHid => hide CleanupAgrees;
  }

  predicate SameButBy(l: Ledger, m: Ledger, src: Source) {
    && m.readerDown == l.readerDown && m.vendorDown == l.vendorDown && m.flagSeen == l.flagSeen
    && forall other :: other != src ==> m.By(other) == l.By(other)
  }

  lemma UpdateFollowsLedger(s: State, l: Ledger, src: Source)
    requires s.Phase(src).Lowered? && s.Phase(src).pc.Update?
    requires CleanupAgrees(s.Phase(src), l.By(src)) && ShowsLedger(s.page, l)
    ensures var t, m := ClearStep(s, src, s.Phase(src).pc), ToldCleanup(l, s, src, s.Phase(src).pc);
            ShowsLedger(t.page, m) && t.Phase(src).Idle? && SameButBy(l, m, src)
  {
    match src
    case Vendor =>
    case TouchHid =>
    case ButtonHid =>
  }

  lemma LoadAgrees(s: State, pc: ClearPc, x: Seen)
    requires !pc.Update? && CleanupAgrees(Lowered(pc), x)
    ensures CleanupAgrees(AfterLoad(s, pc), SeenAfterLoad(x, s, pc))
  {
  }

  lemma SawIsBy(l: Ledger, src: Source, x: Seen)
    ensures l.Saw(src, x).By(src) == x && SameButBy(l, l.Saw(src, x), src)
  {
  }

  lemma SawShows(p: Page, l: Ledger, src: Source, x: Seen)
    requires ShowsLedger(p, l)
    ensures ShowsLedger(p, l.Saw(src, x))
  {
  }

  lemma LoadFollowsLedger(s: State, l: Ledger, src: Source)
    requires s.Phase(src).Lowered? && !s.Phase(src).pc.Update?
    requires CleanupAgrees(s.Phase(src), l.By(src)) && ShowsLedger(s.page, l)
    ensures var t, m := ClearStep(s, src, s.Phase(src).pc), ToldCleanup(l, s, src, s.Phase(src).pc);
            ShowsLedger(t.page, m) && CleanupAgrees(t.Phase(src), m.By(src)) && SameButBy(l, m, src)
  {
    hide AfterLoad, SeenAfterLoad, CleanupAgrees, ShowsLedger, SameButBy, State.At, State.Phase, Ledger.Saw, Ledger.By;
    var pc := s.Phase(src).pc;
    var p, x := AfterLoad(s, pc), SeenAfterLoad(l.By(src), s, pc);
    LoadAgrees(s, pc, l.By(src));
    PhaseAt(s, src, p);
    SawIsBy(l, src, x);
    SawShows(s.page, l, src, x);
  }

  lemma CleanupFollowsLedger(s: State, l: Ledger, src: Source)
    requires s.Phase(src).Lowered? && CleanupAgrees(s.Phase(src), l.By(src)) && ShowsLedger(s.page, l)
    ensures var t, m := ClearStep(s, src, s.Phase(src).pc), ToldCleanup(l, s, src, s.Phase(src).pc);
            ShowsLedger(t.page, m) && CleanupAgrees(t.Phase(src), m.By(src)) && SameButBy(l, m, src)
  {
    hide ClearStep, ToldCleanup, ShowsLedger;
    if s.Phase(src).pc.Update? {
      UpdateFollowsLedger(s, l, src);
    } else {
      LoadFollowsLedger(s, l, src);
    }
  }

  lemma CleanupKeepsLedger(s: State, l: Ledger, src: Source)
    requires LedgerAgrees(s, l) && s.Phase(src).Lowered?
    ensures LedgerAgrees(ClearStep(s, src, s.Phase(src).pc), ToldCleanup(l, s, src, s.Phase(src).pc))
  {
    hide ClearStep, ToldCleanup, CleanupAgrees, ShowsLedger;
    ClearTouchesOwn(s, src);
    CleanupFollowsLedger(s, l, src);
    var m := ToldCleanup(l, s, src, s.Phase(src).pc);
    assert l.By(Vendor) == l.byVendor && l.By(TouchHid) == l.byTouchHid && l.By(ButtonHid) == l.byButtonHid;
    assert m.By(Vendor) == m.byVendor && m.By(TouchHid) == m.byTouchHid && m.By(ButtonHid) == m.byButtonHid;
    match src
    case Vendor =>
    case TouchHid =>
    case ButtonHid =>
  }

  lemma {:induction false} RunKeepsLedger(s: State, l: Ledger, schedule: seq<Action>)
    requires LedgerAgrees(s, l)
    ensures LedgerAgrees(Run(s, schedule), LedgerOf(l, s, schedule))
    decreases |schedule|
  {
    hide Step, Told, LedgerAgrees;
    if schedule != [] {
      StepKeepsLedger(s, l, schedule[0]);
      RunKeepsLedger(Step(s, schedule[0]), Told(l, s, schedule[0]), schedule[1..]);
    }
  }

  /**
   * On every run the page's buttons, io, touch and connected bytes are those of the last frame
   * taken, a serial or vendor frame's buttons being taken when the button HID's flag was down as
   * the thread loaded it, since the last cleanup that saw no live flag, or blank page.
   */
  lemma PageIsLastTaken(schedule: seq<Action>)
    ensures ShowsLedger(Run(INIT, schedule).page, LedgerOf(UNTOLD, INIT, schedule))
  {
    RunKeepsLedger(INIT, UNTOLD, schedule);
  }

  /** A step that changes the page also moves its sequence on by one, or blanks the page. */
  lemma ChangeIsSeen(s: State, a: Action)
    ensures var p, q := s.page, Step(s, a).page;
            p == q || q == BLANK || q.sequence == (p.sequence + 1) % 0x1_0000_0000_0000_0000
  {
    match a
    case Clear(src) => CleanupIsSeen(s, src);
    case Deliver(src, _, _, _) =>
      match src {
        case Vendor =>
        case TouchHid =>
        case ButtonHid =>
      }
    case Mark(src) =>
      match src {
        case Vendor =>
        case TouchHid =>
        case ButtonHid =>
      }
    case _ =>
  }

  lemma CleanupIsSeen(s: State, src: Source)
    ensures var p, q := s.page, Step(s, Clear(src)).page;
            p == q || q.sequence == (p.sequence + 1) % 0x1_0000_0000_0000_0000
  {
    match src
    case Vendor =>
    case TouchHid =>
    case ButtonHid =>
  }

  /** What a frame leaves on a blank page that some source has marked connected, the second change of it. */
  function FirstFrame(b: Option<byte>, io: Option<byte>, t: Option<seq<byte>>, sequence: nat): Page {
    Page(b.GetOr(0), io.GetOr(0), true, t.GetOr(ZERO_TOUCH), sequence)
  }

  /** From the start, the first frame of each source by itself reaches the page whole. */
  lemma FirstFrameArrives(b: Option<byte>, io: Option<byte>, t: Option<seq<byte>>)
    ensures Run(INIT, [OpenSession, MarkSession, ReaderLoad] + [ReaderApply(b, io, t)]).page == FirstFrame(b, io, t, 2)
    ensures Run(INIT, [Raise(Vendor), Mark(Vendor), VendorLoad] + [Deliver(Vendor, b, io, t)]).page
         == FirstFrame(b, io, t, 2)
    ensures Run(INIT, [Raise(TouchHid), Mark(TouchHid), Deliver(TouchHid, b, io, t)]).page
         == FirstFrame(None, None, t, 2)
    ensures Run(INIT, [Raise(ButtonHid)] + [Deliver(ButtonHid, b, io, t)]).page == FirstFrame(b, io, None, 1)
  {
    SerialFrameArrives(b, io, t);
    VendorFrameArrives(b, io, t);
    hide Run;
    RunThree(INIT, Raise(TouchHid), Mark(TouchHid), Deliver(TouchHid, b, io, t));
    RunAppend(INIT, [Raise(ButtonHid)], [Deliver(ButtonHid, b, io, t)]);
    RunOne(INIT, Raise(ButtonHid));
    RunOne(Step(INIT, Raise(ButtonHid)), Deliver(ButtonHid, b, io, t));
  }

  const LOADS: seq<Action> := [CheckFlag, CheckFlag, CheckFlag]

  /** Run through without interruption and with every flag down, a disconnect leaves a blank page, session or not. */
  lemma DisconnectBlanks(s: State)
    requires !s.vendor && !s.touchHid && !s.hid
    ensures s.serial == Absent ==> Run(s, [BeginDisconnect] + (LOADS + [FinishDisconnect])).page == BLANK
    ensures s.serial == Running && s.reader == Looping ==>
              Run(s, [ReaderExit, BeginDisconnect, JoinReader] + (LOADS + [FinishDisconnect])).page == BLANK
  {
    hide Run;
    RunAppend(s, [BeginDisconnect], LOADS + [FinishDisconnect]);
    RunOne(s, BeginDisconnect);
    RunAppend(s, [ReaderExit, BeginDisconnect, JoinReader], LOADS + [FinishDisconnect]);
    RunThree(s, ReaderExit, BeginDisconnect, JoinReader);
    if s.serial == Absent {
      LoadsBlank(Step(s, BeginDisconnect));
    } else if s.serial == Running && s.reader == Looping {
      LoadsBlank(Step(Step(Step(s, ReaderExit), BeginDisconnect), JoinReader));
    }
  }

  lemma LoadsBlank(s: State)
    requires !s.vendor && !s.touchHid && !s.hid && s.serial.Checking? && s.serial.flag == Vendor
    ensures Run(s, LOADS + [FinishDisconnect]).page == BLANK
  {
    hide Run;
    var t := Step(Step(Step(s, CheckFlag), CheckFlag), CheckFlag);
    RunThree(s, CheckFlag, CheckFlag, CheckFlag);
    RunAppend(s, LOADS, [FinishDisconnect]);
    RunOne(t, FinishDisconnect);
  }

  lemma RunOne(s: State, a: Action)
    ensures Run(s, [a]) == Step(s, a)
  {
    hide Step;
    assert [a][1..] == [] && Run(Step(s, a), []) == Step(s, a);
  }

  lemma SerialFrameArrives(b: Option<byte>, io: Option<byte>, t: Option<seq<byte>>)
    ensures Run(INIT, [OpenSession, MarkSession, ReaderLoad] + [ReaderApply(b, io, t)]).page == FirstFrame(b, io, t, 2)
  {
    hide Run;
    var s := Step(Step(Step(INIT, OpenSession), MarkSession), ReaderLoad);
    RunThree(INIT, OpenSession, MarkSession, ReaderLoad);
    RunOne(s, ReaderApply(b, io, t));
    RunAppend(INIT, [OpenSession, MarkSession, ReaderLoad], [ReaderApply(b, io, t)]);
  }

  lemma VendorFrameArrives(b: Option<byte>, io: Option<byte>, t: Option<seq<byte>>)
    ensures Run(INIT, [Raise(Vendor), Mark(Vendor), VendorLoad] + [Deliver(Vendor, b, io, t)]).page
         == FirstFrame(b, io, t, 2)
  {
    hide Run;
    var s := Step(Step(Step(INIT, Raise(Vendor)), Mark(Vendor)), VendorLoad);
    RunThree(INIT, Raise(Vendor), Mark(Vendor), VendorLoad);
    RunOne(s, Deliver(Vendor, b, io, t));
    RunAppend(INIT, [Raise(Vendor), Mark(Vendor), VendorLoad], [Deliver(Vendor, b, io, t)]);
  }

  // ----- where the values on the page come from -----

  predicate Offers(a: Action, b: Option<byte>, io: Option<byte>, t: Option<seq<byte>>) {
    (a.ReaderApply? || a.Deliver?) && (b.Some? ==> a.b == b) && (io.Some? ==> a.io == io) && (t.Some? ==> a.t == t)
  }

  ghost predicate OnlyOffered(p: Page, past: set<Action>) {
    && (p.buttons != 0 ==> exists a :: a in past && Offers(a, Some(p.buttons), None, None))
    && (p.ioStatus != 0 ==> exists a :: a in past && Offers(a, None, Some(p.ioStatus), None))
    && (p.touch != ZERO_TOUCH ==> exists a :: a in past && Offers(a, None, None, Some(p.touch)))
  }

  predicate Takes(p: Page, q: Page, a: Action) {
    && (q.buttons == p.buttons || q.buttons == 0 || Offers(a, Some(q.buttons), None, None))
    && (q.ioStatus == p.ioStatus || q.ioStatus == 0 || Offers(a, None, Some(q.ioStatus), None))
    && (q.touch == p.touch || q.touch == ZERO_TOUCH || Offers(a, None, None, Some(q.touch)))
  }

  lemma StepTakesOffers(s: State, a: Action)
    ensures Takes(s.page, Step(s, a).page, a)
  {
    match a
    case Deliver(src, _, _, _) =>
      match src {
        case Vendor =>
        case TouchHid =>
        case ButtonHid =>
      }
    case ReaderApply(_, _, _) =>
    case Clear(src) => ClearTakesNothing(s, src, a);
    case _ =>
  }

  lemma ClearTakesNothing(s: State, src: Source, a: Action)
    requires a == Clear(src)
    ensures Takes(s.page, Step(s, a).page, a)
  {
    match src
    case Vendor =>
    case TouchHid =>
    case ButtonHid =>
  }

  lemma StepOnlyOffers(s: State, past: set<Action>, a: Action)
    requires OnlyOffered(s.page, past)
    ensures OnlyOffered(Step(s, a).page, past + {a})
  {
    hide Step, Offers;
    StepTakesOffers(s, a);
    assert a in past + {a};
    assert forall x :: x in past ==> x in past + {a};
  }

  /** Every nonzero byte group on the page was offered, for that very field, by some frame of the run. */
  lemma {:induction false} PageShowsOfferedValues(s: State, past: set<Action>, schedule: seq<Action>)
    requires OnlyOffered(s.page, past)
    ensures OnlyOffered(Run(s, schedule).page, past + set a | a in schedule)
    decreases |schedule|
  {
    if schedule == [] {
      assert past + (set a | a in schedule) == past;
    } else {
      StepOnlyOffers(s, past, schedule[0]);
      PageShowsOfferedValues(Step(s, schedule[0]), past + {schedule[0]}, schedule[1..]);
      assert past + {schedule[0]} + (set a | a in schedule[1..]) == past + set a | a in schedule;
    }
  }

  /**
   * The button HID is streaming, and no other thread still acts on an answer it got while the
   * flag was down.
   */
  predicate HidOwnsButtons(s: State) {
    && s.hid && s.hidPhase == Streaming
    && s.reader != Holding(true) && s.vendorPhase != Decided(true) && !(s.serial.Settling? && !s.serial.live)
    && (WillClear(s.vendorPhase, ButtonField) ==> s.vendorPhase.pc == ReadHid)
    && (WillClear(s.touchHidPhase, ButtonField) ==> s.touchHidPhase.pc == ReadHid)
  }

  /** What ownership means for one step: the buttons change only by the button HID's own report. */
  predicate ButtonsFollow(s: State, a: Action, t: State) {
    if a.Deliver? && a.src.ButtonHid?
    then t.page.buttons == a.b.GetOr(s.page.buttons) && t.page.ioStatus == a.io.GetOr(s.page.ioStatus)
    else t.page.buttons == s.page.buttons && t.page.ioStatus == s.page.ioStatus
  }

  lemma OwnershipPersists(s: State, a: Action)
    requires HidOwnsButtons(s) && a != Lower(ButtonHid)
    ensures HidOwnsButtons(Step(s, a)) && ButtonsFollow(s, a, Step(s, a))
  {
    match a
    case Clear(src) => OwnershipOutlastsClear(s, src);
    case Deliver(src, _, _, _) =>
      match src {
        case Vendor =>
        case TouchHid =>
        case ButtonHid =>
      }
    case _ =>
  }

  lemma OwnershipOutlastsClear(s: State, src: Source)
    requires HidOwnsButtons(s)
    ensures HidOwnsButtons(Step(s, Clear(src))) && ButtonsFollow(s, Clear(src), Step(s, Clear(src)))
  {
    match src
    case Vendor =>
    case TouchHid =>
    case ButtonHid =>
  }

  /** The last button and io bytes the button HID reported in a schedule. */
  function LastReport(schedule: seq<Action>, b: byte, io: byte): (byte, byte)
    decreases |schedule|
  {
    if schedule == [] then (b, io)
    else
      var a := schedule[0];
      if a.Deliver? && a.src.ButtonHid? then LastReport(schedule[1..], a.b.GetOr(b), a.io.GetOr(io))
      else LastReport(schedule[1..], b, io)
  }

  /**
   * While the button HID keeps streaming, the page shows its last report, whatever frames the
   * serial and vendor threads apply and whichever other sources come and go.
   */
  lemma {:induction false} ButtonHidIsAuthoritative(s: State, schedule: seq<Action>)
    requires HidOwnsButtons(s) && Lower(ButtonHid) !in schedule
    ensures var t := Run(s, schedule);
            && HidOwnsButtons(t)
            && (t.page.buttons, t.page.ioStatus) == LastReport(schedule, s.page.buttons, s.page.ioStatus)
    decreases |schedule|
  {
    hide Step, HidOwnsButtons;
    if schedule != [] {
      OwnershipPersists(s, schedule[0]);
      ButtonHidIsAuthoritative(Step(s, schedule[0]), schedule[1..]);
    }
  }

  /**
   * What a thread writes to the buttons on an answer it got while the button HID's flag was down:
   * a serial or vendor frame it decided to use, the zeros of a cleanup, or a blank page.
   */
  function LateWrite(s: State, a: Action): Option<(byte, byte)> {
    match a
    case ReaderApply(b, io, _) =>
      if s.reader == Holding(true) then Some((b.GetOr(s.page.buttons), io.GetOr(s.page.ioStatus))) else None
    case Deliver(Vendor, b, io, _) =>
      if s.vendorPhase == Decided(true) then Some((b.GetOr(s.page.buttons), io.GetOr(s.page.ioStatus))) else None
    case FinishDisconnect => if s.serial.Settling? && !s.serial.live then Some((0, 0)) else None
    case Clear(src) =>
      var p := s.Phase(src);
      if p.Lowered? && p.pc.Update? && !p.pc.buttonsLive then Some((0, 0)) else None
    case _ => None
  }

  predicate HidStreams(s: State) {
    s.hid && s.hidPhase == Streaming
  }

  /** While the button HID streams, a step leaves the buttons to it exactly unless it makes a differing late write. */
  lemma FollowStep(s: State, a: Action)
    requires HidStreams(s) && a != Lower(ButtonHid)
    ensures var t, late := Step(s, a), LateWrite(s, a);
            && HidStreams(t)
            && (ButtonsFollow(s, a, t) <==> late.None? || late.value == (s.page.buttons, s.page.ioStatus))
            && (late.Some? ==> (t.page.buttons, t.page.ioStatus) == late.value)
  {
    match a
    case Clear(src) =>
      match src {
        case Vendor =>
        case TouchHid =>
        case ButtonHid =>
      }
    case Deliver(src, _, _, _) =>
      match src {
        case Vendor =>
        case TouchHid =>
        case ButtonHid =>
      }
    case _ =>
  }

  /** The last of the button HID's reports and the late writes along a schedule. */
  function LastReportOrLateWrite(s: State, schedule: seq<Action>, b: byte, io: byte): (byte, byte)
    decreases |schedule|
  {
    if schedule == [] then (b, io)
    else
      var a, late := schedule[0], LateWrite(s, schedule[0]);
      var next :=
        if late.Some? then late.value
        else if a.Deliver? && a.src.ButtonHid? then (a.b.GetOr(b), a.io.GetOr(io))
        else (b, io);
      LastReportOrLateWrite(Step(s, a), schedule[1..], next.0, next.1)
  }

  /** From any state in which the button HID streams, and as long as it does, nothing else reaches the buttons. */
  lemma {:induction false} ButtonsAreReportsAndLateWrites(s: State, schedule: seq<Action>)
    requires HidStreams(s) && Lower(ButtonHid) !in schedule
    ensures var t := Run(s, schedule);
            (t.page.buttons, t.page.ioStatus) == LastReportOrLateWrite(s, schedule, s.page.buttons, s.page.ioStatus)
    decreases |schedule|
  {
    hide Step, LateWrite;
    if schedule != [] {
      FollowStep(s, schedule[0]);
      ButtonsAreReportsAndLateWrites(Step(s, schedule[0]), schedule[1..]);
    }
  }

  /** The touch HID is streaming, and no other thread still acts on having seen its flag down. */
  predicate TouchHidHoldsTouch(s: State) {
    && s.touchHid && s.touchHidPhase == Streaming
    && !(s.serial.Settling? && !s.serial.live) && !(s.serial.Checking? && s.serial.flag.ButtonHid?)
    && !TouchClearDecided(s.vendorPhase) && !TouchClearDecided(s.hidPhase)
  }

  predicate TouchClearDecided(p: Phase) {
    p.Lowered? && (p.pc.ReadVendorForTouch? || (p.pc.Update? && !p.pc.touchLive))
  }

  /** The touch bytes a step writes to the page, when it applies a frame that has some. */
  function AppliedTouch(s: State, a: Action): Option<seq<byte>> {
    if a.ReaderApply? then if s.reader.Holding? then a.t else None
    else if a.Deliver? then
      match a.src
      case Vendor => if s.vendorPhase.Decided? then a.t else None
      case TouchHid => if s.touchHidPhase == Streaming then a.t else None
      case ButtonHid => None
    else None
  }

  /** The last touch applied along a schedule, by whichever source. */
  function LastTouch(s: State, schedule: seq<Action>, touch: seq<byte>): seq<byte>
    decreases |schedule|
  {
    if schedule == [] then touch
    else LastTouch(Step(s, schedule[0]), schedule[1..], AppliedTouch(s, schedule[0]).GetOr(touch))
  }

  lemma TouchHoldPersists(s: State, a: Action)
    requires TouchHidHoldsTouch(s) && a != Lower(TouchHid)
    ensures var t := Step(s, a);
            TouchHidHoldsTouch(t) && t.page.touch == AppliedTouch(s, a).GetOr(s.page.touch)
  {
    match a
    case Clear(src) => TouchOutlastsClear(s, src);
    case Deliver(src, _, _, _) =>
      match src {
        case Vendor =>
        case TouchHid =>
        case ButtonHid =>
      }
    case _ =>
  }

  lemma TouchOutlastsClear(s: State, src: Source)
    requires TouchHidHoldsTouch(s)
    ensures TouchHidHoldsTouch(Step(s, Clear(src))) && Step(s, Clear(src)).page.touch == s.page.touch
  {
    match src
    case Vendor =>
    case TouchHid =>
    case ButtonHid =>
  }

  /**
   * While the touch HID keeps streaming the page shows the last touch applied: no drop or
   * disconnect of another source takes it away.
   */
  lemma {:induction false} TouchSurvivesOtherDrops(s: State, schedule: seq<Action>)
    requires TouchHidHoldsTouch(s) && Lower(TouchHid) !in schedule
    ensures var t := Run(s, schedule);
            TouchHidHoldsTouch(t) && t.page.touch == LastTouch(s, schedule, s.page.touch)
    decreases |schedule|
  {
    hide Step, TouchHidHoldsTouch, AppliedTouch;
    if schedule != [] {
      TouchHoldPersists(s, schedule[0]);
      TouchSurvivesOtherDrops(Step(s, schedule[0]), schedule[1..]);
    }
  }

  /** The cleanup has not yet loaded a flag that it should have seen up with the vendor HID there. */
  predicate SparesVendor(p: Phase) {
    p.Lowered? ==> p.pc in {ReadHid, ReadVendorForButtons, ReadTouchHid(true), ReadVendorForTouch(true)}
  }

  /** The vendor HID is there, and no other thread still acts on having seen its flag down. */
  predicate VendorHolds(s: State) {
    && s.vendor && FlagMatchesPhase(s, Vendor)
    && !(s.serial.Settling? && !s.serial.live) && !(s.serial.Checking? && !s.serial.flag.Vendor?)
    && SparesVendor(s.touchHidPhase) && SparesVendor(s.hidPhase)
  }

  predicate SameFields(p: Page, q: Page) {
    p.buttons == q.buttons && p.ioStatus == q.ioStatus && p.touch == q.touch
  }

  lemma VendorHoldPersists(s: State, a: Action)
    requires VendorHolds(s) && a != Lower(Vendor)
    ensures VendorHolds(Step(s, a))
    ensures !a.ReaderApply? && !a.Deliver? ==> SameFields(s.page, Step(s, a).page)
  {
    match a
    case Clear(src) => VendorOutlastsClear(s, src);
    case Deliver(src, _, _, _) =>
      match src {
        case Vendor =>
        case TouchHid =>
        case ButtonHid =>
      }
    case _ =>
  }

  lemma VendorOutlastsClear(s: State, src: Source)
    requires VendorHolds(s)
    ensures VendorHolds(Step(s, Clear(src))) && SameFields(s.page, Step(s, Clear(src)).page)
  {
    match src
    case Vendor =>
    case TouchHid =>
    case ButtonHid =>
  }

  lemma {:induction false} VendorHoldsAlong(s: State, schedule: seq<Action>)
    requires VendorHolds(s) && Lower(Vendor) !in schedule
    ensures VendorHolds(Run(s, schedule))
    decreases |schedule|
  {
    hide Step, VendorHolds;
    if schedule != [] {
      VendorHoldPersists(s, schedule[0]);
      VendorHoldsAlong(Step(s, schedule[0]), schedule[1..]);
    }
  }

  /**
   * While the vendor HID is there, no drop or disconnect of another source takes anything off the
   * page: along every schedule the buttons, io and touch bytes change only by a frame.
   */
  lemma VendorSurvivesOtherDrops(s: State, schedule: seq<Action>, i: nat)
    requires VendorHolds(s) && Lower(Vendor) !in schedule && i < |schedule|
    requires !schedule[i].ReaderApply? && !schedule[i].Deliver?
    ensures SameFields(Run(s, schedule[..i]).page, Run(s, schedule[..i + 1]).page)
  {
    hide Step, VendorHolds;
    VendorHoldsAlong(s, schedule[..i]);
    VendorHoldPersists(Run(s, schedule[..i]), schedule[i]);
    assert schedule[..i + 1] == schedule[..i] + [schedule[i]];
    RunAppend(s, schedule[..i], [schedule[i]]);
    RunOne(Run(s, schedule[..i]), schedule[i]);
  }

  // ----- a run on which the stronger promise fails -----

  lemma {:induction false} RunAppend(s: State, a: seq<Action>, b: seq<Action>)
    ensures Run(s, a + b) == Run(Run(s, a), b)
    decreases |a|
  {
    if a == [] {
      assert a + b == b;
    } else {
      assert (a + b)[1..] == a[1..] + b;
      RunAppend(Step(s, a[0]), a[1..], b);
    }
  }

  const BRINGING: seq<Action> := [Raise(ButtonHid), OpenSession, MarkSession]
  const TOUCHING: seq<Action> := [ReaderLoad, ReaderApply(None, None, Some([1, 0, 0, 0, 0, 0, 0])), ReaderExit]
  const CLOSING: seq<Action> := [BeginDisconnect, JoinReader, CheckFlag]
  const LEAVING: seq<Action> := [CheckFlag, CheckFlag, FinishDisconnect]

  /** A session whose reader has left a touch on the page and ended, with the button HID up. */
  const TOUCHED := State(
    Page(0, 0, true, [1, 0, 0, 0, 0, 0, 0], 2), true, false, false, Idle, Idle, Streaming, Running, Exited)

  lemma RunThree(s: State, a: Action, b: Action, c: Action)
    ensures Run(s, [a, b, c]) == Step(Step(Step(s, a), b), c)
  {
    hide Step;
    assert [a, b, c][1..] == [b, c] && [b, c][1..] == [c];
    assert Run(Step(Step(s, a), b), [c]) == Step(Step(Step(s, a), b), c);
    assert Run(Step(s, a), [b, c]) == Step(Step(Step(s, a), b), c);
  }

  const RACING: seq<Action> := [OpenSession, ReaderLoad, Raise(ButtonHid)]
  const LATE: seq<Action> := [
    Deliver(ButtonHid, Some(1), Some(0), None), ReaderApply(Some(2), Some(0), None), ReaderExit]

  /** A serial frame, decided on before the button HID came up, replaces the report that came in between. */
  lemma LateFrameOverridesReport()
    ensures var s := Run(INIT, RACING + LATE); HidStreams(s) && s.page.buttons == 2 && LastReport(LATE, 0, 0).0 == 1
  {
    hide Run;
    var s := Step(Step(Step(INIT, RACING[0]), RACING[1]), RACING[2]);
    RunThree(INIT, RACING[0], RACING[1], RACING[2]);
    RunThree(s, LATE[0], LATE[1], LATE[2]);
    RunAppend(INIT, RACING, LATE);
    assert LATE[1..] == [LATE[1], LATE[2]] && LATE[1..][1..] == [LATE[2]] && LATE[1..][1..][1..] == [];
  }

  lemma TouchedIsReached()
    ensures Run(INIT, BRINGING + TOUCHING) == TOUCHED
  {
    hide Run;
    var s := Step(Step(Step(INIT, BRINGING[0]), BRINGING[1]), BRINGING[2]);
    RunThree(INIT, BRINGING[0], BRINGING[1], BRINGING[2]);
    RunThree(s, TOUCHING[0], TOUCHING[1], TOUCHING[2]);
    RunAppend(INIT, BRINGING, TOUCHING);
  }

  lemma TouchedIsKept()
    ensures Run(TOUCHED, CLOSING + LEAVING)
         == TOUCHED.(serial := Absent, reader := NoReader, page := TOUCHED.page.Touched())
  {
    hide Run;
    var s := Step(Step(Step(TOUCHED, CLOSING[0]), CLOSING[1]), CLOSING[2]);
    RunThree(TOUCHED, CLOSING[0], CLOSING[1], CLOSING[2]);
    RunThree(s, LEAVING[0], LEAVING[1], LEAVING[2]);
    RunAppend(TOUCHED, CLOSING, LEAVING);
  }

  /** A touch from a serial session that ended while only the button HID was up stays on the page. */
  lemma SerialTouchIsStranded()
    ensures var s := Run(INIT, (BRINGING + TOUCHING) + (CLOSING + LEAVING));
            Quiet(s) && NonZero(s.page, TouchField) && !Fed(s, TouchField)
  {
    hide Run;
    TouchedIsReached();
    TouchedIsKept();
    RunAppend(INIT, BRINGING + TOUCHING, CLOSING + LEAVING);
    assert TOUCHED.page.touch[0] == 1;
  }
}
