# Affine IO: a verified model

Affine IO puts game controllers behind the segatools interface: it keeps serial and HID
connections to the devices, decodes their byte streams into shared input pages, and drives
their LEDs from shared output pages. This project models the parts where state, threads and
byte streams meet, and proves what they keep over every run.

`dafny verify dfyconfig.toml` checks everything.

## What is modelled

- `Mai2Inputs.dfy`: the five threads of one player that share an input page and three
  `*_connected` flags, as a step system. Every page operation and every flag load or store is
  one step; `||` does not load its second flag when the first is up. A schedule is any list of
  actions and a disabled action does nothing, so the theorems hold for every interleaving.
- `Mai2Device.dfy`: `device_thread`. Each iteration runs against whatever the outside gives it
  (link state, write results, clock advance, touch counters, how far the reader thread has got
  with its two board-info stores). A ghost history records what the thread observed and what
  the device accepted, and `Lawful` says what a history may contain; every quantity in the laws
  is read off the history, not off the thread's variables. `NextEvent` says what comes next in an
  iteration, and `Iterated` that an iteration is exactly those events. The output page is read once per
  iteration and touched nowhere else in it, so a schedule of halves of LED calls, other game
  updates and whole iterations covers every interleaving with the game.
- `Mai2Leds.dfy`: the game's LED calls, the fade latch and the output pages.
- `Mai2Frames.dfy`: `try_parse_frame` and `consume` on the array, the reader's loop, and a pure
  parser. The theorems are about the pure parser, which the methods are proved to compute.
- `Mai2Touch.dfy`, `Mai2Poll.dfy`: the touch assembler and bit repacking; the poll and its coin pulse.
- `Aime.dfy`, `Slider.dfy`, `Bench.dfy`: the other three framings.
- `Bytes.dfy`: bytes, wrapping sums and byte unstuffing. A `byte` is an integer below 256 and
  every wrap-around is written out.

Six results are about where the code does less than it says or than one might expect.

1. `clear_inputs_on_source_drop` promises that a dropped HID source leaves nothing behind unless
   another live source provides the field. `disconnect_session` lacks that behaviour for the
   serial source: it keeps the whole page when any HID flag is up. `SerialTouchIsStranded` is a
   run that leaves a touch on the page with only the button HID live. `LooseStep` says exactly
   which step makes a field outlive everyone answerable for it (a disconnect that tears a session
   down loads a raised flag of the other field) and which step ends that, `LooseExactly` and
   `HeldOnlyWhileFedExactly` say the same of whole runs, under every interleaving.
2. `send_slider_frame` never escapes, while `SliderParser` unescapes: a frame reads back if and
   only if it contains no special byte (`ReadBackExactly`). The parser does not check the
   checksum: the same condition holds of a frame that ends in any other byte
   (`Slider.ChecksumIsIgnored`). The mai2 parser checks that of status messages
   (`StatusChecksumDecides`) and not that of board-info messages (`InfoChecksumIsIgnored`).
3. `led_gs_update` updates the latch and the page under separate locks. However calls overlap, the
   latch follows the last call to take its lock and the page the last to publish
   (`OverlapSplitsColours`); two calls can leave them apart (`CallsCanCross`), and calls made one
   after the other cannot (`OneByOneIsGsUpdates`, `LastPublishedOneByOne`).
4. Lengths are cut to eight bits: an Aime request reads back if and only if its payload has at
   most 250 bytes (`RequestRoundTripsExactly`), a benchmark frame if and only if at most 252 and
   no start byte stands before it (`ParseInvertsSendExactly`).
5. The benchmark's fill loop drops what does not fit of a read. A reply is found behind stray bytes
   and other frames whenever the end of each leaves room for what one read can bring after it
   (`ReplyIsFound`). Right behind one other frame, a reply is found in every cut if and only if the
   frame and what one read can bring of the reply fit the buffer together (`LongFrameCostsTheReply`).
   A reply that is returned was in the buffer as a whole frame (`ReplyIsGenuine`), and was received
   in one piece when no read was cut (`UncutReplyWasReceived`); otherwise it may be put together
   from both sides of the dropped bytes (`CutReplyIsSpliced`).
6. While the button HID streams, its reports alone reach the buttons, except that a thread which
   loaded the HID's flag while it was down may still write once on that answer
   (`LateFrameOverridesReport`). `FollowStep` says exactly which step does so, and
   `ButtonsAreReportsAndLateWrites` what the page shows over every run.

## Model

| member | source | states |
|---|---|---|
| Mai2Inputs.NoStuckInput | crates/affine-mai2/src/lib.rs:1029-1084 | for every interleaving: a nonzero button, io or touch field has a HID flag up, a serial session open or being torn down, or a source thread that has lowered its flag, seen no live flag for the field and has yet to clear it |
| Mai2Inputs.AllGoneMeansAllZero | crates/affine-mai2/src/lib.rs:1062-1084 | once all sources are gone and none is clearing, every input byte is zero |
| Mai2Inputs.LooseStep | crates/affine-mai2/src/lib.rs:1029-1084 | one step leaves a field nonzero with nobody answerable exactly when a disconnect tearing down a session loads a raised flag while no source feeds the field and no cleanup is due; the steps that end that state, exactly |
| Mai2Inputs.LooseExactly | crates/affine-mai2/src/lib.rs:1029-1084 | over every run: a field is in that state if and only if some step stranded it and no later step rescued it |
| Mai2Inputs.EverLooseExactly | crates/affine-mai2/src/lib.rs:1042-1052 | a run ever leaves a field so if and only if one of its steps strands it |
| Mai2Inputs.HeldOnlyWhileFedExactly | crates/affine-mai2/src/lib.rs:1042-1061 | at rest a field is nonzero without a live source that feeds it if and only if it was stranded and not rescued since |
| Mai2Inputs.SerialTouchIsStranded | crates/affine-mai2/src/lib.rs:1042-1049 | a concrete run that leaves such a touch behind |
| Mai2Inputs.InvAlways | crates/affine-mai2/src/lib.rs:963-1084 | the inductive invariant of all five threads survives every schedule |
| Mai2Inputs.PageShowsOfferedValues | crates/affine-mai2/src/lib.rs:1853-1875 | a nonzero field was offered for that very field by some frame of the run |
| Mai2Inputs.PageIsLastTaken | crates/affine-mai2/src/lib.rs:997-1005 | on every run the page's buttons, io, touch and connected bytes are those of the last frame taken (serial and vendor buttons when the HID flag was down as the thread loaded it) since the last cleanup that saw no live flag, or blank page |
| Mai2Inputs.FirstFrameArrives | crates/affine-mai2/src/lib.rs:1853-1870 | from the start, the first frame of each of the four sources alone reaches the page whole |
| Mai2Inputs.ChangeIsSeen | crates/affine-mai2/src/lib.rs:1860-1875 | a step that changes the page moves its sequence on by one, or blanks the page |
| Mai2Inputs.DisconnectBlanks | crates/affine-mai2/src/lib.rs:1029-1053 | with every flag down a disconnect, of a session or of none, leaves a blank page |
| Mai2Inputs.VendorSurvivesOtherDrops | crates/affine-mai2/src/lib.rs:1062-1068 | while the vendor HID is there, no drop or disconnect of another source takes anything off the page |
| Mai2Inputs.ButtonHidIsAuthoritative | crates/affine-mai2/src/lib.rs:997-1005 | once the button HID streams and no other thread still acts on having seen it down, the page shows its last report whatever serial and vendor frames arrive and whatever sources come and go |
| Mai2Inputs.FollowStep | crates/affine-mai2/src/lib.rs:997-1005 | while the button HID streams, a step leaves the buttons to it if and only if it is no write by a thread that loaded the flag while it was down, or one that changes nothing |
| Mai2Inputs.ButtonsAreReportsAndLateWrites | crates/affine-mai2/src/lib.rs:997-1005 | from any state and as long as the button HID streams, the buttons are the last of its reports and those late writes |
| Mai2Inputs.LateFrameOverridesReport | crates/affine-mai2/src/lib.rs:997-1005 | a concrete run in which a serial frame replaces a later button HID report |
| Mai2Inputs.TouchSurvivesOtherDrops | crates/affine-mai2/src/lib.rs:1062-1068 | once the touch HID streams and no other thread still acts on having seen it down, the page shows the last touch applied: no drop or disconnect of another source takes it away |
| Mai2Device.DeviceThread.Run | crates/affine-mai2/src/lib.rs:725-961 | any schedule of iterations, LED-call halves and game updates: between turns the history obeys every law, each iteration is exactly what comes next for the page and the outside it meets, nothing else moves the thread, and the shared suspend flag mirrors the latch |
| Mai2Device.DeviceThread.Iterate | crates/affine-mai2/src/lib.rs:726-960 | exactly when an iteration connects, ends or drops the session, which frames it adds, each due, in order and accepted, and on which refused write or observation it drops; the clock and the pending flag after it |
| Mai2Device.IterationIsDetermined | crates/affine-mai2/src/lib.rs:726-960 | the start, the page and the outside leave one possible history, clock, session and pending flag |
| Mai2Device.IterationKeepsPast | crates/affine-mai2/src/lib.rs:726-960 | the history only grows, strictly when a session was open or opened |
| Mai2Device.SentWasAccepted | crates/affine-mai2/src/lib.rs:818-957 | every frame an iteration adds was accepted by the device in that iteration |
| Mai2Device.DeviceThread.Open | crates/affine-mai2/src/lib.rs:781-802 | a new session starts from nothing sent and its own clock readings |
| Mai2Device.DeviceThread.Beat | crates/affine-mai2/src/lib.rs:818-827 | a heartbeat is written if and only if the newest is 100 ms old; a refused one drops the session, and past the step the newest is younger |
| Mai2Device.DeviceThread.AskInfo | crates/affine-mai2/src/lib.rs:829-860 | a request is written if and only if one is pending and due; afterwards none is due while one is pending, and the pending flag is exact |
| Mai2Device.DeviceThread.RequestInfo | crates/affine-mai2/src/lib.rs:839-858 | the request time is now, and a retry after three seconds gives up; request count and spacing keep their bounds whatever the reader stores meanwhile |
| Mai2Device.DeviceThread.Watch | crates/affine-mai2/src/lib.rs:862-913 | the latch and its shared mirror follow the history; the session drops exactly when touch was silent for a second |
| Mai2Device.DeviceThread.SendLeds | crates/affine-mai2/src/lib.rs:922-957 | the groups that moved are written in order; all are delivered, or the first refused write drops the session |
| Mai2Device.DeviceThread.Disconnect | crates/affine-mai2/src/lib.rs:1034-1040 | closes an open session and only that |
| Mai2Device.SendKeeps | crates/affine-mai2/src/lib.rs:922-956 | sending a group whose version moved makes it delivered and keeps the others in step |
| Mai2Device.UpdateKeepsStep | crates/affine-mai2/src/lib.rs:490-573 | a concurrent game update cannot make an out-of-date frame look delivered |
| Mai2Device.BeatsTakeTime | crates/affine-mai2/src/lib.rs:816-827 | n heartbeats in a session take at least 100 n ms, for every clock |
| Mai2Device.RequestsTakeTime | crates/affine-mai2/src/lib.rs:829-860 | the n-th board-info request of a session comes no sooner than 500 + 1000 (n - 1) ms after its opening |
| Mai2Device.EndedIsPaced | crates/affine-mai2/src/lib.rs:816-860 | when an iteration ends the newest heartbeat is under 100 ms old and no board-info request is overdue |
| Mai2Device.SilenceDropsExactly | crates/affine-mai2/src/lib.rs:882-913 | when the device takes every frame, a live session outlasts an iteration if and only if touch has not been silent for a second |
| Mai2Device.SuspendsExactly | crates/affine-mai2/src/lib.rs:864-897 | after an iteration output is suspended if and only if touch has been silent for 300 ms, or it was suspended and the touch counter has not moved |
| Mai2Device.NoSerialBesideVendor | crates/affine-mai2/src/lib.rs:726-760 | disabled, beside a vendor HID or without a port, the thread sends nothing and is left without a session |
| Mai2Device.DeadSessionIsDropped | crates/affine-mai2/src/lib.rs:808-812 | when the reader has failed, an iteration only drops the session |
| Mai2Device.AtMostFourInfoRequests | crates/affine-mai2/src/lib.rs:829-860 | a session sends at most four board-info requests |
| Mai2Device.SuspensionHolds | crates/affine-mai2/src/lib.rs:864-918 | once suspended, no LED frame is sent, even across reconnects, until the touch counter is seen to move |
| Mai2Device.StaleIterationSendsNoLed | crates/affine-mai2/src/lib.rs:882-918 | an iteration judged stale sends no LED frame |
| Mai2Device.CompletedTurnDelivers | crates/affine-mai2/src/lib.rs:922-957 | in every run, after a completed, unsuspended iteration the last frames the device accepted in the session are, for all three groups, those of the page as the game had left it |
| Mai2Device.DeviceShowsLastColours | crates/affine-mai2/src/lib.rs:501-553 | in every run from fresh pages, the newest button frame then carries the colour bytes of the LED call that published last, however calls overlap |
| Mai2Device.DeviceShowsLastUpdates | crates/affine-mai2/src/lib.rs:935-956 | and the newest billboard and pwm frames carry the last colours the game set |
| Mai2Device.PageHoldsLastWord | crates/affine-mai2/src/lib.rs:475-573 | the page a schedule leads to holds the game's last billboard, pwm and touch switch |
| Mai2Device.LastPublishedOneByOne | crates/affine-mai2/src/lib.rs:501-553 | for calls that do not overlap, those are the colours of the last call for the board |
| Mai2Device.VersionZeroIsNeverSet | crates/affine-mai2/src/lib.rs:103-117 | version 0 means the group still has its fresh value |
| Mai2Device.AgeMeasuresSilence | crates/affine-mai2/src/lib.rs:1018-1027 | the computed touch age says how long touch has been silent |
| Mai2Leds.LedRuntime.LedGsUpdate | crates/affine-mai2/src/lib.rs:501-553 | the whole new latch and page state; short or misaddressed calls change nothing |
| Mai2Leds.SequenceMovesExactly | crates/affine-mai2/src/lib.rs:490-573 | a group's sequence moves by one if and only if the group changes, and an update reaches its own group only |
| Mai2Leds.OthersAreIgnored | crates/affine-mai2/src/lib.rs:501-504 | an LED call is ignored when its board is not 0 or 1 or its buffer is under 32 bytes |
| Mai2Leds.LatchFade | crates/affine-mai2/src/lib.rs:518-545 | the in-place loops compute the fade page and move the latch to the targets |
| Mai2Leds.LedRuntime.LedSetFetOutput | crates/affine-mai2/src/lib.rs:490-499 | one board's pwm group takes the value and its sequence moves if and only if it changes; nothing else does |
| Mai2Leds.LedRuntime.LedBillboardSet | crates/affine-mai2/src/lib.rs:555-573 | one colour on all eight billboard LEDs of one board |
| Mai2Leds.ButtonRgbPayload | crates/affine-mai2/src/lib.rs:699-707 | extracts the target bytes of all eight LEDs |
| Mai2Leds.RgbRecoversTargets | crates/affine-mai2/src/lib.rs:699-707 | the serial payload of a fade page is exactly the call's targets |
| Mai2Leds.TargetsAt | crates/affine-mai2/src/lib.rs:519-522 | those targets are the colour bytes of the call, one LED after the other |
| Mai2Leds.ColoursFollowCalls | crates/affine-mai2/src/lib.rs:518-552 | after any calls, latch and page carry the targets of the last call for that board |
| Mai2Leds.FadeContinues | crates/affine-mai2/src/lib.rs:522-542 | each LED starts where the previous call pointed it, or at its own target at speed 0; the other board is untouched |
| Mai2Leds.RepeatsSettle | crates/affine-mai2/src/lib.rs:547-552 | repeating the same colours bumps the sequence at most twice, from any state |
| Mai2Leds.OverlapSplitsColours | crates/affine-mai2/src/lib.rs:518-552 | under every interleaving of the halves of calls, the latch holds the colours of the last call to take the lock and the page aims at those of the last to publish, so they agree exactly when those are equal |
| Mai2Leds.CallsCanCross | crates/affine-mai2/src/lib.rs:518-552 | two calls that lock in one order and publish in the other leave page and latch on different calls |
| Mai2Leds.OneByOneIsGsUpdates | crates/affine-mai2/src/lib.rs:501-553 | calls whose halves do not interleave amount to whole calls |
| Mai2Frames.TryParseFrame | crates/affine-mai2/src/lib.rs:1666-1736 | the in-place parser is a function of the live prefix: same frame, exactly the unconsumed suffix left |
| Mai2Frames.Consume | crates/affine-mai2/src/lib.rs:1738-1746 | drops count bytes of the live prefix |
| Mai2Frames.SerialReader.Push | crates/affine-mai2/src/lib.rs:984-990 | one byte in, all its frames out; the overflow reset is never reached |
| Mai2Frames.SerialReader.Drain | crates/affine-mai2/src/lib.rs:990-1013 | parse-while-Some yields all frames of the live bytes |
| Mai2Frames.SerialReader.Feed | crates/affine-mai2/src/lib.rs:972-1015 | feeding a chunk byte by byte equals one parse of the residual followed by the chunk |
| Mai2Frames.NextDrains | crates/affine-mai2/src/lib.rs:990-1013 | each call takes the first frame of the parse and strictly shortens the buffer |
| Mai2Frames.ParseAppend | crates/affine-mai2/src/lib.rs:983-1014 | the append law: parse(a + b) is parse(a), then parse(residual + b) |
| Mai2Frames.ChunkingIsIrrelevant | crates/affine-mai2/src/lib.rs:972-1015 | however a stream is cut, frames and residual are those of the whole |
| Mai2Frames.ResidualIsBounded | crates/affine-mai2/src/lib.rs:1696-1712 | at most 258 bytes ever wait |
| Mai2Frames.Conservation | crates/affine-mai2/src/lib.rs:1666-1736 | the input is exactly frame bytes, single skipped bytes and residual, in order |
| Mai2Frames.TokensAreFrames | crates/affine-mai2/src/lib.rs:1666-1736 | those frame bytes are, alone, exactly the emitted frames |
| Mai2Frames.DecideExactly | crates/affine-mai2/src/lib.rs:1666-1736 | the parser takes exactly where a message starts, and waits exactly for less than a header or bytes that may become a message |
| Mai2Frames.TokensAreMessages | crates/affine-mai2/src/lib.rs:1666-1736 | every frame comes from bytes that spell a message with that meaning, and a byte is dropped only where none starts nor could |
| Mai2Frames.StreamRoundTrip | crates/affine-mai2/src/lib.rs:1666-1736 | well-formed messages with noise between parse to those messages, whatever follows |
| Mai2Frames.StreamRoundTripFromEmpty | crates/affine-mai2/src/lib.rs:1666-1736 | and from an empty buffer nothing is left over |
| Mai2Frames.VersionIsRead | crates/affine-mai2/src/lib.rs:1748-1759 | a length-prefixed version text is recovered whatever pads it |
| Mai2Frames.VersionIsReadExactly | crates/affine-mai2/src/lib.rs:1748-1759 | a version is read from exactly the payloads that start with a nonempty text and its length |
| Mai2Frames.StatusChecksumDecides | crates/affine-mai2/src/lib.rs:1677-1695 | a status message is taken if and only if its last byte is the sum of the others |
| Mai2Frames.InfoChecksumIsIgnored | crates/affine-mai2/src/lib.rs:1696-1708 | a board-info message is taken whatever its last byte is |
| Mai2Frames.SendFrame | crates/affine-mai2/src/lib.rs:1842-1851 | builds the summed frame with an eight-bit length |
| Mai2Touch.TouchHidAssembler.Push | crates/affine-mai2/src/lib.rs:1643-1663 | emits exactly when the parts since the last emission end in a block of one stream covering both indices |
| Mai2Touch.PartFillsMask | crates/affine-mai2/src/lib.rs:1648-1658 | the mask is the index set of the trailing block |
| Mai2Touch.EmitsExactly | crates/affine-mai2/src/lib.rs:1643-1663 | a part completes a frame if and only if it is one of two and the other of its stream came before with no emission and no other stream in between |
| Mai2Touch.AtMostHalfEmit | crates/affine-mai2/src/lib.rs:1643-1663 | emissions are at most half of the pushes |
| Mai2Touch.PackLegacyTouchBits | crates/affine-mai2/src/lib.rs:1824-1840 | bit b of group g is touch bit 5g+b below 34, every other bit 0 |
| Mai2Poll.PollPage.Poll | crates/affine-mai2/src/lib.rs:396-460 | operator bits, game buttons and the coin pulse of one poll |
| Mai2Poll.PollPage.PollAll | crates/affine-mai2/src/lib.rs:441-451 | over any run, coin is asserted exactly at rising edges and the level is the last sample |
| Mai2Poll.EveryPressHasOneRise | crates/affine-mai2/src/lib.rs:441-451 | every press belongs to exactly one credited edge |
| Mai2Poll.MapButtons | crates/affine-mai2/src/lib.rs:1894-1926 | the low byte is the eight buttons, bit 8 is select |
| Mai2Poll.GameButtonsBits | crates/affine-mai2/src/lib.rs:1894-1926 | low byte, select bit and zeros of those bits |
| Aime.EncodeFrame | crates/affine-aime/src/lib.rs:442-465 | start byte, then the stuffed body and checksum; up to 250 payload bytes the receiver reads length, 0, sequence, command, payload length and payload from it |
| Aime.TakeByte | crates/affine-aime/src/lib.rs:479-520 | one byte of the decoder |
| Aime.ReadFrame | crates/affine-aime/src/lib.rs:467-523 | the result depends only on the concatenated bytes before a failure |
| Aime.ChunksDeliver | crates/affine-aime/src/lib.rs:472-479 | reads of bytes, empty ones included, deliver their concatenation, up to a failure |
| Aime.FirstCompletionDecides | crates/affine-aime/src/lib.rs:506-520 | the decoder returns at the first prefix whose segment is complete, with that segment's verdict |
| Aime.DecoderIsSound | crates/affine-aime/src/lib.rs:508-518 | a returned frame is the unstuffed bytes since the last start byte, of its own stated length, and the dropped byte is its sum |
| Aime.DecoderIsComplete | crates/affine-aime/src/lib.rs:472-522 | it keeps waiting if and only if no prefix is complete |
| Aime.FramedRoundTrip | crates/affine-aime/src/lib.rs:480-518 | from any reached state a framed body returns on its last byte and not before |
| Aime.RequestRoundTripsExactly | crates/affine-aime/src/lib.rs:442-465 | after any unreturned stream, an encoded request reads back if and only if its payload has at most 250 bytes |
| Aime.Reader.Transact | crates/affine-aime/src/lib.rs:115-147 | what is sent and what the receiver reads from it, the next sequence byte, when the port closes, and the reply |
| Aime.ResponseArrives | crates/affine-aime/src/lib.rs:128-146 | a device response after noise, in any chunks, yields its status and payload |
| Aime.SliceExactly | crates/affine-aime/src/lib.rs:135-146 | a reply is read if and only if the response carries its status, length and payload in their places |
| Slider.SliderParser.Push | crates/affine-core/src/slider.rs:63-116 | the fixed-buffer parser computes the pure one and keeps its buffer invariant |
| Slider.SliderParser.Store | crates/affine-core/src/slider.rs:89-115 | a decoded byte is stored, completes the packet, or overflows 128 bytes |
| Slider.ParserIsBatch | crates/affine-core/src/slider.rs:62-117 | on every stream the packets are those of the batch reading: cut at 0xFF, unescape, take size + 4 bytes if at most 128 |
| Slider.FeedKeepsForm | crates/affine-core/src/slider.rs:62-117 | collecting implies 1 to 128 bytes from a start byte, and fewer than size + 4 |
| Slider.ReadBackExactly | crates/affine-core/src/slider.rs:25-37 | a sent frame reads back exactly, on its last byte, if and only if it has at most 124 payload bytes and no special byte |
| Slider.ChecksumIsIgnored | crates/affine-core/src/slider.rs:62-117 | a frame that ends in any byte reads back exactly under the same condition, whatever the checksum should be |
| Slider.SendSliderFrame | crates/affine-core/src/slider.rs:25-37 | builds the frame with its subtracting checksum |
| Bytes.SumIsTotal | crates/affine-mai2/src/lib.rs:1682-1684 | the wrapping sum is what the bytes add up to, modulo 256 |
| Slider.FrameSumsToZero | crates/affine-core/src/slider.rs:34-35 | all bytes of a frame sum to zero |
| Bench.ParseMai2Frame | examples/e2e_latency_bench.rs:645-675 | the in-place parser is a function of the live prefix |
| Bench.ParseInvertsSendExactly | examples/e2e_latency_bench.rs:732-741 | parse inverts send and leaves the rest intact if and only if the payload has at most 252 bytes and no start byte stands before the frame |
| Bench.FullBufferShrinks | examples/e2e_latency_bench.rs:650-669 | a full buffer always gets shorter |
| Bench.DrainLeavesRoom | examples/e2e_latency_bench.rs:539-558 | after draining there is room for the next read |
| Bench.Drain | examples/e2e_latency_bench.rs:539-558 | parses until the awaited reply or no frame |
| Bench.ReadReply | examples/e2e_latency_bench.rs:508-562 | the fill loop computes Fill, reads always find room, and a reply it returns is in the bytes that reached the buffer, as a whole frame with the awaited echo |
| Bench.ReplyIsFound | examples/e2e_latency_bench.rs:520-558 | behind stray bytes without a start byte and other whole frames, however cut into reads of at most 64 bytes, the reply is returned with its three fields, as long as what a read can bring after each of those fits the buffer with it |
| Bench.ReplyIsGenuine | examples/e2e_latency_bench.rs:539-558 | a reply returned was in the bytes that reached the buffer: a whole frame with this command, this echo and the three fields |
| Bench.UncutReplyWasReceived | examples/e2e_latency_bench.rs:533-558 | when no read is cut, the received bytes hold it in one piece |
| Bench.CutReplyIsSpliced | examples/e2e_latency_bench.rs:533-537 | when one is, a reply may be put together across the lost bytes, whatever they are |
| Bench.DrainedIsGenuine | examples/e2e_latency_bench.rs:539-558 | the same of one drain, which leaves an end of the bytes |
| Bench.MetaIsRead | examples/e2e_latency_bench.rs:552-557 | the three fields are read as two 64-bit numbers and a 32-bit one, little-endian |
| Bench.ParsedWasSent | examples/e2e_latency_bench.rs:645-675 | a frame returned stood in the buffer as a whole, behind bytes without a start byte |
| Bench.LongFrameCostsTheReply | examples/e2e_latency_bench.rs:533-537 | right behind another frame a reply is found in every cut into reads if and only if its payload has at most 252 bytes and the frame and what one read can bring of the reply fit the 256-byte buffer |
| Bench.HeadDecides | examples/e2e_latency_bench.rs:650-674 | a frame-shaped head is returned exactly when its size fits and its checksum is right; otherwise the call gives up one byte on, whatever whole frame follows |

## Left out

- Mai2Device.DeviceThread.Iterate: the log-once flags, statistics counters and sleeps are not modelled; sleeping is part of the arbitrary clock advance.
- Mai2Leds.FadeContinues: speaks of calls that do not overlap; `OverlapSplitsColours` covers the others.
- Mai2Poll.PollPage.Poll: the three operator bits are modelled as a set, and the poll page's other readers are not modelled.
- Mai2Frames.SerialReader.Feed: the frames are returned as a list; the page updates they cause are the steps of Mai2Inputs, where frame contents are arbitrary.
- Mai2Frames.VersionIsRead: version texts stay bytes; the lossy UTF-8 conversion is not modelled.
- Aime.ReadFrame: a call still waiting when the listed reads run out is reported as Blocked instead of reading forever.
- Bench.ReadReply: the deadline is the end of the list of reads.
- `vendor_command_thread`'s output half repeats the serial loop's heartbeat, board-info and LED steps over HID without the watchdog; only its input half is modelled.
- `parse_touch_hid_part` is a fixed-offset field check with no state.
- Sequence numbers of the output page do not wrap, and shared pages start fresh and belong to this process.
- Serial, HID, shared-memory and keyboard calls appear only as their possible results.
- The touch callback thread, LED probe, logging, INI lookup and port discovery.
- The Aime command wrappers and card cache above `transact`.
- The chuni and mercury runtimes, which reuse the slider parser.
- Latency statistics and the hardware probe example.
