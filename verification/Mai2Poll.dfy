/** `poll`: the game's snapshot of both players, and the coin pulse on its rising edge. */
module Mai2Poll {
  /** The bits of opbtn: 0x01, 0x02 and 0x04. A button byte is the set of its bits. */
  datatype OpButton = Test | Service | Credit

  const EXT_SELECT: bv8 := 1
  const EXT_TEST: bv8 := 2
  const EXT_SERVICE: bv8 := 4
  const EXT_COIN: bv8 := 8

  datatype Input = Input(buttons0: bv8, ioStatus: bv8, connected: bool) {
    predicate Has(bit: bv8) {
      connected && ioStatus & bit != 0
    }
  }

  /** What one poll samples: both input pages and the three fallback keys. */
  datatype Sample = Sample(p1: Input, p2: Input, testKey: bool, serviceKey: bool, coinKey: bool) {
    /** The combined coin signal; player 2's coin line is not part of it. */
    predicate Coin() {
      p1.Has(EXT_COIN) || coinKey
    }
  }

  /** Eight game buttons in the low byte, select in bit 8. */
  function GameButtons(buttons0: bv8, buttons1: bv8): bv16 {
    (buttons0 as bv16) | ((buttons1 & EXT_SELECT) as bv16 << 8)
  }

  /** The low byte is the eight buttons, the next bit is select, and the rest is zero. */
  lemma GameButtonsBits(buttons0: bv8, buttons1: bv8)
    ensures var out := GameButtons(buttons0, buttons1);
            && out & 0xFF == buttons0 as bv16
            && out & 0x100 == (if buttons1 & 1 != 0 then 0x100 else 0)
            && out & 0xFE00 == 0
  {
  }

  method MapButtons(buttons0: bv8, buttons1: bv8) returns (out: bv16)
    ensures out == GameButtons(buttons0, buttons1)
  {
    out := 0;
    if buttons0 & 0x01 != 0 { out := out | 0x01; }
    if buttons0 & 0x02 != 0 { out := out | 0x02; }
    if buttons0 & 0x04 != 0 { out := out | 0x04; }
    if buttons0 & 0x08 != 0 { out := out | 0x08; }
    if buttons0 & 0x10 != 0 { out := out | 0x10; }
    if buttons0 & 0x20 != 0 { out := out | 0x20; }
    if buttons0 & 0x40 != 0 { out := out | 0x40; }
    if buttons0 & 0x80 != 0 { out := out | 0x80; }
    if buttons1 & EXT_SELECT != 0 { out := out | 0x100; }
  }

  /** The coin pulses a list of samples should give: one where the signal rises, from low at the start. */
  predicate Rises(samples: seq<Sample>, i: nat)
    requires i < |samples|
  {
    samples[i].Coin() && (i == 0 || !samples[i - 1].Coin())
  }

  predicate HeldBetween(samples: seq<Sample>, i: nat, j: nat)
    requires j < |samples|
  {
    forall k :: i <= k <= j ==> samples[k].Coin()
  }

  /** A press is credited once and only once: at the start of the unbroken hold it belongs to. */
  lemma {:induction false} EveryPressHasOneRise(samples: seq<Sample>, j: nat)
    requires j < |samples| && samples[j].Coin()
    ensures exists i :: 0 <= i <= j && Rises(samples, i) && HeldBetween(samples, i, j)
    ensures forall i, i' :: 0 <= i <= i' <= j && Rises(samples, i) && HeldBetween(samples, i, j) && Rises(samples, i')
                ==> i == i'
    decreases j
  {
    if Rises(samples, j) {
      assert HeldBetween(samples, j, j);
    } else {
      EveryPressHasOneRise(samples, j - 1);
      var i :| 0 <= i <= j - 1 && Rises(samples, i) && HeldBetween(samples, i, j - 1);
      assert HeldBetween(samples, i, j);
    }
  }

  /** What one player's page contributes: game buttons and the two operator bits both players share. */
  method PlayerPart(p: Input) returns (btn: bv16, ops: set<OpButton>)
    ensures btn == if p.connected then GameButtons(p.buttons0, p.ioStatus) else 0
    ensures (Test in ops <==> p.Has(EXT_TEST)) && (Service in ops <==> p.Has(EXT_SERVICE)) && Credit !in ops
  {
    btn, ops := 0, {};
    if p.connected {
      btn := MapButtons(p.buttons0, p.ioStatus);
      if p.ioStatus & EXT_TEST != 0 { ops := ops + {Test}; }
      if p.ioStatus & EXT_SERVICE != 0 { ops := ops + {Service}; }
    }
  }

  /** The fallback keys set the operator bits too. */
  method WithKeys(ops0: set<OpButton>, testKey: bool, serviceKey: bool) returns (ops: set<OpButton>)
    ensures Test in ops <==> Test in ops0 || testKey
    ensures Service in ops <==> Service in ops0 || serviceKey
    ensures Credit in ops <==> Credit in ops0
  {
    ops := ops0;
    if testKey { ops := ops + {Test}; }
    if serviceKey { ops := ops + {Service}; }
  }

  /** The coin latch: the new level, and whether this sample is a rising edge. */
  method CoinEdge(was: bool, pressed: bool) returns (level: bool, credit: bool)
    ensures level == pressed && credit == (pressed && !was)
  {
    level, credit := was, false;
    if pressed {
      if !level {
        level := true;
        credit := true;
      }
    } else {
      level := false;
    }
  }

  lemma HasIsBit(p: Input)
    ensures p.Has(EXT_TEST) <==> p.connected && p.ioStatus & 2 != 0
    ensures p.Has(EXT_SERVICE) <==> p.connected && p.ioStatus & 4 != 0
    ensures p.Has(EXT_COIN) <==> p.connected && p.ioStatus & 8 != 0
  {
  }

  class PollPage {
    var opbtn: set<OpButton>
    var player1: bv16
    var player2: bv16
    var affineCoin: bool
    var sequence: nat

    constructor ()
      ensures !affineCoin
    {
      opbtn, player1, player2, affineCoin, sequence := {}, 0, 0, false, 0;
    }

    method Poll(s: Sample)
      modifies this
      ensures Test in opbtn
              <==> (s.p1.connected && s.p1.ioStatus & 2 != 0) || (s.p2.connected && s.p2.ioStatus & 2 != 0) || s.testKey
      ensures Service in opbtn
              <==> (s.p1.connected && s.p1.ioStatus & 4 != 0) || (s.p2.connected && s.p2.ioStatus & 4 != 0)
                   || s.serviceKey
      ensures Credit in opbtn <==> s.Coin() && !old(affineCoin)
      ensures affineCoin == s.Coin()
      ensures s.Coin() <==> (s.p1.connected && s.p1.ioStatus & 8 != 0) || s.coinKey
      ensures player1 == if s.p1.connected then GameButtons(s.p1.buttons0, s.p1.ioStatus) else 0
      ensures player2 == if s.p2.connected then GameButtons(s.p2.buttons0, s.p2.ioStatus) else 0
      ensures sequence == (old(sequence) + 1) % 0x1_0000_0000_0000_0000
    {
      HasIsBit(s.p1);
      HasIsBit(s.p2);
      hide GameButtons, Input.Has;
      var btn1, ops1 := PlayerPart(s.p1);
      var btn2, ops2 := PlayerPart(s.p2);
      var ops := WithKeys(ops1 + ops2, s.testKey, s.serviceKey);
      var coinPressed := s.p1.Has(EXT_COIN) || s.coinKey;
      var level, credit := CoinEdge(affineCoin, coinPressed);
      if credit { ops := ops + {Credit}; }
      affineCoin, opbtn, player1, player2, sequence := level, ops, btn1, btn2, (sequence + 1) % 0x1_0000_0000_0000_0000;
    }

    /** Over any run of polls from a fresh page, coin is asserted exactly at the rising edges. */
    method PollAll(samples: seq<Sample>) returns (ops: seq<set<OpButton>>)
      requires !affineCoin
      modifies this
      ensures |ops| == |samples|
      ensures forall i :: 0 <= i < |samples| ==> (Credit in ops[i] <==> Rises(samples, i))
      ensures samples != [] ==> affineCoin == samples[|samples| - 1].Coin()
    {
      ops := [];
      for n := 0 to |samples|
        invariant |ops| == n
        invariant forall i :: 0 <= i < n ==> (Credit in ops[i] <==> Rises(samples, i))
        invariant affineCoin <==> n > 0 && samples[n - 1].Coin()
      {
        Poll(samples[n]);
        ops := ops + [opbtn];
      }
    }
  }
}
