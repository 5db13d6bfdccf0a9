/**
 * The touch-HID assembler: pairs of report parts become one touch frame. Bytes are bit vectors
 * here because everything is masks and shifts.
 */
module Mai2Touch {
  import opened Bytes

  const PART_COUNT: bv8 := 2

  type Bits5 = s: seq<bv8> | |s| == 5 witness [0, 0, 0, 0, 0]

  datatype Part = Part(streamSeq: bv8, index: bv8, count: bv8, bits: Bits5)

  function NoBits(): Bits5 {
    [0, 0, 0, 0, 0]
  }

  // ----- repacking 34 touch bits, eight to a byte, into seven groups of five -----

  function Mask(i: nat): bv8
    requires i < 8
  {
    if i == 0 then 1 else if i == 1 then 2 else if i == 2 then 4 else if i == 3 then 8
    else if i == 4 then 16 else if i == 5 then 32 else if i == 6 then 64 else 128
  }

  predicate Bit(x: bv8, i: nat)
    requires i < 8
  {
    x & Mask(i) != 0
  }

  lemma OrSetsOneBit(x: bv8, i: nat, j: nat)
    requires i < 8 && j < 8
    ensures Bit(x | Mask(i), j) == (Bit(x, j) || i == j)
  {
    if i == j {
      assert (x | Mask(i)) & Mask(i) == Mask(i);
    } else {
      assert Mask(i) & Mask(j) == 0;
      assert (x | Mask(i)) & Mask(j) == (x & Mask(j)) | (Mask(i) & Mask(j));
    }
  }

  /** What bit `b` of group `g` should be. */
  predicate Packed(bits: Bits5, g: nat, b: nat) {
    b < 5 && 5 * g + b < 34 && Bit(bits[(5 * g + b) / 8], (5 * g + b) % 8)
  }

  /** The inner loop: one group of five bits, fewer in the last. */
  method PackGroup(bits: Bits5, g: nat) returns (packed: bv8)
    requires g < 7
    ensures forall b :: 0 <= b < 8 ==> Bit(packed, b) == Packed(bits, g, b)
  {
    packed := 0;
    var bit := 0;
    while bit < 5
      invariant 0 <= bit <= 5
      invariant forall b :: 0 <= b < 8 ==> Bit(packed, b) == (b < bit && Packed(bits, g, b))
    {
      var at := g * 5 + bit;
      if at >= 34 {
        break;
      }
      if bits[at / 8] & Mask(at % 8) != 0 {
        ghost var was := packed;
        packed := packed | Mask(bit);
        forall b | 0 <= b < 8
          ensures Bit(packed, b) == (b < bit + 1 && Packed(bits, g, b))
        {
          OrSetsOneBit(was, bit, b);
        }
      }
      bit := bit + 1;
    }
  }

  /** Bit `b` of group `g` is touch bit `5 g + b` when that is below 34; every other bit is zero. */
  ghost predicate Repacks(touch: seq<bv8>, bits: Bits5) {
    |touch| == 7 && forall g, b :: 0 <= g < 7 && 0 <= b < 8 ==> Bit(touch[g], b) == Packed(bits, g, b)
  }

  method PackLegacyTouchBits(bits: Bits5) returns (touch: seq<bv8>)
    ensures Repacks(touch, bits)
  {
    hide Bit, Packed;
    touch := [];
    for g := 0 to 7
      invariant |touch| == g
      invariant forall h, b :: 0 <= h < g && 0 <= b < 8 ==> Bit(touch[h], b) == Packed(bits, h, b)
    {
      var packed := PackGroup(bits, g);
      touch := touch + [packed];
    }
  }

  // ----- assembling, told from the whole list of parts -----

  predicate Accepted(p: Part) {
    p.count == PART_COUNT && p.index < PART_COUNT
  }

  /** The part indices at the end of `ps` that belong to the stream `s`. */
  function TrailingIndices(ps: seq<Part>, s: bv8): set<bv8> {
    if ps == [] || ps[|ps| - 1].streamSeq != s then {}
    else TrailingIndices(ps[..|ps| - 1], s) + {ps[|ps| - 1].index}
  }

  /** The last parts are of one stream and cover both indices. */
  predicate Complete(ps: seq<Part>) {
    ps != [] && TrailingIndices(ps, ps[|ps| - 1].streamSeq) == {0, 1}
  }

  /** The accepted parts since the last emission. */
  function Open(parts: seq<Part>): seq<Part> {
    if parts == [] then []
    else
      var before, p := Open(parts[..|parts| - 1]), parts[|parts| - 1];
      if !Accepted(p) then before
      else if Complete(before + [p]) then []
      else before + [p]
  }

  predicate Emits(parts: seq<Part>) {
    parts != [] && Accepted(parts[|parts| - 1]) && Complete(Open(parts[..|parts| - 1]) + [parts[|parts| - 1]])
  }

  function Emissions(parts: seq<Part>): nat {
    if parts == [] then 0
    else Emissions(parts[..|parts| - 1]) + if Emits(parts) then 1 else 0
  }

  lemma OnePartMore(parts: seq<Part>, p: Part)
    ensures var done := Accepted(p) && Complete(Open(parts) + [p]);
            && Emits(parts + [p]) == done
            && Open(parts + [p]) == if !Accepted(p) then Open(parts) else if done then [] else Open(parts) + [p]
  {
    assert (parts + [p])[..|parts|] == parts;
  }

  /** A part is accepted when it is one of two. */
  predicate OneOfTwo(p: Part) {
    p.count == 2 && p.index < 2
  }

  /** Part `j` has index `x` and stream `s`, and since then nothing was emitted and no other stream came. */
  predicate StillOpen(parts: seq<Part>, s: bv8, x: bv8, j: nat) {
    && j < |parts| && OneOfTwo(parts[j]) && parts[j].streamSeq == s && parts[j].index == x
    && (forall k :: j < k < |parts| && OneOfTwo(parts[k]) ==> parts[k].streamSeq == s)
    && (forall m :: j < m <= |parts| ==> !Emits(parts[..m]))
  }

  function OtherIndex(p: Part): bv8 {
    if p.index == 0 then 1 else 0
  }

  lemma OneMoreStillOpen(parts: seq<Part>, p: Part, s: bv8, x: bv8, j: nat)
    requires j < |parts|
    ensures StillOpen(parts + [p], s, x, j)
         <==> StillOpen(parts, s, x, j) && (OneOfTwo(p) ==> p.streamSeq == s) && !Emits(parts + [p])
  {
    hide Emits;
    var all := parts + [p];
    assert all[..|all|] == all && all[|parts|] == p;
    assert forall k :: 0 <= k < |parts| ==> all[k] == parts[k];
    assert forall m :: 0 <= m <= |parts| ==> all[..m] == parts[..m];
    if StillOpen(all, s, x, j) {
      assert !Emits(all[..|all|]);
      forall m | j < m <= |parts|
        ensures !Emits(parts[..m])
      {
        assert !Emits(all[..m]);
      }
    }
  }

  lemma NewestStillOpen(parts: seq<Part>, p: Part, s: bv8, x: bv8)
    ensures StillOpen(parts + [p], s, x, |parts|)
         <==> OneOfTwo(p) && p.streamSeq == s && p.index == x && !Emits(parts + [p])
  {
    hide Emits;
    var all := parts + [p];
    assert all[..|all|] == all && all[|parts|] == p;
    if StillOpen(all, s, x, |parts|) {
      assert !Emits(all[..|all|]);
    }
  }

  /** The trailing block of the open parts, told from the whole history. */
  lemma {:induction false} BlockIsStillOpen(parts: seq<Part>, s: bv8, x: bv8)
    ensures x in TrailingIndices(Open(parts), s) <==> exists j: nat :: StillOpen(parts, s, x, j)
  {
    if parts != [] {
      var before, p := parts[..|parts| - 1], parts[|parts| - 1];
      assert parts == before + [p];
      BlockIsStillOpen(before, s, x);
      BlockOneMore(before, p, s);
      hide TrailingIndices, Open, Emits, StillOpen;
      NewestStillOpen(before, p, s, x);
      if j: nat :| StillOpen(before, s, x, j) {
        StillOpenIsEarlier(before, s, x, j);
        OneMoreStillOpen(before, p, s, x, j);
      }
      if j: nat :| StillOpen(parts, s, x, j) {
        StillOpenIsEarlier(parts, s, x, j);
        if j < |before| {
          OneMoreStillOpen(before, p, s, x, j);
        }
      }
    }
  }

  lemma StillOpenIsEarlier(parts: seq<Part>, s: bv8, x: bv8, j: nat)
    requires StillOpen(parts, s, x, j)
    ensures j < |parts|
  {
  }

  lemma BlockOneMore(before: seq<Part>, p: Part, s: bv8)
    ensures TrailingIndices(Open(before + [p]), s)
         == if !OneOfTwo(p) then TrailingIndices(Open(before), s)
            else if Emits(before + [p]) || p.streamSeq != s then {}
            else TrailingIndices(Open(before), s) + {p.index}
    ensures !OneOfTwo(p) ==> !Emits(before + [p])
  {
    OnePartMore(before, p);
    assert (Open(before) + [p])[..|Open(before)|] == Open(before);
  }

  /**
   * A part completes a touch frame exactly when it is one of two and the other of its stream came
   * before it, with nothing emitted and no other stream in between.
   */
  lemma EmitsExactly(parts: seq<Part>, p: Part)
    ensures Emits(parts + [p])
            <==> OneOfTwo(p) && exists j: nat :: StillOpen(parts, p.streamSeq, OtherIndex(p), j)
  {
    OnePartMore(parts, p);
    var open, other := Open(parts), OtherIndex(p);
    BlockIsStillOpen(parts, p.streamSeq, other);
    assert (open + [p])[..|open|] == open;
    if OneOfTwo(p) {
      IndicesAreTwo(parts, p.streamSeq);
      var block := TrailingIndices(open, p.streamSeq);
      assert p.index == 0 || p.index == 1;
      assert block + {p.index} == {0, 1} <==> other in block;
    }
  }

  lemma {:induction false} IndicesAreTwo(parts: seq<Part>, s: bv8)
    ensures TrailingIndices(Open(parts), s) <= {0, 1}
  {
    if parts != [] {
      var before, p := parts[..|parts| - 1], parts[|parts| - 1];
      assert parts == before + [p];
      IndicesAreTwo(before, s);
      BlockOneMore(before, p, s);
    }
  }

  /** Every emission uses up at least two parts. */
  lemma {:induction false} AtMostHalfEmit(parts: seq<Part>)
    ensures 2 * Emissions(parts) + |Open(parts)| <= |parts|
  {
    if parts != [] {
      var before, p := parts[..|parts| - 1], parts[|parts| - 1];
      AtMostHalfEmit(before);
      if Emits(parts) {
        TrailingIsShort(Open(before) + [p], p.streamSeq);
        assert |{0 as bv8, 1 as bv8}| == 2;
      }
    }
  }

  lemma {:induction false} TrailingIsShort(ps: seq<Part>, s: bv8)
    ensures |TrailingIndices(ps, s)| <= |ps|
  {
    if ps != [] {
      TrailingIsShort(ps[..|ps| - 1], s);
    }
  }

  /** The mask holds the indices of the trailing block, all of stream `s`. */
  predicate Represents(s: bv8, mask: bv8, open: seq<Part>) {
    if open == [] then mask == 0
    else (mask == 1 || mask == 2) && open[|open| - 1].streamSeq == s
         && TrailingIndices(open, s) == if mask == 1 then {0} else {1}
  }

  function WithPart(mask: bv8, index: bv8): bv8
    requires index < 8
  {
    mask | (1 << index)
  }

  /** The mask of `count` parts. */
  function FullMask(count: bv8): bv8
    requires count < 8
  {
    (1 << count) - 1
  }

  /** One accepted part: the mask fills up exactly when the trailing block covers both indices. */
  lemma PartFillsMask(s: bv8, mask: bv8, open: seq<Part>, p: Part)
    requires Represents(s, mask, open) && Accepted(p)
    ensures var kept := if mask == 0 || s != p.streamSeq then 0 else mask;
            var m := WithPart(kept, p.index);
            && Complete(open + [p]) == (m == FullMask(PART_COUNT))
            && (!Complete(open + [p]) ==> Represents(p.streamSeq, m, open + [p]))
  {
    var ps := open + [p];
    assert ps[..|ps| - 1] == open;
    assert p.index == 0 || p.index == 1;
    assert FullMask(PART_COUNT) == 3 as bv8;
    var block := if mask == 0 || s != p.streamSeq then {} else TrailingIndices(open, s);
    assert TrailingIndices(ps, p.streamSeq) == block + {p.index};
    var both: set<bv8> := {0, 1};
    assert 0 in both && 1 in both;
  }

  class TouchHidAssembler {
    var streamSeq: bv8
    var partMask: bv8
    var touchBits: Bits5
    ghost var parts: seq<Part>  // everything pushed so far

    ghost predicate Valid()
      reads this
    {
      Represents(streamSeq, partMask, Open(parts))
    }

    constructor ()
      ensures Valid() && parts == []
    {
      streamSeq, partMask, touchBits, parts := 0, 0, NoBits(), [];
    }

    /**
     * Emits exactly when the accepted parts since the last emission end in a block of one stream
     * that covers both indices; what it emits is the repacking of the newest part's bits.
     */
    method Push(part: Part) returns (touch: Option<seq<bv8>>)
      requires Valid()
      modifies this
      ensures Valid() && parts == old(parts) + [part]
      ensures touch.Some? <==> Emits(parts)
      ensures touch.Some? ==> Repacks(touch.value, part.bits)
    {
      OnePartMore(parts, part);
      hide Open, Emits, Represents, Complete, Repacks;
      if part.count != PART_COUNT || part.index >= part.count {
        parts := parts + [part];
        return None;
      }
      touch := Add(part);
    }

    method Restart(s: bv8)
      modifies this`streamSeq, this`partMask, this`touchBits
      ensures streamSeq == s && partMask == 0
    {
      streamSeq := s;
      partMask := 0;
      touchBits := NoBits();
    }

    /** A part with a proper index takes its place in the mask. */
    method Add(part: Part) returns (touch: Option<seq<bv8>>)
      requires Valid() && Accepted(part)
      modifies this
      ensures Valid() && parts == old(parts) + [part]
      ensures touch.Some? == Complete(Open(old(parts)) + [part])
      ensures touch.Some? ==> Repacks(touch.value, part.bits)
    {
      OnePartMore(parts, part);
      PartFillsMask(streamSeq, partMask, Open(parts), part);
      hide Open, Emits, Represents, Complete, Repacks, WithPart, FullMask;
      parts := parts + [part];
      if partMask == 0 || streamSeq != part.streamSeq {
        Restart(part.streamSeq);
      }
      touchBits := part.bits;
      partMask := WithPart(partMask, part.index);
      if partMask == FullMask(part.count) {
        partMask := 0;
        EmptyIsRepresented(streamSeq);
        var packed := PackLegacyTouchBits(touchBits);
        return Some(packed);
      }
      return None;
    }
  }

  lemma EmptyIsRepresented(s: bv8)
    ensures Represents(s, 0, [])
  {
  }
}
