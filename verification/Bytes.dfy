/** Bytes, the mod-256 running sum shared by the serial protocols, and the option type. */
module Bytes {
  type byte = b: int | 0 <= b < 256

  datatype Option<+T> = None | Some(value: T) {
    function GetOr(default: T): T {
      if Some? then value else default
    }
  }

  /** What one read of a port gives: some bytes, perhaps none, or a failure. */
  datatype Read = Chunk(bytes: seq<byte>) | Failed

  /** `wrapping_add(1)` and `wrapping_sub(1)`. */
  function Next(b: byte): byte {
    (b as int + 1) % 256
  }

  function Prev(b: byte): byte {
    (b as int - 1) % 256
  }

  /** The left fold of wrapping_add that every Affine checksum uses. */
  function Sum(s: seq<byte>): byte {
    if s == [] then 0 else (Sum(s[..|s| - 1]) + s[|s| - 1]) % 256
  }

  /** The bytes added up, without wrap-around. */
  function Total(s: seq<byte>): nat {
    if s == [] then 0 else s[0] + Total(s[1..])
  }

  lemma {:induction false} TotalOneMore(s: seq<byte>, b: byte)
    ensures Total(s + [b]) == Total(s) + b
  {
    if s != [] {
      assert (s + [b])[1..] == s[1..] + [b];
      TotalOneMore(s[1..], b);
    } else {
      assert s + [b] == [b] && [b][1..] == [];
    }
  }

  /** The checksum is what the bytes add up to, modulo 256. */
  lemma {:induction false} SumIsTotal(s: seq<byte>)
    ensures Sum(s) == Total(s) % 256
  {
    if s != [] {
      var t, b := s[..|s| - 1], s[|s| - 1];
      SumIsTotal(t);
      TotalOneMore(t, b);
      assert s == t + [b];
      ModOfSum(Total(t), b);
    }
  }

  lemma ModOfSum(n: nat, b: byte)
    ensures (n % 256 + b) % 256 == (n + b) % 256
  {
  }

  /** A byte list built from its parts, in order. */
  function Flatten(parts: seq<seq<byte>>): seq<byte> {
    if parts == [] then [] else parts[0] + Flatten(parts[1..])
  }

  /** `[0xFF, cmd, len, payload.., sum]`; the length byte keeps only the low eight bits. */
  function SumFrame(cmd: byte, payload: seq<byte>): seq<byte> {
    var head := [0xFF, cmd, |payload| % 256] + payload;
    head + [Sum(head)]
  }

  method Checksum(s: seq<byte>) returns (sum: byte)
    ensures sum == Sum(s)
  {
    sum := 0;
    for i := 0 to |s|
      invariant sum == Sum(s[..i])
    {
      assert s[..i + 1][..i] == s[..i];
      sum := (sum + s[i]) % 256;
    }
    assert s[..|s|] == s;
  }

  lemma SliceOfSlice(s: seq<byte>, a: nat, b: nat, c: nat, d: nat)
    requires a <= b <= |s| && c <= d <= b - a
    ensures s[a..b][c..d] == s[a + c..a + d]
  {
    var t, u := s[a..b], s[a + c..a + d];
    forall k | 0 <= k < d - c
      ensures t[c..d][k] == u[k]
    {
      assert t[c..d][k] == t[c + k] == s[a + (c + k)];
      assert u[k] == s[a + c + k];
    }
    assert t[c..d] == u;
  }

  /**
   * Undoes byte stuffing: after `esc` the next byte stands for one more than itself; repeated
   * escapes act as one. The flag says an escape is still open.
   */
  function Unstuff(s: seq<byte>, esc: byte): (seq<byte>, bool) {
    if s == [] then ([], false)
    else
      var (data, escaped) := Unstuff(s[..|s| - 1], esc);
      var b := s[|s| - 1];
      if b == esc then (data, true)
      else (data + [if escaped then Next(b) else b], false)
  }

  lemma UnstuffOneMore(s: seq<byte>, b: byte, esc: byte)
    ensures var (data, escaped) := Unstuff(s, esc);
            Unstuff(s + [b], esc) == if b == esc then (data, true) else (data + [if escaped then Next(b) else b], false)
  {
    assert (s + [b])[..|s|] == s;
  }

  /** Unstuffing never lengthens, and keeps the length only of what has no escape, which it leaves alone. */
  lemma {:induction false} UnstuffLength(s: seq<byte>, esc: byte)
    ensures |Unstuff(s, esc).0| <= |s|
    ensures |Unstuff(s, esc).0| == |s| <==> esc !in s
    ensures esc !in s ==> Unstuff(s, esc) == (s, false)
  {
    if s != [] {
      var v, b := s[..|s| - 1], s[|s| - 1];
      UnstuffLength(v, esc);
      assert s == v + [b];
    }
  }

  /** Two ways to cut the same bytes: the first cut falls inside `w` or after it. */
  lemma TwoCuts(s: seq<byte>, later: seq<byte>, w: seq<byte>, x: seq<byte>)
    requires s + later == w + x
    ensures if |s| < |w| then s == w[..|s|] else s == w + s[|w|..] && s[|w|..] + later == x
  {
    assert forall k :: 0 <= k < |s| ==> s[k] == (w + x)[k];
    if |s| >= |w| {
      assert forall k :: 0 <= k < |x| ==> x[k] == (s + later)[|w| + k];
    }
  }

  lemma DropLast(a: seq<byte>, b: seq<byte>)
    requires b != []
    ensures (a + b)[..|a + b| - 1] == a + b[..|b| - 1]
  {
    assert (a + b)[..|a + b| - 1] == a + b[..|b| - 1];
  }
}
