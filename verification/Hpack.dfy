/** Prefix integers of HPACK (RFC 7541, section 5.1). */
module Hpack {
  import opened Powers
  import opened Bytes

  const TWO64 := 0x1_0000_0000_0000_0000

  // ----- the encoding of the RFC -----

  /** Seven bits an octet, the lowest first; the top bit says that more follow. */
  function Octets(v: nat): (b: seq<byte>)
    ensures b != []
  {
    if v < 128 then [v] else [128 + v % 128] + Octets(v / 128)
  }

  /** An integer behind some flag bits, in a prefix of n bits. */
  function Encode(v: nat, n: nat, flags: nat): (b: seq<byte>)
    requires 1 <= n <= 8 && (flags + 1) * Pow2(n) <= 256
  {
    var max := Pow2(n) - 1;
    if v < max then Prefix(v, n, flags) else Prefix(max, n, flags) + Octets(v - max)
  }

  function Prefix(v: nat, n: nat, flags: nat): (b: seq<byte>)
    requires 1 <= n <= 8 && (flags + 1) * Pow2(n) <= 256 && v < Pow2(n)
    ensures |b| == 1
  {
    assert flags * Pow2(n) + v < (flags + 1) * Pow2(n);
    [flags * Pow2(n) + v]
  }

  // ----- what the octets add up to -----

  /** What is read from b: a missing octet reads as zero, and an octet below 128 is the last. */
  function Sum(b: seq<byte>, m: nat): nat {
    if b == [] then 0 else b[0] as int % 128 * Pow2(m) + if b[0] >= 128 then Sum(b[1..], m + 7) else 0
  }

  function Used(b: seq<byte>): (n: nat)
    ensures n <= |b|
  {
    if b == [] then 0 else if b[0] >= 128 then 1 + Used(b[1..]) else 1
  }

  /** How often the loop turns; the end of the buffer costs a turn of its own. */
  function Turns(b: seq<byte>): nat {
    if b != [] && b[0] >= 128 then 1 + Turns(b[1..]) else 1
  }

  lemma {:induction false} SumOfOctets(v: nat, rest: seq<byte>, m: nat)
    ensures var b := Octets(v) + rest; Sum(b, m) == v * Pow2(m) && Used(b) == Turns(b) == |Octets(v)|
    decreases v
  {
    OctetInFront(v, rest);
    LowSeven(v, (Octets(v) + rest)[0]);
    if v >= 128 {
      SumOfOctets(v / 128, rest, m + 7);
      SevenMore(v, m);
    }
  }

  lemma OctetInFront(v: nat, rest: seq<byte>)
    ensures var b := Octets(v) + rest; b[0] == if v < 128 then v else v % 128 + 128
    ensures v < 128 ==> |Octets(v)| == 1
    ensures v >= 128 ==> |Octets(v)| == 1 + |Octets(v / 128)| && (Octets(v) + rest)[1..] == Octets(v / 128) + rest
  {
    if v >= 128 { AtFront(128 + v % 128, Octets(v / 128), Octets(v), rest); }
  }

  lemma AtFront(x: byte, tail: seq<byte>, whole: seq<byte>, rest: seq<byte>)
    requires whole == [x] + tail
    ensures |whole| == 1 + |tail| && (whole + rest)[0] == x && (whole + rest)[1..] == tail + rest
  {}

  lemma LowSeven(v: nat, x: int)
    requires x == if v < 128 then v else v % 128 + 128
    ensures x % 128 == v % 128 && (x >= 128 <==> v >= 128)
  {
    var low: nat := v % 128;
    if v >= 128 { Remainder(x, 1, 128, low); }
  }

  lemma SevenMore(v: nat, m: nat)
    ensures v % 128 * Pow2(m) + v / 128 * Pow2(m + 7) == v * Pow2(m)
  {
    Pow2Add(7, m);
    var p, q, r := Pow2(m), v / 128, v % 128;
    assert v == q * 128 + r;
    assert v * p == q * 128 * p + r * p;
    assert Pow2(m + 7) == 128 * p;
    assert q * (128 * p) == q * 128 * p;
  }

  /** A number of 7k bits takes at most k octets. */
  lemma {:induction false} OctetsBound(v: nat, k: nat)
    requires v < Pow2(7 * k) && k > 0
    ensures |Octets(v)| <= k
    decreases k
  {
    if v >= 128 {
      assert Pow2(7 * 1) == 128;
      Pow2Add(7, 7 * (k - 1));
      assert Pow2(7) == 128;
      OctetsBound(v / 128, k - 1);
    }
  }

  // ----- the decoder -----

  /** The value and the end of the integer at a position. */
  function Decoded(b: seq<byte>, n: nat): (int, nat)
    requires b != [] && 1 <= n <= 8
  {
    var max, v := Pow2(n) - 1, b[0] as int % Pow2(n);
    if v < max then (v, 1) else (max + Sum(b[1..], 0), 1 + Used(b[1..]))
  }

  /** No shift reaches 64. */
  predicate Defined(b: seq<byte>, n: nat)
    requires b != [] && 1 <= n <= 8
  {
    b[0] as int % Pow2(n) < Pow2(n) - 1 || Turns(b[1..]) <= 10
  }

  method ReadByte(buf: array<byte>, pos: nat, len: nat) returns (b: byte, next: nat)
    requires len <= buf.Length
    ensures if pos >= len then b == 0 && next == pos else b == buf[pos] && next == pos + 1
  {
    if pos >= len { return 0, pos; }
    return buf[pos], pos + 1;
  }

  /** Decodes in 64-bit arithmetic. A shift by 64 or more is undefined in C: it may leave any
      value, so the value is given for at most ten turns. */
  method DecodeInt(buf: array<byte>, pos: nat, len: nat, n: nat) returns (val: nat, next: nat)
    requires pos < len <= buf.Length && 1 <= n <= 8
    ensures var (v, used) := Decoded(buf[pos..len], n);
      next == pos + used <= len && val < TWO64 && (Defined(buf[pos..len], n) ==> val == v % TWO64)
  {
    var max := Pow2(n) - 1;
    PrefixBound(n);
    val, next := buf[pos] as int % Pow2(n), pos + 1;
    assert buf[pos..len][1..] == buf[next..len];
    if val < max {
      Remainder(val, 0, TWO64, val);
      return;
    }
    val, next := DecodeRest(buf, next, len, max);
  }

  method DecodeRest(buf: array<byte>, pos: nat, len: nat, max: nat) returns (val: nat, next: nat)
    requires pos <= len <= buf.Length && max < TWO64
    ensures var b := buf[pos..len];
      next == pos + Used(b) <= len && val < TWO64 && (Turns(b) <= 10 ==> val == (max + Sum(b, 0)) % TWO64)
  {
    var m, more := 0, true;
    ghost var tail, turns, total := buf[pos..len], 0, max + Sum(buf[pos..len], 0);
    ghost var at := tail;
    val, next := max, pos;
    Remainder(max, 0, TWO64, max);
    while more
      invariant pos <= next <= len && val < TWO64 && m == 7 * turns
      invariant more ==> at == buf[next..len] && turns + Turns(at) == Turns(tail)
      invariant more ==> next == pos + turns && turns + Used(at) == Used(tail)
      invariant more ==> Remains(val, total, at, m, turns)
      invariant !more ==> next == pos + Used(tail) && (Turns(tail) <= 10 ==> val == total % TWO64)
      decreases len - next, more
    {
      var b: byte;
      b, next := ReadByte(buf, next, len);
      assert b == First(at) && (at != [] ==> at[1..] == buf[next..len]);
      ghost var was := val;
      val := Shifted(val, b, m);
      OctetAdded(was, val, total, at, m, turns);
      m := m + 7;
      more := b >= 128;
      turns := turns + 1;
      if more { at := at[1..]; }
    }
  }

  /** What is still to be read makes the total complete, as long as no shift reached 64. */
  predicate Remains(val: nat, total: int, b: seq<byte>, m: nat, turns: nat) {
    turns <= 10 ==> val == (total - Sum(b, m)) % TWO64
  }

  lemma OctetAdded(val: nat, after: nat, total: int, b: seq<byte>, m: nat, turns: nat)
    requires Remains(val, total, b, m, turns) && m == 7 * turns
    requires m < 64 ==> after == (val + First(b) as int % 128 * Pow2(m)) % TWO64
    ensures if First(b) >= 128 then Remains(after, total, b[1..], m + 7, turns + 1) else turns < 10 ==> after == total % TWO64
  {
    if m < 64 { AddOctet(total, b, m); }
  }

  function First(b: seq<byte>): byte { if b == [] then 0 else b[0] }

  method Shifted(val: nat, b: byte, m: nat) returns (r: nat)
    ensures r < TWO64 && (m < 64 ==> r == (val + b as int % 128 * Pow2(m)) % TWO64)
  {
    if m < 64 {
      r := (val + b as int % 128 * Pow2(m)) % TWO64;
    } else {
      r :| 0 <= r < TWO64;
    }
  }

  /** One turn adds the octet in its place. */
  lemma AddOctet(total: int, b: seq<byte>, m: nat)
    ensures var x := First(b);
      ((total - Sum(b, m)) % TWO64 + x as int % 128 * Pow2(m)) % TWO64
        == (total - if x >= 128 then Sum(b[1..], m + 7) else 0) % TWO64
  {
    var x := First(b);
    RemainderOfSum(total - Sum(b, m), x as int % 128 * Pow2(m), TWO64);
  }

  lemma Pow70(k: nat)
    requires k == 70
    ensures Pow2(k) == 64 * TWO64
  {
    var n: nat :| n == 8;
    assert Pow2(n) == 256 by { assert Pow2(8) == 256; }
    Doubled(n, 256);
    Doubled(2 * n, 65536);
    Doubled(4 * n, 0x1_0000_0000);
    assert Pow2(6) == 64;
    Pow2Add(6, 8 * n);
  }

  lemma Doubled(n: nat, p: nat)
    requires Pow2(n) == p
    ensures Pow2(2 * n) == p * p
  {
    Pow2Add(n, n);
  }

  lemma PrefixBound(n: nat)
    requires 1 <= n <= 8
    ensures Pow2(n) <= 256
  {
    assert Pow2(8) == 256;
    Pow2Add(n, 8 - n);
  }

  /** Decoding inverts the encoding for every prefix width and every 64-bit value. */
  lemma RoundTrip(v: nat, n: nat, flags: nat, rest: seq<byte>)
    requires v < TWO64 && 1 <= n <= 8 && (flags + 1) * Pow2(n) <= 256
    ensures var e := Encode(v, n, flags); Decoded(e + rest, n) == (v, |e|) && Defined(e + rest, n)
  {
    var max := Pow2(n) - 1;
    if v < max { FirstOctet(v, n, flags, rest); } else { LongForm(v, n, flags, rest); }
  }

  lemma FirstOctet(w: nat, n: nat, flags: nat, rest: seq<byte>)
    requires 1 <= n <= 8 && (flags + 1) * Pow2(n) <= 256 && w < Pow2(n)
    ensures var b := Prefix(w, n, flags) + rest; b[0] as int % Pow2(n) == w && b[1..] == rest
  {
    Remainder(flags * Pow2(n) + w, flags, Pow2(n), w);
  }

  lemma LongForm(v: nat, n: nat, flags: nat, rest: seq<byte>)
    requires Pow2(n) - 1 <= v < TWO64 && 1 <= n <= 8 && (flags + 1) * Pow2(n) <= 256
    ensures var e := Encode(v, n, flags); Decoded(e + rest, n) == (v, |e|) && Defined(e + rest, n)
  {
    var max := Pow2(n) - 1;
    var tail := Octets(v - max) + rest;
    FirstOctet(max, n, flags, tail);
    assert Encode(v, n, flags) + rest == Prefix(max, n, flags) + tail;
    LongSum(v - max, rest);
  }

  lemma LongSum(w: nat, rest: seq<byte>)
    requires w < TWO64
    ensures var b := Octets(w) + rest; Sum(b, 0) == w && Used(b) == Turns(b) == |Octets(w)| <= 10
  {
    SumOfOctets(w, rest, 0);
    assert w * Pow2(0) == w;
    var k: nat :| k == 10;
    Pow70(7 * k);
    OctetsBound(w, k);
  }
}
