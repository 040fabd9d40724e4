/** Bytes, big-endian numbers and exclusive or. */
module Bytes {
  import opened Powers

  type byte = x: int | 0 <= x < 256

  /** Exclusive or of two numbers, from the lowest bit on. */
  function XorBits(a: nat, b: nat): nat
    decreases a + b
  {
    if a == 0 && b == 0 then 0 else (a + b) % 2 + 2 * XorBits(a / 2, b / 2)
  }

  lemma {:induction false} XorBound(a: nat, b: nat, n: nat)
    requires a < Pow2(n) && b < Pow2(n)
    ensures XorBits(a, b) < Pow2(n)
  {
    if n > 0 && (a > 0 || b > 0) { XorBound(a / 2, b / 2, n - 1); }
  }

  function Xor(a: byte, b: byte): byte {
    assert Pow2(8) == 256;
    XorBound(a, b, 8);
    XorBits(a, b)
  }

  lemma XorStep(a: nat, k: nat)
    ensures XorBits(a, k) == (a + k) % 2 + 2 * XorBits(a / 2, k / 2)
  {}

  /** Masking twice with one key gives the number back. */
  lemma {:induction false} XorTwice(a: nat, k: nat)
    ensures XorBits(XorBits(a, k), k) == a
    decreases a + k
  {
    if a > 0 || k > 0 {
      var x, y := XorBits(a, k), XorBits(a / 2, k / 2);
      XorStep(a, k);
      LowBit(a, k, y);
      XorTwice(a / 2, k / 2);
      XorStep(x, k);
    }
  }

  lemma LowBit(a: nat, k: nat, y: nat)
    ensures var x := (a + k) % 2 + 2 * y; x / 2 == y && (x + k) % 2 == a % 2
  {
    var x := (a + k) % 2 + 2 * y;
    assert x + k == a + 2 * (k - (a + k) / 2 + y);
  }

  // ----- bits -----

  /** Bit k of a two's-complement integer. */
  function BitAt(x: int, k: nat): int { x / Pow2(k) % 2 }

  lemma BitStep(x: int, k: nat)
    ensures BitAt(x, 0) == x % 2 && BitAt(x, k + 1) == BitAt(x / 2, k)
  {
    var p := Pow2(k);
    assert Pow2(k + 1) == 2 * p;
    HalfFirst(x, p);
  }

  lemma HalfFirst(x: int, p: int)
    requires p > 0
    ensures x / (2 * p) == x / 2 / p
  {
    var h := x / 2;
    var q, r := h / p, h % p;
    assert h == q * p + r && x == 2 * h + x % 2;
    Remainder(x, q, 2 * p, 2 * r + x % 2) by { assert 2 * (q * p) == q * (2 * p); }
  }

  lemma XorHalves(a: nat, b: nat, c: nat)
    requires c == XorBits(a, b)
    ensures c % 2 == (a + b) % 2 && c / 2 == XorBits(a / 2, b / 2)
  {
    XorStep(a, b);
  }

  lemma {:induction false} XorBitsAt(a: nat, b: nat, c: nat, k: nat)
    requires c == XorBits(a, b)
    ensures BitAt(c, k) == 1 <==> BitAt(a, k) != BitAt(b, k)
    decreases k
  {
    XorHalves(a, b, c);
    if k == 0 {
      LowBits(a, b, c);
    } else {
      BitStep(a, k - 1);
      BitStep(b, k - 1);
      BitStep(c, k - 1);
      XorBitsAt(a / 2, b / 2, c / 2, k - 1);
    }
  }

  lemma LowBits(a: nat, b: nat, c: nat)
    requires c % 2 == (a + b) % 2
    ensures BitAt(c, 0) == 1 <==> BitAt(a, 0) != BitAt(b, 0)
  {
    BitStep(a, 0);
    BitStep(b, 0);
    BitStep(c, 0);
  }

  /** Each bit of the exclusive or is set exactly if one of the two bits is. */
  lemma XorEachBit(a: byte, b: byte, k: nat)
    ensures BitAt(Xor(a, b), k) == 1 <==> BitAt(a, k) != BitAt(b, k)
  {
    XorBitsAt(a, b, Xor(a, b), k);
  }

  function BigEndian(b: seq<byte>): (n: nat)
  {
    if b == [] then 0 else BigEndian(b[..|b| - 1]) * 256 + b[|b| - 1]
  }

  /** The low n bytes of a number, most significant first. */
  function ToBytes(v: nat, n: nat): (b: seq<byte>)
    ensures |b| == n
    decreases n
  {
    if n == 0 then [] else ToBytes(v / 256, n - 1) + [v % 256]
  }

  function Power256(n: nat): (p: nat)
    ensures p > 0
  {
    if n == 0 then 1 else 256 * Power256(n - 1)
  }

  lemma {:induction false} BigEndianToBytes(v: nat, n: nat)
    requires v < Power256(n)
    ensures BigEndian(ToBytes(v, n)) == v
    decreases n
  {
    if n > 0 {
      var b := ToBytes(v, n);
      assert b[..n - 1] == ToBytes(v / 256, n - 1);
      assert v / 256 < Power256(n - 1);
      BigEndianToBytes(v / 256, n - 1);
    }
  }

  lemma {:induction false} ToBytesBigEndian(b: seq<byte>)
    ensures ToBytes(BigEndian(b), |b|) == b && BigEndian(b) < Power256(|b|)
  {
    if b != [] {
      var n := |b| - 1;
      ToBytesBigEndian(b[..n]);
      var m := BigEndian(b[..n]);
      Remainder(m * 256 + b[n], m, 256, b[n]);
      assert b == b[..n] + [b[n]];
      assert m + 1 <= Power256(n);
    }
  }

  lemma TwoBytes(b: seq<byte>)
    requires |b| == 2
    ensures BigEndian(b) == b[0] as int * 256 + b[1] as int
  {
    assert b[..1][..0] == [] && BigEndian(b[..1]) == b[0];
  }

  // ----- remainders -----

  lemma Remainder(n: int, d: int, m: nat, r: nat)
    requires m > 0 && r < m && n == d * m + r
    ensures n % m == r && n / m == d
  {
    var q := n / m;
    assert n == q * m + n % m && (q - d) * m == q * m - d * m && (d - q) * m == d * m - q * m;
    if q > d { AtLeast(q - d, m); }
    if q < d { AtLeast(d - q, m); }
  }

  lemma AtLeast(k: int, m: nat)
    requires k >= 1
    ensures k * m >= m
  {
    assert k * m == (k - 1) * m + m;
  }

  lemma RemainderOfSum(a: int, b: int, m: nat)
    requires m > 0
    ensures (a % m + b) % m == (a + b) % m
  {
    var c := a % m + b;
    var q, d := a / m, c / m;
    assert a + b == q * m + c == q * m + d * m + c % m;
    assert q * m + d * m == (q + d) * m;
    Remainder(a + b, q + d, m, c % m);
  }

  // ----- buffers -----

  /** What `memmove` to the front of a buffer does. */
  method MoveDown(b: array<byte>, from: nat, n: nat)
    requires from + n <= b.Length
    modifies b
    ensures b[..n] == old(b[from..from + n])
  {
    forall i | 0 <= i < n { b[i] := b[from + i]; }
  }
}
