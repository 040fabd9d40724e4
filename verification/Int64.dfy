/** Signed 64-bit arithmetic as the interpreter (Rust, overflow-checked) and the
    emitted LLVM instructions compute it, and the conversion to a 64-bit float through
    which the interpreter compares integers. */
module Int64 {
  import opened Powers

  const TWO_63 := 0x8000_0000_0000_0000
  const TWO_64 := 0x1_0000_0000_0000_0000

  type int64 = x: int | -TWO_63 <= x < TWO_63

  predicate Fits(x: int) { -TWO_63 <= x < TWO_63 }

  function Wrap(x: int): int64 {
    var u := x % TWO_64;
    if u < TWO_63 then u else u - TWO_64
  }

  /** Division rounding toward zero. */
  function TruncDiv(a: int, b: int): int
    requires b != 0
  {
    if a >= 0 then (if b > 0 then a / b else -(a / -b))
    else (if b > 0 then -((-a) / b) else (-a) / (-b))
  }

  /** Remainder with the sign of the dividend. */
  function TruncMod(a: int, b: int): int
    requires b != 0
  {
    a - b * TruncDiv(a, b)
  }

  datatype BitOp = AndBits | OrBits | XorBits

  function Bit(op: BitOp, x: int, y: int): int {
    match op
    case AndBits => if x == 1 && y == 1 then 1 else 0
    case OrBits => if x == 1 || y == 1 then 1 else 0
    case XorBits => if x != y then 1 else 0
  }

  /** Bitwise operation on the w low bits of two's-complement integers; what is left of
      an operand after w halvings is its sign, 0 or -1. */
  function Bitwise(op: BitOp, w: nat, a: int, b: int): int {
    if w == 0 then -Bit(op, a % 2, b % 2)
    else 2 * Bitwise(op, w - 1, a / 2, b / 2) + Bit(op, a % 2, b % 2)
  }

  lemma {:induction false} BitwiseRange(op: BitOp, w: nat, a: int, b: int)
    requires -Pow2(w) <= a < Pow2(w) && -Pow2(w) <= b < Pow2(w)
    ensures -Pow2(w) <= Bitwise(op, w, a, b) < Pow2(w)
  {
    if w > 0 {
      BitwiseRange(op, w - 1, a / 2, b / 2);
    }
  }

  lemma Pow2Of63()
    ensures Pow2(63) == TWO_63
  {
    Pow2Add(32, 31);
    assert Pow2(31) == 0x8000_0000 by { Pow2Add(16, 15); assert Pow2(15) == 32768 by { Pow2Add(8, 7); } assert Pow2(16) == 65536 by { Pow2Add(8, 8); } }
    assert Pow2(32) == 0x1_0000_0000;
  }

  function Bits64(op: BitOp, a: int64, b: int64): int64 {
    Pow2Of63();
    BitwiseRange(op, 63, a, b);
    Bitwise(op, 63, a, b)
  }

  /** Exclusive-or with -1, which is how the code generator negates bits, is Rust's `!`. */
  lemma {:induction false} XorMinusOne(w: nat, a: int)
    requires -Pow2(w) <= a < Pow2(w)
    ensures Bitwise(XorBits, w, a, -1) == -1 - a
  {
    if w > 0 {
      XorMinusOne(w - 1, a / 2);
      assert (-1) / 2 == -1 && (-1) % 2 == 1;
    }
  }

  // ----- conversion of an integer to a 64-bit float -----

  /** Distance between neighbouring floats in the binade of m. */
  function Ulp(m: nat): (u: int)
    ensures u > 0
    ensures m < 0x20_0000_0000_0000 * u
    ensures u == 1 || 0x20_0000_0000_0000 * u <= 2 * m
  {
    if m < 0x20_0000_0000_0000 then 1 else 2 * Ulp(m / 2)
  }

  /** Round to nearest, ties to the even significand. */
  function RoundNat(m: nat): int {
    var u := Ulp(m);
    Nearest(m / u, m % u, u)
  }

  function Nearest(q: int, r: int, u: int): int {
    if 2 * r < u || (2 * r == u && q % 2 == 0) then q * u else (q + 1) * u
  }

  /** Rust's `x as f64`, whose result is always an integer. */
  function ToF64(x: int): int {
    if x < 0 then -RoundNat(-x) else RoundNat(x)
  }

  lemma MulMono(a: int, b: int, c: int)
    requires a <= b && c > 0
    ensures a * c <= b * c
  {
  }

  lemma QuotientAtLeast(m: int, u: int, k: int)
    requires u > 0 && k * u <= m
    ensures k <= m / u
  {
    if m / u < k { MulMono(m / u + 1, k, u); }
  }

  lemma QuotientBelow(m: int, u: int, k: int)
    requires u > 0 && m < k * u
    ensures m / u < k
  {
    if k <= m / u { MulMono(k, m / u, u); }
  }

  /** The rounded value lies between any two multiples of the unit that enclose m. */
  lemma RoundBetween(m: nat, lo: int, hi: int)
    requires var u := Ulp(m); lo * u <= m < hi * u
    ensures var u := Ulp(m); lo * u <= RoundNat(m) <= hi * u
  {
    var u := Ulp(m);
    var q := m / u;
    QuotientAtLeast(m, u, lo);
    QuotientBelow(m, u, hi);
    MulMono(lo, q, u);
    MulMono(q, q + 1, u);
    MulMono(q + 1, hi, u);
  }

  lemma RoundExact(m: nat)
    requires m < 0x20_0000_0000_0000
    ensures Ulp(m) == 1 && RoundNat(m) == m
  {
    RoundBetween(m, m, m + 1);
    assert m % 1 == 0;
  }

  /** Rounding keeps a number inside its binade. */
  lemma RoundBounds(m: nat)
    requires m >= 0x20_0000_0000_0000
    ensures 0x20_0000_0000_0000 * Ulp(m) <= 2 * RoundNat(m)
    ensures RoundNat(m) <= 0x20_0000_0000_0000 * Ulp(m)
  {
    RoundBetween(m, 0x10_0000_0000_0000, 0x20_0000_0000_0000);
  }

  lemma UlpEven(m: nat)
    ensures Ulp(m) == 1 || Ulp(m) >= 2
  {
  }

  lemma {:induction false} UlpMono(a: nat, b: nat)
    requires a <= b
    ensures Ulp(a) <= Ulp(b)
  {
    if a >= 0x20_0000_0000_0000 {
      UlpMono(a / 2, b / 2);
    }
  }

  lemma {:induction false} UlpDoubles(a: nat, b: nat)
    requires Ulp(a) < Ulp(b)
    ensures 2 * Ulp(a) <= Ulp(b)
  {
    if a >= 0x20_0000_0000_0000 {
      UlpDoubles(a / 2, b / 2);
    } else {
      UlpEven(b);
    }
  }

  /** A number in units and a remainder. */
  lemma InUnits(m: nat) returns (q: int, r: int)
    ensures var u := Ulp(m); m == q * u + r && 0 <= r < u && RoundNat(m) == Nearest(q, r, u)
  {
    var u := Ulp(m);
    q, r := m / u, m % u;
  }

  lemma RoundMonoSameUnit(a: nat, b: nat)
    requires a <= b && Ulp(a) == Ulp(b)
    ensures RoundNat(a) <= RoundNat(b)
  {
    var p, r := InUnits(a);
    var q, s := InUnits(b);
    NearestOrder(p, r, q, s, Ulp(a));
  }

  lemma NearestOrder(p: int, r: int, q: int, s: int, u: int)
    requires 0 <= r < u && 0 <= s < u && p * u + r <= q * u + s
    ensures Nearest(p, r, u) <= Nearest(q, s, u)
  {
    NextUnit(p, u);
    NextUnit(q, u);
    if p < q {
      MulMono(p + 1, q, u);
    } else if p > q {
      MulMono(q + 1, p, u);
    }
  }

  lemma NextUnit(q: int, u: int)
    ensures (q + 1) * u == q * u + u
  {}

  lemma RoundMono(a: nat, b: nat)
    requires a <= b
    ensures RoundNat(a) <= RoundNat(b)
  {
    UlpMono(a, b);
    if Ulp(a) == Ulp(b) {
      RoundMonoSameUnit(a, b);
    } else {
      if a < 0x20_0000_0000_0000 { RoundExact(a); } else { RoundBounds(a); }
      RoundBounds(b);
      UlpDoubles(a, b);
    }
  }

  /** Conversion to a float never reverses an order: it can only identify two integers. */
  lemma ToF64Mono(a: int, b: int)
    requires a <= b
    ensures ToF64(a) <= ToF64(b)
  {
    RoundExact(0);
    if a >= 0 { RoundMono(a, b); }
    else if b < 0 { RoundMono(-b, -a); }
    else { RoundMono(0, -a); RoundMono(0, b); }
  }
}
