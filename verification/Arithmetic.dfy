/** What the operators on integers compute, said without the functions that both back ends use. */
module Arithmetic {
  import opened Powers
  import opened Int64
  import opened Ast
  import opened Interp
  import B = Bytes

  // ----- sums, products and signs -----

  /** The exact result where it fits into 64 bits, else an error. */
  lemma ExactOrOverflow(a: int64, b: int64)
    ensures EvalBinop(Add, a, b) == if -0x8000_0000_0000_0000 <= a + b <= 0x7fff_ffff_ffff_ffff then Ok(a + b) else Err(Overflow)
    ensures EvalBinop(Sub, a, b) == if -0x8000_0000_0000_0000 <= a - b <= 0x7fff_ffff_ffff_ffff then Ok(a - b) else Err(Overflow)
    ensures EvalBinop(Mul, a, b) == if -0x8000_0000_0000_0000 <= a * b <= 0x7fff_ffff_ffff_ffff then Ok(a * b) else Err(Overflow)
  {}

  /** A value and its negation add up to 0, a value and its complement to -1. */
  lemma Negations(e: Expr, frames: seq<Frame>)
    requires EvalExpr(e, frames).Ok?
    ensures var v := EvalExpr(e, frames).value;
      match EvalExpr(UnOp(Neg, e), frames) case Ok(w) => v + w == 0 case Err(x) => x == Overflow && v == -0x8000_0000_0000_0000 case OutOfFuel => false
    ensures match EvalExpr(UnOp(BitNot, e), frames) case Ok(w) => EvalExpr(e, frames).value + w == -1 case _ => false
  {}

  // ----- division -----

  lemma {:induction false} QuotientOfNats(a: nat, b: nat)
    requires b > 0
    ensures a == b * (a / b) + a % b && 0 <= a % b < b
  {}

  /** Division rounds toward zero: the remainder is smaller than the divisor and has the sign of the
      dividend. Only a zero divisor and the one quotient that does not fit fail. */
  lemma DivMod(a: int64, b: int64)
    requires b != 0 && !(a == -0x8000_0000_0000_0000 && b == -1)
    ensures EvalBinop(Div, a, b).Ok? && EvalBinop(Mod, a, b).Ok?
    ensures var q, r := EvalBinop(Div, a, b).value, EvalBinop(Mod, a, b).value;
      a == b * q + r && Magnitude(r) < Magnitude(b) && (r == 0 || (r < 0 <==> a < 0))
  {
    var x: nat, y: nat := Magnitude(a), Magnitude(b);
    QuotientOfNats(x, y);
    var q, r := x / y, x % y;
    QuotientInRange(x, y);
    assert b * TruncDiv(a, b) == if a >= 0 then y * q else -(y * q) by { Signs(b, y, q); }
  }

  lemma DivModFails(a: int64)
    ensures EvalBinop(Div, a, 0) == EvalBinop(Mod, a, 0) == Err(DivideByZero)
    ensures EvalBinop(Div, -0x8000_0000_0000_0000, -1) == EvalBinop(Mod, -0x8000_0000_0000_0000, -1) == Err(Overflow)
  {}

  function Magnitude(x: int): nat { if x < 0 then -x else x }

  lemma Signs(b: int, y: int, q: int)
    ensures b == y ==> b * q == y * q && b * -q == -(y * q)
    ensures b == -y ==> b * -q == y * q && b * q == -(y * q)
  {
    if b == -y { assert -y * -q == y * q && -y * q == -(y * q); }
    assert y * -q == -(y * q);
  }

  lemma QuotientInRange(x: nat, y: nat)
    requires y > 0
    ensures 0 <= x / y <= x && (y > 1 && x > 0 ==> x / y < x)
  {
    var q := x / y;
    assert x == y * q + x % y;
    if y > 1 && q > 0 { assert y * q >= 2 * q by { MulMono(2, y, q); } }
    if q > 0 { assert y * q >= q by { MulMono(1, y, q); } }
  }

  // ----- bits -----

  predicate Combined(op: BitOp, x: int, y: int, z: int) {
    match op
    case AndBits => z == 1 <==> x == 1 && y == 1
    case OrBits => z == 1 <==> x == 1 || y == 1
    case XorBits => z == 1 <==> x != y
  }

  lemma {:induction false} BitwiseDigit(op: BitOp, w: nat, a: int, b: int, k: nat)
    requires k <= w
    ensures Combined(op, B.BitAt(a, k), B.BitAt(b, k), B.BitAt(Bitwise(op, w, a, b), k))
    decreases k
  {
    var c := Bitwise(op, w, a, b);
    LowBit(op, w, a, b);
    B.BitStep(a, 0);
    B.BitStep(b, 0);
    B.BitStep(c, 0);
    if k > 0 {
      B.BitStep(a, k - 1);
      B.BitStep(b, k - 1);
      B.BitStep(c, k - 1);
      BitwiseDigit(op, w - 1, a / 2, b / 2, k - 1);
    }
  }

  lemma LowBit(op: BitOp, w: nat, a: int, b: int)
    ensures var c := Bitwise(op, w, a, b); c % 2 == Bit(op, a % 2, b % 2) && (w > 0 ==> c / 2 == Bitwise(op, w - 1, a / 2, b / 2))
  {}

  /** Each of the 64 bits of the result is the connective of the operands' bits. */
  lemma EachBit(a: int64, b: int64, k: nat)
    requires k < 64
    ensures EvalBinop(BitAnd, a, b).Ok? && EvalBinop(BitOr, a, b).Ok? && EvalBinop(BitXor, a, b).Ok?
    ensures B.BitAt(EvalBinop(BitAnd, a, b).value, k) == 1 <==> B.BitAt(a, k) == 1 && B.BitAt(b, k) == 1
    ensures B.BitAt(EvalBinop(BitOr, a, b).value, k) == 1 <==> B.BitAt(a, k) == 1 || B.BitAt(b, k) == 1
    ensures B.BitAt(EvalBinop(BitXor, a, b).value, k) == 1 <==> B.BitAt(a, k) != B.BitAt(b, k)
  {
    BitwiseDigit(AndBits, 63, a, b, k);
    BitwiseDigit(OrBits, 63, a, b, k);
    BitwiseDigit(XorBits, 63, a, b, k);
  }

  // ----- shifts -----

  /** A left shift is a multiplication modulo 2^64, a right shift a division rounding down; a
      distance outside 0 to 63 is an error. */
  lemma Shifts(a: int64, b: int64)
    ensures var l, r := EvalBinop(Shl, a, b), EvalBinop(Shr, a, b);
      if 0 <= b < 64 then
        && l.Ok? && (l.value - a * Pow2(b)) % 0x1_0000_0000_0000_0000 == 0
        && r.Ok? && r.value * Pow2(b) <= a < (r.value + 1) * Pow2(b)
      else l == r == Err(Overflow)
  {
    if 0 <= b < 64 {
      WrapMeans(a * Pow2(b));
      RoundsDown(a, Pow2(b));
    }
  }

  lemma RoundsDown(a: int64, p: int)
    requires p > 0
    ensures Fits(a / p) && a / p * p <= a < (a / p + 1) * p
  {
    var r := a / p;
    assert a == r * p + a % p;
    NextUnit(r, p);
    if r > 0 { MulMono(1, p, r); assert r * p == p * r; }
    if r < -0x8000_0000_0000_0000 { MulMono(r + 1, -0x8000_0000_0000_0000, p); MulMono(1, p, 0x8000_0000_0000_0000); }
  }

  lemma WrapMeans(x: int)
    ensures (Wrap(x) - x) % 0x1_0000_0000_0000_0000 == 0
  {
    var q := x / 0x1_0000_0000_0000_0000;
    var d: int := Wrap(x) - x;
    var k := if x % 0x1_0000_0000_0000_0000 < 0x8000_0000_0000_0000 then -q else -q - 1;
    assert d == k * 0x1_0000_0000_0000_0000;
    B.Remainder(d, k, 0x1_0000_0000_0000_0000, 0);
  }

  // ----- conversion to a float -----

  /** A number with 53 significant bits. */
  predicate Scaled(y: int, m: int, e: nat) { y == m * Pow2(e) && -0x20_0000_0000_0000 <= m <= 0x20_0000_0000_0000 }

  ghost predicate Double(y: int) { exists m: int, e: nat :: Scaled(y, m, e) }

  lemma {:induction false} UlpIsPower(m: nat) returns (d: nat)
    ensures Ulp(m) == Pow2(d)
  {
    if m < 0x20_0000_0000_0000 { d := 0; } else { var c := UlpIsPower(m / 2); d := c + 1; }
  }

  lemma NearestMultiple(q: int, r: int, u: int, k: int)
    requires 0 <= r < u
    ensures Nearer(Nearest(q, r, u), q * u + r, k * u)
  {
    NextUnit(q, u);
    if k <= q { MulMono(k, q, u); } else { MulMono(q + 1, k, u); }
    if k < q { MulMono(k + 1, q, u); NextUnit(k, u); }
    if k > q + 1 { MulMono(q + 2, k, u); NextUnit(q + 1, u); }
    var n := Nearest(q, r, u);
    if 2 * r == u {
      if q % 2 == 0 { EvenMultiple(q, u); } else { EvenMultiple(q + 1, u); }
    }
  }

  lemma EvenMultiple(q: int, u: int)
    requires q % 2 == 0 && u > 0
    ensures q * u % (2 * u) == 0
  {
    var h := q / 2;
    assert q * u == h * (2 * u) by { assert q == 2 * h; assert 2 * h * u == h * (2 * u); }
    B.Remainder(q * u, h, 2 * u, 0);
  }

  lemma {:induction false} PowerDivides(e: nat, d: nat) returns (k: int)
    requires d <= e
    ensures Pow2(e) == k * Pow2(d) && k > 0
  {
    Pow2Add(e - d, d);
    k := Pow2(e - d);
  }

  /** What it means that n is the nearest, and of two the even one, seen from another number y. */
  predicate Nearer(n: int, m: int, y: int) {
    && Magnitude(n - m) <= Magnitude(y - m)
    && (y != n && Magnitude(n - m) == Magnitude(y - m) ==> n % (2 * Magnitude(y - n)) == 0)
  }

  lemma RoundNatNearest(m: nat, y: int)
    requires Double(y)
    ensures Nearer(RoundNat(m), m, y)
  {
    var k, e :| Scaled(y, k, e);
    var d := UlpIsPower(m);
    var q, r := InUnits(m);
    if Ulp(m) == 1 {
      ExactIsNearest(q, r, m, y);
    } else if d <= e {
      var j := MultipleOf(y, k, e, d);
      NearestMultiple(q, r, Ulp(m), j);
    } else {
      ShortIsBelow(y, k, e, d, m);
      NearerThanBelow(q, r, Ulp(m), y);
    }
  }

  /** A number of 53 bits with a finer last digit lies below the binade. */
  lemma NearerThanBelow(q: int, r: int, u: int, y: int)
    requires 0 <= r < u && y <= 0x10_0000_0000_0000 * u <= q * u + r
    ensures Nearer(Nearest(q, r, u), q * u + r, y)
  {
    NearestMultiple(q, r, u, 0x10_0000_0000_0000);
    BelowIsFarther(Nearest(q, r, u), q * u + r, 0x10_0000_0000_0000 * u, y);
  }

  lemma MultipleOf(y: int, k: int, e: nat, d: nat) returns (j: int)
    requires y == k * Pow2(e) && d <= e
    ensures y == j * Pow2(d)
  {
    var f := PowerDivides(e, d);
    j := k * f;
    assert k * (f * Pow2(d)) == j * Pow2(d);
  }

  lemma ExactIsNearest(q: int, r: int, m: nat, y: int)
    requires m == q * 1 + r && 0 <= r < 1
    ensures Nearer(Nearest(q, r, 1), m, y)
  {}

  lemma BelowIsFarther(n: int, m: int, z: int, y: int)
    requires Nearer(n, m, z) && y <= z <= m
    ensures Nearer(n, m, y)
  {}

  lemma ShortIsBelow(y: int, k: int, e: nat, d: nat, m: nat)
    requires Scaled(y, k, e) && e < d && Ulp(m) == Pow2(d)
    ensures y <= 0x10_0000_0000_0000 * Ulp(m) <= m
  {
    var f := PowerDivides(d - 1, e);
    var p := Pow2(e);
    MulMono(k, 0x20_0000_0000_0000, p);
    MulMono(1, f, p);
    assert Ulp(m) == 2 * Pow2(d - 1) && Ulp(m) != 1;
  }

  /** The conversion gives the nearest float, and of two that are equally near the one with the even
      last digit: it is an even multiple of their distance. */
  lemma ToF64Nearest(x: int, y: int)
    requires Double(y)
    ensures var n := ToF64(x);
      && Magnitude(n - x) <= Magnitude(y - x)
      && (y != n && Magnitude(n - x) == Magnitude(y - x) ==> n % (2 * Magnitude(y - n)) == 0)
  {
    if x < 0 {
      DoubleOpposite(y);
      RoundNatNearest(-x, -y);
      var n, u := RoundNat(-x), 2 * Magnitude(-y - RoundNat(-x));
      if u > 0 && n % u == 0 { Opposite(n, u); }
    } else {
      RoundNatNearest(x, y);
    }
  }

  lemma Opposite(n: int, u: int)
    requires u > 0 && n % u == 0
    ensures -n % u == 0
  {
    assert -n == -(n / u) * u;
    B.Remainder(-n, -(n / u), u, 0);
  }

  lemma DoubleOpposite(y: int)
    requires Double(y)
    ensures Double(-y)
  {
    var m, e :| Scaled(y, m, e);
    assert Scaled(-y, -m, e);
  }

  lemma ToF64IsDouble(x: int)
    ensures Double(ToF64(x))
  {
    var a: nat := Magnitude(x);
    RoundIsDouble(a);
    if x < 0 { DoubleOpposite(RoundNat(a)); }
  }

  lemma RoundIsDouble(m: nat)
    ensures Double(RoundNat(m))
  {
    var q, r := InUnits(m);
    var d := UlpIsPower(m);
    var u := Ulp(m);
    NextUnit(q, u);
    if q >= 0x20_0000_0000_0000 { MulMono(0x20_0000_0000_0000, q, u); }
    if q < 0 { MulMono(q + 1, 0, u); }
    if RoundNat(m) == q * u { assert Scaled(RoundNat(m), q, d); } else { assert Scaled(RoundNat(m), q + 1, d); }
  }
}
