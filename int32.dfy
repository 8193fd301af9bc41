// 32-bit signed integer arithmetic as C# performs it in unchecked code:
// results wrap around modulo 2^32, division truncates toward zero, a zero
// divisor throws DivideByZeroException and int.MinValue / -1 throws
// OverflowException.
module Int32 {

  const MinValue: int := -0x8000_0000
  const MaxValue: int := 0x7fff_ffff
  const Modulus: int := 0x1_0000_0000

  type i32 = x: int | MinValue <= x <= MaxValue

  /** The value congruent to `x` modulo 2^32 in the int range. */
  function Wrap(x: int): (r: i32)
    ensures (r - x) % Modulus == 0
    ensures MinValue <= x <= MaxValue ==> r == x
  {
    var m := (x - MinValue) % Modulus;
    m + MinValue
  }

  function Add(a: i32, b: i32): i32 { Wrap(a + b) }
  function Sub(a: i32, b: i32): i32 { Wrap(a - b) }
  function Mul(a: i32, b: i32): i32 { Wrap(a * b) }
  function Neg(a: i32): i32 { Wrap(-(a as int)) }

  function Abs(x: int): nat { if x < 0 then -x else x }

  /** Division rounding toward zero, as C# does it. */
  function TruncDiv(a: int, b: int): int
    requires b != 0
  {
    if (a < 0) == (b < 0) then Abs(a) / Abs(b) else -(Abs(a) / Abs(b))
  }

  /** The remainder C#'s `%` leaves: it takes the sign of the dividend. */
  function TruncRem(a: int, b: int): (r: int)
    requires b != 0
    ensures r == 0 || ((r < 0) <==> (a < 0))
  {
    if a < 0 then -(Abs(a) % Abs(b)) else Abs(a) % Abs(b)
  }

  lemma NonNegativeProduct(a: nat, b: nat)
    ensures a * b >= 0
  {
  }

  lemma NegateFactor(n: int, y: int)
    ensures n * (-y) == -(n * y) && (-n) * y == -(n * y) && (-n) * (-y) == n * y
  {
  }

  lemma {:induction false} QuotientBelowDividend(x: nat, y: nat)
    requires y > 0
    ensures x == (x / y) * y + x % y && 0 <= x % y < y
    ensures x / y <= x
  {
    var n := x / y;
    NonNegativeProduct(n, y - 1);
    assert n * y == n + n * (y - 1);
  }

  lemma SignedProduct(a: int, b: int, x: int, y: int, n: int, m: int)
    requires x == n * y + m
    requires a == x || a == -x
    requires b == y || b == -y
    ensures a == (if (a == x) == (b == y) then n else -n) * b + (if a == x then m else -m)
  {
    NegateFactor(n, y);
  }

  /** Truncating division and remainder recombine to the dividend. */
  lemma {:induction false} TruncDivRecombines(a: int, b: int)
    requires b != 0
    ensures a == TruncDiv(a, b) * b + TruncRem(a, b)
  {
    var x: int, y: int := Abs(a), Abs(b);
    QuotientBelowDividend(x, y);
    if a != 0 {
      SignedProduct(a, b, x, y, x / y, x % y);
    }
  }

  /** The remainder is smaller than the divisor and the quotient no larger
      than the dividend. */
  lemma {:induction false} TruncDivBounds(a: int, b: int)
    requires b != 0
    ensures Abs(TruncRem(a, b)) < Abs(b)
    ensures Abs(TruncDiv(a, b)) <= Abs(a)
  {
    var x: int, y: int := Abs(a), Abs(b);
    QuotientBelowDividend(x, y);
    var n: int := x / y;
    if (a < 0) == (b < 0) { assert TruncDiv(a, b) == n; } else { assert TruncDiv(a, b) == -n; }
  }

  /** Dafny's division is Euclidean: q and r with a == q * b + r and
      0 <= r < |b| are its quotient and remainder. */
  lemma EuclideanUnique(a: int, b: int, q: int, r: int)
    requires b != 0 && a == q * b + r && 0 <= r < Abs(b)
    ensures a / b == q && a % b == r
  {
    var d := q - a / b;
    assert d * b == a % b - r;
  }

  /** A negative dividend's magnitude split by the divisor's. */
  lemma NegativeDividend(a: int, b: int, n: int, m: int)
    requires a < 0 && b != 0 && -a == n * Abs(b) + m && 0 <= m < Abs(b)
    ensures b > 0 && m == 0 ==> a / b == -n && a % b == 0
    ensures b > 0 && m != 0 ==> a / b == -n - 1 && a % b == b - m
    ensures b < 0 && m == 0 ==> a / b == n && a % b == 0
    ensures b < 0 && m != 0 ==> a / b == n + 1 && a % b == -b - m
  {
    if b > 0 {
      assert a == (-n) * b - m;
      if m == 0 { EuclideanUnique(a, b, -n, 0); }
      else { assert a == (-n - 1) * b + (b - m); EuclideanUnique(a, b, -n - 1, b - m); }
    } else {
      assert a == n * b - m;
      if m == 0 { EuclideanUnique(a, b, n, 0); }
      else { assert a == (n + 1) * b + (-b - m); EuclideanUnique(a, b, n + 1, -b - m); }
    }
  }

  /** C#'s division truncates toward zero, Dafny's is Euclidean: they agree
      unless the dividend is negative and not a multiple of the divisor,
      where C#'s quotient is one nearer zero and its remainder negative
      (`(-7) / 2` is -3 in C# and -4 in Dafny). */
  lemma {:induction false} TruncDivDiffersFromEuclidean(a: int, b: int)
    requires b != 0
    ensures (0 <= a || a % b == 0) ==> TruncDiv(a, b) == a / b && TruncRem(a, b) == a % b
    ensures a < 0 && a % b != 0 ==>
      TruncDiv(a, b) == (if b > 0 then a / b + 1 else a / b - 1) && TruncRem(a, b) == a % b - Abs(b)
  {
    var x: int, y: int := Abs(a), Abs(b);
    QuotientBelowDividend(x, y);
    var n, m := x / y, x % y;
    if 0 <= a && b < 0 {
      assert a == (-n) * b + m;
      EuclideanUnique(a, b, -n, m);
    } else if a < 0 {
      NegativeDividend(a, b, n, m);
    }
  }

  datatype DivFault = DivideByZero | Overflow

  datatype DivResult = Quotient(value: i32) | DivFailed(fault: DivFault)

  /** C#'s `int / int`: a zero divisor and `int.MinValue / -1` throw. */
  function Div(a: i32, b: i32): (r: DivResult)
    ensures r.DivFailed? <==> (b == 0 || (a == MinValue && b == -1))
    ensures r.DivFailed? ==> (r.fault == DivideByZero <==> b == 0)
    ensures r.Quotient? ==> r.value == TruncDiv(a, b)
  {
    if b == 0 then DivFailed(DivideByZero)
    else if a == MinValue && b == -1 then DivFailed(Overflow)
    else
      var q := TruncDiv(a, b);
      assert MinValue <= q <= MaxValue by { TruncDivBounded(a, b); }
      Quotient(q)
  }

  lemma HalfQuotient(x: nat, y: nat)
    requires y >= 2
    ensures 2 * (x / y) <= x
  {
    var n := x / y;
    QuotientBelowDividend(x, y);
    NonNegativeProduct(n, y - 2);
    assert n * y == 2 * n + n * (y - 2);
  }

  lemma TruncDivBounded(a: i32, b: i32)
    requires b != 0 && !(a == MinValue && b == -1)
    ensures MinValue <= TruncDiv(a, b) <= MaxValue
  {
    var x: int, y: int := Abs(a), Abs(b);
    var n: int := x / y;
    if (a < 0) == (b < 0) { assert TruncDiv(a, b) == n; } else { assert TruncDiv(a, b) == -n; }
    if y >= 2 {
      HalfQuotient(x, y);
    } else {
      assert y == 1;
      assert n == x;
    }
  }

  // Bitwise operators act on the two's-complement representation, written
  // here one bit at a time over the unsigned value.

  function Pow2(n: nat): (r: nat)
    ensures r >= 1
  {
    if n == 0 then 1 else 2 * Pow2(n - 1)
  }

  lemma Pow2Is32()
    ensures Pow2(32) == Modulus
  {
    assert Pow2(8) == 0x100;
    assert Pow2(16) == 0x1_0000;
    assert Pow2(24) == 0x100_0000;
  }

  /** The unsigned 32-bit pattern of `x`. */
  function Unsigned(x: i32): (u: nat)
    ensures u < Modulus
  {
    if x < 0 then x + Modulus else x
  }

  /** The signed value of an unsigned 32-bit pattern. */
  function Signed(u: nat): (x: i32)
    requires u < Modulus
    ensures Unsigned(x) == u
  {
    if u > MaxValue then u - Modulus else u
  }

  datatype BitOp = AndBits | OrBits | XorBits

  function ApplyBit(op: BitOp, x: bool, y: bool): bool
  {
    match op
    case AndBits => x && y
    case OrBits => x || y
    case XorBits => x != y
  }

  /** Combines the low `width` bits of `x` and `y` bit by bit. */
  function Bitwise(op: BitOp, x: nat, y: nat, width: nat): (r: nat)
    ensures r < Pow2(width)
  {
    if width == 0 then 0
    else (if ApplyBit(op, x % 2 == 1, y % 2 == 1) then 1 else 0) + 2 * Bitwise(op, x / 2, y / 2, width - 1)
  }

  function Bitwise32(op: BitOp, a: i32, b: i32): i32
  {
    Pow2Is32();
    Signed(Bitwise(op, Unsigned(a), Unsigned(b), 32))
  }

  function And(a: i32, b: i32): i32 { Bitwise32(AndBits, a, b) }
  function Or(a: i32, b: i32): i32 { Bitwise32(OrBits, a, b) }
  function Xor(a: i32, b: i32): i32 { Bitwise32(XorBits, a, b) }

  /** Flips the low `width` bits of `x`. */
  function Complement(x: nat, width: nat): nat
  {
    if width == 0 then 0 else (1 - x % 2) + 2 * Complement(x / 2, width - 1)
  }

  lemma {:induction false} ComplementIsSubtraction(x: nat, width: nat)
    requires x < Pow2(width)
    ensures Complement(x, width) == Pow2(width) - 1 - x
  {
    if width > 0 {
      ComplementIsSubtraction(x / 2, width - 1);
    }
  }

  /** C#'s `~a`; for two's complement this is `-a - 1`. */
  function OnesComplement(a: i32): (r: i32)
    ensures r == -(a as int) - 1
  {
    Pow2Is32();
    ComplementIsSubtraction(Unsigned(a), 32);
    Signed(Complement(Unsigned(a), 32))
  }

  lemma {:induction false} BitwiseSelf(x: nat, width: nat)
    requires x < Pow2(width)
    ensures Bitwise(AndBits, x, x, width) == x
    ensures Bitwise(OrBits, x, x, width) == x
    ensures Bitwise(XorBits, x, x, width) == 0
  {
    if width > 0 {
      BitwiseSelf(x / 2, width - 1);
    }
  }

  /** `a & a == a`, `a | a == a` and `a ^ a == 0` on every 32-bit value. */
  lemma BitwiseIdempotent(a: i32)
    ensures And(a, a) == a && Or(a, a) == a && Xor(a, a) == 0
  {
    Pow2Is32();
    BitwiseSelf(Unsigned(a), 32);
  }

  /** Wrap-around: a sum beyond int.MaxValue or below int.MinValue comes
      back by 2^32, so int.MaxValue + 1 is int.MinValue; negation wraps only
      at int.MinValue, which is its own negation. */
  lemma AddWrapsAtMaxValue(a: i32, b: i32)
    ensures MaxValue < a + b ==> Add(a, b) == a + b - Modulus
    ensures a + b < MinValue ==> Add(a, b) == a + b + Modulus
    ensures Neg(a) == if a == MinValue then MinValue else -a
  {
    var x := a + b - MinValue;
    if MaxValue < a + b {
      EuclideanUnique(x, Modulus, 1, x - Modulus);
    } else if a + b < MinValue {
      EuclideanUnique(x, Modulus, -1, x + Modulus);
    }
    if a == MinValue {
      EuclideanUnique(-(a as int) - MinValue, Modulus, 1, 0);
    }
  }

  /** Equal modulo 2^32. */
  predicate Congruent(a: int, b: int)
  {
    (a - b) % Modulus == 0
  }

  /** A multiple of 2^32 is congruent to 0. */
  lemma MultipleIsCongruent(n: int, a: int, b: int)
    requires a - b == n * Modulus
    ensures Congruent(a, b)
  {
  }

  /** Wrap gives the one value of the int range congruent to its argument,
      so congruent arguments wrap to the same value. */
  lemma WrapUnique(x: int, r: int)
    requires MinValue <= r <= MaxValue && Congruent(r, x)
    ensures Wrap(x) == r
  {
    var q := (r - x) / Modulus;
    assert r - x == q * Modulus;
    assert (x - MinValue) == (r - MinValue) + (-q) * Modulus;
  }

  /** Congruence is kept by +, - and unary minus. */
  lemma CongruentLinear(a: int, b: int, c: int, d: int)
    requires Congruent(a, b) && Congruent(c, d)
    ensures Congruent(a + c, b + d) && Congruent(a - c, b - d) && Congruent(-a, -b)
  {
    var p, q := (a - b) / Modulus, (c - d) / Modulus;
    assert a - b == p * Modulus && c - d == q * Modulus;
    MultipleIsCongruent(p + q, a + c, b + d);
    MultipleIsCongruent(p - q, a - c, b - d);
    MultipleIsCongruent(-p, -a, -b);
  }

  /** Congruence is kept by *. */
  lemma CongruentProduct(a: int, b: int, c: int, d: int)
    requires Congruent(a, b) && Congruent(c, d)
    ensures Congruent(a * c, b * d)
  {
    var p, q := (a - b) / Modulus, (c - d) / Modulus;
    assert a == b + p * Modulus && c == d + q * Modulus;
    calc {
      a * c - b * d;
      (b + p * Modulus) * (d + q * Modulus) - b * d;
      { assert (b + p * Modulus) * (d + q * Modulus) == b * d + (b * q + p * d + p * q * Modulus) * Modulus; }
      (b * q + p * d + p * q * Modulus) * Modulus;
    }
    MultipleIsCongruent(b * q + p * d + p * q * Modulus, a * c, b * d);
  }

  /** Wrapping the operand first changes nothing: unary minus on the
      wrapped value gives the wrapped exact result. */
  lemma WrappedNeg(x: int)
    ensures Neg(Wrap(x)) == Wrap(-x)
  {
    var u: int := Wrap(x);
    CongruentLinear(Neg(Wrap(x)), -u, -u, -x);
    WrapUnique(-x, Neg(Wrap(x)));
  }

  /** The same for +. */
  lemma WrappedAdd(x: int, y: int)
    ensures Add(Wrap(x), Wrap(y)) == Wrap(x + y)
  {
    var u: int, v: int := Wrap(x), Wrap(y);
    CongruentLinear(u, x, v, y);
    CongruentLinear(Add(Wrap(x), Wrap(y)), u + v, u + v, x + y);
    WrapUnique(x + y, Add(Wrap(x), Wrap(y)));
  }

  /** The same for -. */
  lemma WrappedSub(x: int, y: int)
    ensures Sub(Wrap(x), Wrap(y)) == Wrap(x - y)
  {
    var u: int, v: int := Wrap(x), Wrap(y);
    CongruentLinear(u, x, v, y);
    CongruentLinear(Sub(Wrap(x), Wrap(y)), u - v, u - v, x - y);
    WrapUnique(x - y, Sub(Wrap(x), Wrap(y)));
  }

  /** The same for *. */
  lemma WrappedMul(x: int, y: int)
    ensures Mul(Wrap(x), Wrap(y)) == Wrap(x * y)
  {
    var u: int, v: int := Wrap(x), Wrap(y);
    CongruentProduct(u, x, v, y);
    CongruentLinear(Mul(Wrap(x), Wrap(y)), u * v, u * v, x * y);
    WrapUnique(x * y, Mul(Wrap(x), Wrap(y)));
  }
}
