/** Arithmetic that several components share: remainders, powers of two, and words of 64 bits. */
module Arithmetic {
  const TWO63: nat := 0x8000_0000_0000_0000
  const TWO64: nat := 0x1_0000_0000_0000_0000

  /** A word as signed, in two's complement. */
  function Signed(n: nat): int { if n >= TWO63 then n - TWO64 else n }

  /** The word that an integer is reduced to. */
  function ToWord(n: int): nat { n % TWO64 }

  /** An integer is recovered from its word exactly when it has 64 bits. */
  lemma SignedWord(n: int)
    ensures 0 <= Signed(ToWord(n)) + TWO63 < TWO64 && (Signed(ToWord(n)) - n) % TWO64 == 0
    ensures Signed(ToWord(n)) == n <==> 0 <= n + TWO63 < TWO64
  {}

  function Truth(b: bool): nat { if b then 1 else 0 }

  function Abs(n: int): nat { if n < 0 then -n else n }

  /** Division towards zero, and the remainder that belongs to it. */
  function Quotient(a: int, b: int): int
    requires b != 0
  {
    var q := Abs(a) / Abs(b);
    if (a < 0) == (b < 0) then q else -q
  }

  function Remainder(a: int, b: int): int
    requires b != 0
  {
    var r := Abs(a) % Abs(b);
    if a < 0 then -r else r
  }

  /** Quotient and remainder are those of C: towards zero, and together they make up the dividend. */
  lemma QuotientTowardsZero(a: int, b: int)
    requires b != 0
    ensures a == Quotient(a, b) * b + Remainder(a, b)
    ensures Abs(Remainder(a, b)) < Abs(b) && (Remainder(a, b) == 0 || (Remainder(a, b) < 0) == (a < 0))
  {
    var q, r := Abs(a) / Abs(b), Abs(a) % Abs(b);
    assert Abs(a) == q * Abs(b) + r;
    assert (-q) * (-b) == q * b && (-q) * b == -(q * b) && q * (-b) == -(q * b);
  }

  /** Bitwise exclusive or, and or, of unsigned numbers. */
  function BitXor(a: nat, b: nat): (r: nat)
    ensures r <= a + b
  {
    if a == 0 && b == 0 then 0
    else 2 * BitXor(a / 2, b / 2) + (if a % 2 == b % 2 then 0 else 1)
  }

  function BitOr(a: nat, b: nat): nat {
    if a == 0 then b else if b == 0 then a
    else 2 * BitOr(a / 2, b / 2) + (if a % 2 == 1 || b % 2 == 1 then 1 else 0)
  }

  const TWO32: nat := 0x1_0000_0000

  ghost predicate PowerOfTwo(n: nat) {
    n == 1 || (n > 1 && n % 2 == 0 && PowerOfTwo(n / 2))
  }

  /** Bitwise and of unsigned numbers. */
  function BitAnd(a: nat, b: nat): nat {
    if a == 0 || b == 0 then 0
    else 2 * BitAnd(a / 2, b / 2) + (if a % 2 == 1 && b % 2 == 1 then 1 else 0)
  }

  /** The bit of weight 2^k. */
  function Bit(n: nat, k: nat): nat {
    if k == 0 then n % 2 else Bit(n / 2, k - 1)
  }

  /** Each of them does to every bit what it is named after. */
  lemma {:induction false} BitByBit(a: nat, b: nat, k: nat)
    ensures Bit(BitAnd(a, b), k) == if Bit(a, k) == 1 && Bit(b, k) == 1 then 1 else 0
    ensures Bit(BitOr(a, b), k) == if Bit(a, k) == 1 || Bit(b, k) == 1 then 1 else 0
    ensures Bit(BitXor(a, b), k) == if Bit(a, k) == Bit(b, k) then 0 else 1
    decreases k
  {
    Halves(a, b);
    if k > 0 { BitByBit(a / 2, b / 2, k - 1); } else { BinaryBits(a, b); }
  }

  lemma Halves(a: nat, b: nat)
    ensures BitAnd(a, b) / 2 == BitAnd(a / 2, b / 2)
    ensures BitOr(a, b) / 2 == BitOr(a / 2, b / 2)
    ensures BitXor(a, b) / 2 == BitXor(a / 2, b / 2)
  {}

  lemma BinaryBits(a: nat, b: nat)
    ensures BitAnd(a, b) % 2 == if a % 2 == 1 && b % 2 == 1 then 1 else 0
    ensures BitOr(a, b) % 2 == if a % 2 == 1 || b % 2 == 1 then 1 else 0
    ensures BitXor(a, b) % 2 == if a % 2 == b % 2 then 0 else 1
  {}

  lemma MultipleMod(q: nat, a: nat)
    requires a > 0
    ensures (q * a) % a == 0 && (q * a) / a == q
  {
    DivModUnique(q * a, a, q, 0);
  }

  lemma DivModUnique(x: nat, a: nat, q: nat, r: nat)
    requires a > 0 && r < a && x == q * a + r
    ensures x / a == q && x % a == r
  {
    var q', r' := x / a, x % a;
    var d := q - q';
    Distribute(q, q', a);
    if d >= 1 {
      AtLeastOne(d, a);
    } else if d <= -1 {
      AtLeastOne(-d, a);
    }
  }

  lemma Distribute(q: nat, p: nat, a: nat)
    ensures (q - p) * a == q * a - p * a && -(q - p) * a == p * a - q * a
  {}

  lemma AtLeastOne(k: nat, a: nat)
    requires k >= 1
    ensures k * a >= a
  {}

  lemma AddMultiple(x: nat, y: nat, a: nat)
    requires a > 0 && y % a == 0
    ensures (x + y) % a == x % a
  {
    DivModUnique(x + y, a, x / a + y / a, x % a);
  }

  lemma SubMultiple(x: nat, y: nat, a: nat)
    requires a > 0 && y % a == 0 && y <= x
    ensures (x - y) % a == x % a
  {
    AddMultiple(x - y, y, a);
  }

  lemma TimesMultiple(n: nat, y: nat, a: nat)
    requires a > 0 && y % a == 0
    ensures (n * y) % a == 0
  {
    assert n * y == (n * (y / a)) * a;
    MultipleMod(n * (y / a), a);
  }

  lemma MultipleOfMultiple(x: nat, b: nat, a: nat)
    requires a > 0 && b > 0 && x % b == 0 && b % a == 0
    ensures x % a == 0
  {
    TimesMultiple(x / b, b, a);
  }

  lemma {:induction false} SmallerPowerDivides(a: nat, b: nat)
    requires PowerOfTwo(a) && PowerOfTwo(b) && a <= b
    ensures b % a == 0
  {
    if a == 1 {
    } else {
      SmallerPowerDivides(a / 2, b / 2);
      var q := (b / 2) / (a / 2);
      assert b / 2 == q * (a / 2);
      assert b == q * a;
      MultipleMod(q, a);
    }
  }

  lemma AndHalves(x: nat, y: nat)
    ensures BitAnd(x, y) == 2 * BitAnd(x / 2, y / 2) + (if y % 2 == 1 then x % 2 else 0)
  {}

  /** And with a run of high ones clears what is below the run, and what is above it. */
  lemma {:induction false} AndHighOnes(x: nat, a: nat, top: nat)
    requires PowerOfTwo(a) && PowerOfTwo(top) && a <= top
    ensures BitAnd(x, top - a) == x % top - x % a
    decreases top
  {
    if a < top {
      SmallerPowerDivides(a, top);
      AndHalves(x, top - a);
      HalfMod(x, top);
      if a == 1 {
        assert (top - 1) / 2 == top / 2 - 1 && (top - 1) % 2 == 1;
        AndHighOnes(x / 2, 1, top / 2);
      } else {
        HalfMod(x, a);
        HalfOfRun(top, a);
        AndHighOnes(x / 2, a / 2, top / 2);
      }
    }
  }

  lemma HalfOfRun(top: nat, a: nat)
    requires top % 2 == 0 && a % 2 == 0 && a <= top
    ensures (top - a) / 2 == top / 2 - a / 2 && (top - a) % 2 == 0
  {}

  lemma HalfMod(x: nat, p: nat)
    requires p > 1 && p % 2 == 0
    ensures x % p == 2 * ((x / 2) % (p / 2)) + x % 2
  {
    var h := p / 2;
    var q, r := (x / 2) / h, (x / 2) % h;
    assert x / 2 == q * h + r;
    assert x == q * p + (2 * r + x % 2);
    DivModUnique(x, p, q, 2 * r + x % 2);
  }

  lemma Two32IsPower()
    ensures PowerOfTwo(TWO32)
  {
    PowersUpTo(32);
  }

  function Pow2(n: nat): nat {
    if n == 0 then 1 else 2 * Pow2(n - 1)
  }

  lemma {:induction false} PowersUpTo(n: nat)
    ensures PowerOfTwo(Pow2(n)) && Pow2(n) >= 1
    ensures Pow2(32) == TWO32
  {
    if n > 0 { PowersUpTo(n - 1); }
    assert Pow2(8) == 256;
    assert Pow2(16) == 0x1_0000;
    assert Pow2(24) == 0x100_0000;
  }

  /** `x` and the multiple of `a` below it lie in the same block of `b`. */
  lemma LowerBlock(x: nat, a: nat, b: nat)
    requires a > 0 && b > 0 && b % a == 0
    ensures (x - x % a) % b == x % b - x % a
  {
    var q, low := x / b, x % b;
    BlockMod(x, q, low, a, b);
    ModAtMost(low, a);
    DivModUnique(x - x % a, b, q, low - x % a);
  }

  lemma BlockMod(x: nat, q: nat, low: nat, a: nat, b: nat)
    requires a > 0 && b > 0 && b % a == 0 && x == q * b + low
    ensures x % a == low % a
  {
    TimesMultiple(q, b, a);
    AddMultiple(low, q * b, a);
  }

  lemma ModAtMost(x: nat, a: nat)
    requires a > 0
    ensures x % a <= x && (x < a ==> x % a == x)
  {
    if x < a { DivModUnique(x, a, 0, x); }
  }

  lemma {:induction false} Pow2Sum(a: nat, b: nat)
    ensures Pow2(a + b) == Pow2(a) * Pow2(b) && Pow2(a) > 0
  {
    if a > 0 {
      Pow2Sum(a - 1, b);
      Twice(Pow2(a - 1), Pow2(b));
    }
  }

  lemma Twice(a: nat, b: nat)
    ensures (2 * a) * b == 2 * (a * b)
  {}

  lemma Pow64()
    ensures Pow2(64) == TWO64 && Pow2(63) == TWO63
  {
    PowersUpTo(32);
    Pow2Sum(32, 32);
    Pow2Sum(32, 31);
    assert Pow2(31) == TWO32 / 2;
  }

  lemma Pow64IsPower()
    ensures PowerOfTwo(TWO64)
  {
    Pow64();
    PowersUpTo(64);
  }

  lemma {:induction false} BitsBelow(a: nat, b: nat, m: nat)
    requires PowerOfTwo(m) && a < m && b < m
    ensures BitOr(a, b) < m && BitXor(a, b) < m && BitAnd(a, b) < m
    decreases m
  {
    if m > 1 && a > 0 && b > 0 { BitsBelow(a / 2, b / 2, m / 2); }
  }

  lemma QuotientAtMost(x: nat, y: nat)
    requires y > 0
    ensures 0 <= x / y <= x && 0 <= x % y < y && (x < y <==> x / y == 0) && (x < y ==> x % y == x)
    ensures y >= 2 ==> 2 * (x / y) <= x
  {
    var q, r := x / y, x % y;
    assert x == q * y + r;
    if q > 0 {
      AtLeastOne(q, y);
      Products(q, y);
    } else {
      assert q * y == 0;
    }
  }

  lemma Products(q: nat, y: nat)
    requires y > 0
    ensures q <= q * y && (y >= 2 ==> 2 * q <= q * y)
  {
    assert q * y == q + q * (y - 1);
    if y >= 2 { assert q * (y - 1) == q + q * (y - 2); }
  }

  lemma ShiftedDown(a: int, power: nat)
    requires power >= 1
    ensures (if a < 0 then a else 0) <= a / power <= (if a < 0 then 0 else a)
  {
    if a >= 0 { QuotientAtMost(a, power); } else { NegativeShifted(a, power, a / power, a % power); }
  }

  lemma NegativeShifted(a: int, power: nat, q: int, r: int)
    requires a < 0 && power >= 1 && a == q * power + r && 0 <= r < power
    ensures a <= q <= 0
  {
    if q > 0 {
      Products(q, power);
    } else if q < 0 {
      var n := -(q + 1);
      assert -((q + 1) * power) == n * power && (q + 1) * power == q * power + power;
      Products(n, power);
    }
  }
}
