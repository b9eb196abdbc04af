/** Integer constants: truncation (src/cc1/num.c) and folding (src/cc1/const.c), in 64-bit arithmetic. */
module Truncation {
  import opened Arithmetic

  /** `m` of the values of a type, `m` a power of two: the signed one among those congruent to `r`. */
  function SignExtended(r: nat, m: nat): int { if r >= m / 2 then r - m else r }

  /** Values in range that differ by a multiple of `m` are the same, so that what follows is unique. */
  lemma OnlyOneInRange(x: int, y: int, lo: int, m: nat, k: int)
    requires lo <= x < lo + m && lo <= y < lo + m && x == k * m + y
    ensures x == y
  {
    if k >= 1 { AtLeastOne(k, m); }
    if k <= -1 { AtLeastOne(-k, m); }
  }

  /** Shifting left until only the low bits are left, and back, as signed. */
  lemma ShiftBack(val: nat, m: nat, s: nat, h: nat)
    requires m > 0 && s > 0 && m * s == TWO64 && m == 2 * h
    ensures Signed((val * s) % TWO64) / s == SignExtended(val % m, m)
  {
    var q, r := val / m, val % m;
    assert val == q * m + r;
    ShiftedWord(val, q, r, m, s);
    HalfWord(h, s, r);
    if r >= h {
      assert (r - m) * s == r * s - m * s;
      ExactDivision(r - m, s);
    } else {
      ExactDivision(r, s);
    }
  }

  lemma ShiftedWord(val: nat, q: nat, r: nat, m: nat, s: nat)
    requires m > 0 && s > 0 && m * s == TWO64 && val == q * m + r && r < m
    ensures (val * s) % TWO64 == r * s
  {
    assert val * s == (q * m) * s + r * s;
    assert (q * m) * s == q * (m * s);
    assert r * s < m * s by { assert (m - r) * s > 0; }
    DivModUnique(val * s, TWO64, q, r * s);
  }

  lemma HalfWord(h: nat, s: nat, r: nat)
    requires s > 0 && 2 * h * s == TWO64
    ensures r * s >= TWO63 <==> r >= h
  {
    assert h * s == TWO63;
    if r >= h { assert (r - h) * s >= 0; } else { assert (h - r) * s > 0; }
  }

  lemma ExactDivision(x: int, s: nat)
    requires s > 0
    ensures (x * s) / s == x
  {
    var q := (x * s) / s;
    var d := x - q;
    assert d * s == x * s - q * s;
    if d >= 1 { AtLeastOne(d, s); }
  }

  /** integral_truncate_bits: `builtin` says that widths of C's own types are converted by casts. Either way the
      results are the residue, and the signed value congruent to it. */
  method TruncateBits(val: nat, bits: nat, builtin: bool) returns (truncated: nat, signed: int)
    requires val < TWO64 && 1 <= bits <= 64
    ensures truncated < Pow2(bits) && truncated == val % Pow2(bits)
    ensures -(Pow2(bits - 1) as int) <= signed < Pow2(bits - 1)
    ensures signed == SignExtended(truncated, Pow2(bits))
  {
    Pow64();
    PowersUpTo(bits);
    Pow2Sum(64 - bits, bits);
    Pow2Sum(bits, 64 - bits);
    var m := Pow2(bits);
    RemainderBelow(val, m);
    if builtin && bits in {8, 16, 32, 64} {
      truncated := val % m;
      signed := SignExtended(truncated, m);
    } else {
      LowBits(val, m);
      truncated := BitAnd(val, m - 1);
      var s := Pow2(64 - bits);
      ShiftBack(val, m, s, Pow2(bits - 1));
      signed := Signed((val * s) % TWO64) / s;
    }
  }

  lemma RemainderBelow(val: nat, m: nat)
    requires m > 0
    ensures 0 <= val % m < m
  {}

  lemma LowBits(val: nat, m: nat)
    requires PowerOfTwo(m)
    ensures BitAnd(val, m - 1) == val % m
  {
    AndHighOnes(val, 1, m);
  }

  /** Truncating again changes nothing. */
  lemma TruncateTwice(val: nat, bits: nat)
    ensures Pow2(bits) > 0 && (val % Pow2(bits)) % Pow2(bits) == val % Pow2(bits)
  {
    Pow2Sum(bits, 0);
    RemainderBelow(val, Pow2(bits));
    ModAtMost(val % Pow2(bits), Pow2(bits));
  }

  /** `v` is what is left of `whole` when the bits below `p` are dropped. */
  ghost predicate Drops(whole: nat, v: nat, p: nat) {
    v * p <= whole < (v + 1) * p
  }

  /** integral_high_bit: a negative number is first cut to the width of its type. */
  method HighBit(val: nat, bits: nat, signed: bool) returns (r: int)
    requires val < TWO64 && 1 <= bits <= 64
    ensures Pow2(bits) > 0
    ensures var v := if signed && Signed(val) < 0 then val % Pow2(bits) else val;
            if v == 0 then r == -1 else r >= 0 && Pow2(r) <= v < Pow2(r + 1)
  {
    Pow2Sum(bits, 0);
    var v := val;
    if signed && Signed(val) < 0 {
      var extended;
      v, extended := TruncateBits(val, bits, false);
    }
    ghost var whole, p := v, 1;
    assert Drops(whole, v, p);
    r := -1;
    while v > 0
      invariant r >= -1 && p == Pow2(r + 1)
      invariant Drops(whole, v, p)
      invariant r >= 0 ==> Pow2(r) <= whole
      invariant whole > 0 && v == 0 ==> r >= 0
    {
      HalveStep(whole, v, p);
      p := 2 * p;
      r := r + 1;
      v := v / 2;
    }
    HalveStep(whole, v, p);
  }

  lemma HalveStep(whole: nat, v: nat, p: nat)
    requires Drops(whole, v, p)
    ensures Drops(whole, v / 2, 2 * p) && (v > 0 ==> p <= whole) && (v == 0 ==> whole < p)
  {
    var h, b := v / 2, v % 2;
    assert v == 2 * h + b;
    assert h * (2 * p) == (2 * h) * p;
    assert (h + 1) * (2 * p) == (2 * h + 2) * p;
    assert v * p == (2 * h) * p + b * p;
    assert (2 * h + 2) * p == (v + 1) * p + (1 - b) * p;
    if v > 0 { AtLeastOne(v, p); }
  }
}

module ConstFold {
  import opened Common
  import opened Arithmetic
  import opened Truncation

  datatype Op = Multiply | Divide | Modulus | Plus | Minus | Xor | Or | And | OrSc | AndSc | ShiftL | ShiftR
              | Eq | Ne | Le | Lt | Ge | Gt | Not | BNot

  function Over(a: nat, b: nat): (q: nat)
    requires b > 0
    ensures q <= a
  {
    QuotientAtMost(a, b);
    a / b
  }

  function Left(a: nat, b: nat): (r: nat)
    requires b > 0
    ensures r <= a
  {
    ModAtMost(a, b);
    a % b
  }

  function Floor(a: int, b: nat): int
    requires b > 0
  {
    a / b
  }

  function Pow2Of(n: nat): (p: nat)
    ensures p == Pow2(n) > 0
  {
    Pow2Sum(n, 0);
    Pow2(n)
  }

  /** The operators that need a right operand. */
  predicate Binary(op: Op) {
    !(op.Plus? || op.Minus? || op.Not? || op.BNot?)
  }

  /** The switch of const_op_exec, in 64-bit words; nothing for division by zero. */
  function Raw(op: Op, l: nat, r: Option<nat>, signed: bool): Option<nat>
    requires l < TWO64 && (r.Some? ==> r.value < TWO64) && (Binary(op) ==> r.Some?)
  {
    var a, b := Signed(l), if r.Some? then Signed(r.value) else 0;
    match op
    case Multiply => Some(ToWord(a * b))
    case Divide => if r.value == 0 then None else Some(if signed then ToWord(Quotient(a, b)) else Over(l, r.value))
    case Modulus => if r.value == 0 then None else Some(if signed then ToWord(Remainder(a, b)) else Left(l, r.value))
    case Plus => Some(ToWord(l + if r.Some? then r.value else 0))
    case Minus => Some(if r.Some? then ToWord(l - r.value) else ToWord(0 - l))
    case Xor => Some(BitXor(l, r.value))
    case Or => Some(BitOr(l, r.value))
    case And => Some(BitAnd(l, r.value))
    case OrSc => Some(Truth(l != 0 || r.value != 0))
    case AndSc => Some(Truth(l != 0 && r.value != 0))
    case ShiftL => Some(ToWord(l * Pow2Of(r.value)))
    case ShiftR => Some(if signed then ToWord(Floor(a, Pow2Of(r.value))) else Over(l, Pow2Of(r.value)))
    case Eq => Some(Truth(l == r.value))
    case Ne => Some(Truth(l != r.value))
    case Le => Some(Truth(if signed then a <= b else l <= r.value))
    case Lt => Some(Truth(if signed then a < b else l < r.value))
    case Ge => Some(Truth(if signed then a >= b else l >= r.value))
    case Gt => Some(Truth(if signed then a > b else l > r.value))
    case Not => Some(Truth(l == 0))
    case BNot => Some(TWO64 - 1 - l)
  }

  /** op_increases */
  predicate Increases(op: Op) { op.Multiply? || op.Plus? || op.Or? || op.ShiftL? }

  /** The wrap-around applied to unsigned results, for a type of `m` values: one correction either way. */
  function Correct(op: Op, result: nat, m: nat): nat
    requires m > 0
  {
    var max := m - 1;
    if max == TWO64 - 1 || result <= max then result
    else if Increases(op) then ToWord(result - (max + 1))
    else ToWord(ToWord(result - (TWO64 - 1)) + max)
  }

  /** const_op_exec for an arithmetic type of `m` values. */
  function ConstOpExec(op: Op, l: nat, r: Option<nat>, signed: bool, m: nat): Option<nat>
    requires m > 0 && l < TWO64 && (r.Some? ==> r.value < TWO64) && (Binary(op) ==> r.Some?)
  {
    var raw := Raw(op, l, r, signed);
    if raw.None? || signed then raw else Some(Correct(op, raw.value, m))
  }

  // ---- What C says for unsigned types ------------------------------------------------------------------

  /** The mathematical result, before it is reduced to the type; nothing for division by zero. */
  function Exact(op: Op, l: nat, r: Option<nat>): Option<int>
    requires Binary(op) ==> r.Some?
  {
    var b := if r.Some? then r.value else 0;
    match op
    case Multiply => Some(l * b)
    case Divide => if b == 0 then None else Some(Over(l, b))
    case Modulus => if b == 0 then None else Some(Left(l, b))
    case Plus => Some(l + b)
    case Minus => Some((if r.Some? then l - b else 0 - l) as int)
    case Xor => Some(BitXor(l, b))
    case Or => Some(BitOr(l, b))
    case And => Some(BitAnd(l, b))
    case OrSc => Some(Truth(l != 0 || b != 0))
    case AndSc => Some(Truth(l != 0 && b != 0))
    case ShiftL => Some(l * Pow2Of(b))
    case ShiftR => Some(Over(l, Pow2Of(b)))
    case Eq => Some(Truth(l == b))
    case Ne => Some(Truth(l != b))
    case Le => Some(Truth(l <= b))
    case Lt => Some(Truth(l < b))
    case Ge => Some(Truth(l >= b))
    case Gt => Some(Truth(l > b))
    case Not => Some(Truth(l == 0))
    case BNot => Some(-1 - l)
  }

  lemma ModOf(x: int, m: nat, k: int, rest: nat)
    requires m > 0 && rest < m && x == k * m + rest
    ensures x % m == rest
  {
    assert x % m == x - (x / m) * m;
    OnlyOneInRange(x % m, rest, 0, m, k - x / m) by {
      assert (k - x / m) * m == k * m - (x / m) * m;
    }
  }

  lemma WordMod(x: int, m: nat)
    requires PowerOfTwo(m) && m <= TWO64
    ensures m > 0 && ToWord(x) % m == x % m
  {
    Pow64IsPower();
    SmallerPowerDivides(m, TWO64);
    var t := Times(TWO64, m);
    var q, w := Division(x, TWO64);
    var k, rest := Division(x, m);
    WordModBy(x, w, q, rest, k, t, m);
  }

  lemma Division(x: int, m: nat) returns (q: int, r: nat)
    requires m > 0
    ensures x == q * m + r && r == x % m < m
  {
    q, r := x / m, x % m;
  }

  lemma Times(n: nat, m: nat) returns (t: nat)
    requires m > 0 && n % m == 0
    ensures n == t * m
  {
    t := n / m;
  }

  lemma WordModBy(x: int, w: nat, q: int, rest: nat, k: int, t: nat, m: nat)
    requires m > 0 && rest < m && x == q * TWO64 + w && x == k * m + rest && TWO64 == t * m
    ensures w % m == rest
  {
    assert w == k * m + rest - q * (t * m);
    assert q * (t * m) == (q * t) * m;
    assert (k - q * t) * m == k * m - (q * t) * m;
    ModOf(w, m, k - q * t, rest);
  }

  /** The one correction of a result that increased is right exactly when the result is below twice the
      number of values. */
  lemma CorrectedUp(op: Op, result: nat, m: nat)
    requires PowerOfTwo(m) && m <= TWO64 && result < TWO64 && Increases(op)
    ensures m > 0 && (Correct(op, result, m) == result % m <==> m == TWO64 || result < 2 * m)
  {
    if result < m {
      ModAtMost(result, m);
    } else {
      CorrectedOnce(op, result, m);
      if result < 2 * m { ModOf(result, m, 1, result - m); } else { RemainderBelow(result, m); }
    }
  }

  lemma CorrectedOnce(op: Op, result: nat, m: nat)
    requires 0 < m <= result < TWO64 && Increases(op)
    ensures Correct(op, result, m) == result - m
  {}

  /** The correction of a result that fell below zero is right. */
  lemma CorrectedDown(op: Op, x: int, m: nat)
    requires PowerOfTwo(m) && m <= TWO64 && !Increases(op) && 0 <= x + m && x < m
    ensures m > 0 && Correct(op, ToWord(x), m) == x % m
  {
    if x >= 0 {
      ModOf(x, m, 0, x);
      CorrectUpwards(op, x, m);
    } else {
      ModOf(x, m, -1, x + m);
      if m < TWO64 { HalfAtMost(m); }
      CorrectBelow(op, x, m);
    }
  }

  lemma CorrectUpwards(op: Op, x: nat, m: nat)
    requires x < m <= TWO64
    ensures Correct(op, ToWord(x), m) == x
  {}

  lemma CorrectBelow(op: Op, x: int, m: nat)
    requires 0 < m <= TWO64 && (m < TWO64 ==> 2 * m <= TWO64) && !Increases(op) && 0 <= x + m && x < 0
    ensures Correct(op, ToWord(x), m) == x + m
  {
    if m < TWO64 { TwoSteps(x, m); }
  }

  /** Subtracting the largest word and adding the largest value, one after the other. */
  lemma TwoSteps(x: int, m: nat)
    requires 0 < m < TWO64 && 0 <= x + m && x < 0
    ensures ToWord(ToWord(x + 1) + (m - 1)) == x + m
  {}

  lemma HalfAtMost(m: nat)
    requires PowerOfTwo(m) && m < TWO64
    ensures 0 < m && 2 * m <= TWO64
  {
    Pow64IsPower();
    SmallerPowerDivides(m, TWO64);
    var t := Times(TWO64, m);
    if t >= 2 { assert (t - 2) * m >= 0; }
  }

  /** Operators whose results may pass the end of the type's range by more than once. */
  predicate Passes(op: Op) { op.Multiply? || op.ShiftL? }

  /** The product of words taken as signed has the word of the unsigned product. */
  lemma SignedProduct(a: nat, b: nat)
    requires a < TWO64 && b < TWO64
    ensures ToWord(Signed(a) * Signed(b)) == ToWord(a * b)
  {
    var i, j := if a >= TWO63 then 1 else 0, if b >= TWO63 then 1 else 0;
    var k := i * j * TWO64 - i * b - j * a;
    assert Signed(a) * Signed(b) == a * b + k * TWO64;
    ModOf(Signed(a) * Signed(b), TWO64, k + (a * b) / TWO64, ToWord(a * b));
  }

  /** Operands of an unsigned type of `m` values. */
  predicate Operands(op: Op, l: nat, r: Option<nat>, m: nat) {
    2 <= m <= TWO64 && l < m && (r.Some? ==> r.value < m) && (Binary(op) ==> r.Some?)
  }

  lemma FoldPassing(op: Op, l: nat, r: Option<nat>, m: nat)
    requires PowerOfTwo(m) && Operands(op, l, r, m) && Passes(op)
    ensures var exact := Exact(op, l, r).value;
            ConstOpExec(op, l, r, false, m).value == exact % m <==> m == TWO64 || ToWord(exact) < 2 * m
  {
    var exact := Exact(op, l, r).value;
    if op.Multiply? { SignedProduct(l, r.value); }
    WordMod(exact, m);
    CorrectedUp(op, ToWord(exact), m);
  }

  lemma FoldPlus(l: nat, r: Option<nat>, m: nat)
    requires PowerOfTwo(m) && Operands(Plus, l, r, m)
    ensures ConstOpExec(Plus, l, r, false, m).value == Exact(Plus, l, r).value % m
  {
    var exact := Exact(Plus, l, r).value;
    if m < TWO64 {
      HalfAtMost(m);
      ModOf(exact, TWO64, 0, exact);
    }
    WordMod(exact, m);
    CorrectedUp(Plus, ToWord(exact), m);
  }

  lemma FoldDown(op: Op, l: nat, r: Option<nat>, m: nat)
    requires PowerOfTwo(m) && Operands(op, l, r, m) && (op.Minus? || op.BNot?)
    ensures ConstOpExec(op, l, r, false, m).value == Exact(op, l, r).value % m
  {
    if op.BNot? { ModOf(-1 - l, TWO64, -1, TWO64 - 1 - l); }
    CorrectedDown(op, Exact(op, l, r).value, m);
  }

  lemma FoldSmall(op: Op, l: nat, r: Option<nat>, m: nat)
    requires PowerOfTwo(m) && Operands(op, l, r, m) && Exact(op, l, r).Some?
    requires !Passes(op) && !op.Plus? && !op.Minus? && !op.BNot?
    ensures ConstOpExec(op, l, r, false, m) == Some(Exact(op, l, r).value % m)
  {
    SmallResult(op, l, r, m);
    var exact := Exact(op, l, r).value;
    ModOf(exact, m, 0, exact);
  }

  lemma ErrorsAgree(op: Op, l: nat, r: Option<nat>, m: nat)
    requires Operands(op, l, r, m)
    ensures ConstOpExec(op, l, r, false, m).None? <==> Exact(op, l, r).None?
    ensures Exact(op, l, r).None? <==> (op.Divide? || op.Modulus?) && r == Some(0)
  {}

  /** Unsigned folding of a type of `m` values gives the mathematical result modulo `m`, for every operator
      but multiplication and left shift; for those exactly when the 64-bit result is below 2m. Division by
      zero is an error, and nothing else is. This is how the back end folds every operator, by the type of the
      left operand, and the front end all that do not return a truth value. */
  lemma UnsignedFolding(op: Op, l: nat, r: Option<nat>, m: nat)
    requires PowerOfTwo(m) && Operands(op, l, r, m)
    ensures ConstOpExec(op, l, r, false, m).None? <==> Exact(op, l, r).None?
    ensures Exact(op, l, r).Some? ==>
              (ConstOpExec(op, l, r, false, m).value == Exact(op, l, r).value % m
               <==> (Passes(op) && m < TWO64 ==> ToWord(Exact(op, l, r).value) < 2 * m))
  {
    ErrorsAgree(op, l, r, m);
    if Passes(op) { FoldPassing(op, l, r, m); }
    else if op.Plus? { FoldPlus(l, r, m); }
    else if op.Minus? || op.BNot? { FoldDown(op, l, r, m); }
    else if Exact(op, l, r).Some? { FoldSmall(op, l, r, m); }
  }

  /** The 32-bit `65536u * 131072u` folds to 2^32, which is no value of the type. */
  lemma ProductOutOfRange()
    ensures ConstOpExec(Multiply, 65536, Some(131072), false, TWO32) == Some(TWO32)
    ensures (65536 * 131072) % TWO32 == 0
  {}

  // ---- Truth values -------------------------------------------------------------------------------------

  /** The operators that order their operands, and those that return a truth value besides. */
  predicate Orders(op: Op) { op.Le? || op.Lt? || op.Ge? || op.Gt? }

  predicate ReturnsBool(op: Op) {
    Orders(op) || op.Eq? || op.Ne? || op.OrSc? || op.AndSc? || op.Not?
  }

  /** The front end folds operators that return a truth value by the type of the result, which is `int`. So
      unsigned operands are ordered as if they were signed: rightly exactly when both or neither are in the
      upper half of the 64-bit range. Other truth values are always right. */
  lemma FoldedAsInt(op: Op, l: nat, r: Option<nat>)
    requires ReturnsBool(op) && l < TWO64 && (r.Some? ==> r.value < TWO64) && (Binary(op) ==> r.Some?)
    ensures ConstOpExec(op, l, r, true, TWO32) == Some(Exact(op, l, r).value)
            <==> (Orders(op) ==> (l < TWO63 <==> r.value < TWO63))
  {}

  /** `18446744073709551615ULL < 1ULL` folds to 1. */
  lemma LargestBelowOne()
    ensures ConstOpExec(Lt, TWO64 - 1, Some(1), true, TWO32) == Some(1) && Exact(Lt, TWO64 - 1, Some(1)) == Some(0)
  {}

  /** Truth values are 1 and 0. */
  lemma TruthValues(l: nat, r: nat, m: nat)
    requires l < TWO64 && r < TWO64 && m >= 2
    ensures ConstOpExec(Eq, l, Some(r), false, m) == Some(if l == r then 1 else 0)
    ensures ConstOpExec(Ne, l, Some(r), false, m) == Some(if l == r then 0 else 1)
    ensures ConstOpExec(Lt, l, Some(r), false, m) == Some(if l < r then 1 else 0)
    ensures ConstOpExec(Ge, l, Some(r), false, m) == Some(if l < r then 0 else 1)
    ensures ConstOpExec(Gt, l, Some(r), false, m) == Some(if r < l then 1 else 0)
    ensures ConstOpExec(Le, l, Some(r), false, m) == Some(if r < l then 0 else 1)
    ensures ConstOpExec(AndSc, l, Some(r), false, m) == Some(if l == 0 || r == 0 then 0 else 1)
    ensures ConstOpExec(OrSc, l, Some(r), false, m) == Some(if l == 0 && r == 0 then 0 else 1)
    ensures ConstOpExec(Not, l, None, false, m) == Some(if l == 0 then 1 else 0)
  {}

  /** Unsigned quotient and remainder make up the dividend, and the remainder is smaller than the divisor. */
  lemma UnsignedDivision(l: nat, r: nat, m: nat)
    requires l < m <= TWO64 && 0 < r < m
    ensures var q, rest := ConstOpExec(Divide, l, Some(r), false, m), ConstOpExec(Modulus, l, Some(r), false, m);
            q.Some? && rest.Some? && l == q.value * r + rest.value && rest.value < r
  {
    QuotientAtMost(l, r);
    ModAtMost(l, r);
    var q, rest := l / r, l % r;
    assert l == q * r + rest;
  }

  /** A right shift divides by a power of two and rounds down, whatever the sign. */
  lemma RightShift(l: nat, n: nat, m: nat)
    requires l < m <= TWO64 && n < 64 && n < m
    ensures var p, q := Pow2(n), ConstOpExec(ShiftR, l, Some(n), false, m);
            q.Some? && q.value * p <= l < q.value * p + p
    ensures var p, q := Pow2(n), ConstOpExec(ShiftR, l, Some(n), true, m);
            q.Some? && Signed(q.value) * p <= Signed(l) < Signed(q.value) * p + p
  {
    var p: nat := Pow2Of(n);
    QuotientAtMost(l, p);
    RoundsDown(l, p);
    RoundsDown(Signed(l), p);
    SignedFolding(ShiftR, l, n, m);
    ShiftedDown(Signed(l), p);
  }

  lemma RoundsDown(a: int, p: nat)
    requires p > 0
    ensures (a / p) * p <= a < (a / p) * p + p
  {
    var q, r := a / p, a % p;
    assert a == q * p + r;
  }

  // ---- Signed types ---------------------------------------------------------------------------------------

  predicate InNumbers(op: Op) {
    op.Plus? || op.Minus? || op.Multiply? || op.Divide? || op.Modulus? || op.ShiftL? || op.ShiftR?
  }

  /** What signed operands give in mathematics; a right shift rounds down. */
  function ExactSigned(op: Op, a: int, b: int): int
    requires InNumbers(op) && (op.Divide? || op.Modulus? ==> b != 0) && (op.ShiftL? || op.ShiftR? ==> b >= 0)
  {
    match op
    case Plus => a + b
    case Minus => a - b
    case Multiply => a * b
    case Divide => Quotient(a, b)
    case Modulus => Remainder(a, b)
    case ShiftL => a * Pow2Of(b)
    case _ => Floor(a, Pow2Of(b))
  }

  /** Signed folding, which is not corrected, gives the mathematical result exactly when that has 64 bits. */
  lemma SignedFolding(op: Op, l: nat, r: nat, m: nat)
    requires InNumbers(op) && m > 0 && l < TWO64 && r < TWO64 && (op.Divide? || op.Modulus? ==> r != 0)
    requires op.ShiftL? || op.ShiftR? ==> r < 64
    ensures var exact := ExactSigned(op, Signed(l), Signed(r));
            Signed(ConstOpExec(op, l, Some(r), true, m).value) == exact <==> 0 <= exact + TWO63 < TWO64
  {
    var a, b := Signed(l), Signed(r);
    var exact := ExactSigned(op, a, b);
    SignedWord(exact);
    if op.Plus? {
      SameWord(l + r, exact, (if l >= TWO63 then 1 else 0) + (if r >= TWO63 then 1 else 0));
    } else if op.Minus? {
      SameWord(l - r, exact, (if l >= TWO63 then 1 else 0) - (if r >= TWO63 then 1 else 0));
    } else if op.ShiftL? {
      LeftShifted(l, Pow2Of(r));
    }
  }

  lemma LeftShifted(l: nat, power: nat)
    requires l < TWO64
    ensures ToWord(l * power) == ToWord(Signed(l) * power)
  {
    var k := if l >= TWO63 then 1 else 0;
    assert l * power == Signed(l) * power + (k * power) * TWO64;
    SameWord(l * power, Signed(l) * power, k * power);
  }

  lemma SameWord(x: int, y: int, k: int)
    requires x == y + k * TWO64
    ensures ToWord(x) == ToWord(y)
  {}

  /** The quotient is the one that goes towards zero: what is left has the sign of the dividend and is smaller
      than the divisor. Only the smallest number divided by -1 has no result. */
  lemma SignedDivision(l: nat, r: nat, m: nat)
    requires m > 0 && l < TWO64 && 0 < r < TWO64 && !(l == TWO63 && r == TWO64 - 1)
    ensures var a, b := Signed(l), Signed(r);
            var q := Signed(ConstOpExec(Divide, l, Some(r), true, m).value);
            var rest := Signed(ConstOpExec(Modulus, l, Some(r), true, m).value);
            a == q * b + rest && Abs(rest) < Abs(b) && (rest == 0 || (rest < 0 <==> a < 0))
  {
    var a, b := Signed(l), Signed(r);
    QuotientTowardsZero(a, b);
    QuotientInRange(a, b);
    SignedFolding(Divide, l, r, m);
    SignedFolding(Modulus, l, r, m);
  }

  lemma QuotientSize(a: int, b: int)
    requires b != 0 && 0 <= Abs(a) / Abs(b) && 0 <= Abs(a) % Abs(b)
    ensures Abs(Quotient(a, b)) == Abs(a) / Abs(b) && Abs(Remainder(a, b)) == Abs(a) % Abs(b)
  {}

  lemma QuotientBounds(a: int, b: int)
    requires b != 0
    ensures Abs(Quotient(a, b)) <= Abs(a) && Abs(Remainder(a, b)) <= Abs(a)
  {
    QuotientAtMost(Abs(a), Abs(b));
    ModAtMost(Abs(a), Abs(b));
    QuotientSize(a, b);
  }

  lemma QuotientHalved(a: int, b: int)
    requires Abs(b) >= 2
    ensures 2 * Abs(Quotient(a, b)) <= Abs(a)
  {
    var x: nat, y: nat := if a < 0 then -a else a, if b < 0 then -b else b;
    assert x == Abs(a) && y == Abs(b);
    HalvedSize(a, b, x, y);
  }

  lemma HalvedSize(a: int, b: int, x: nat, y: nat)
    requires x == Abs(a) && y == Abs(b) && y >= 2
    ensures 2 * Abs(Quotient(a, b)) <= x
  {
    QuotientAtMost(x, y);
    var q: int := x / y;
    assert 0 <= 2 * q <= x;
    assert Quotient(a, b) == q || Quotient(a, b) == 0 - q;
  }

  lemma QuotientByOne(a: int, b: int)
    requires b == 1 || b == -1
    ensures Quotient(a, b) == a * b
  {}

  lemma QuotientInRange(a: int, b: int)
    requires 0 <= a + TWO63 < TWO64 && b != 0 && (b == -1 ==> a + TWO63 > 0)
    ensures 0 <= Quotient(a, b) + TWO63 < TWO64 && 0 <= Remainder(a, b) + TWO63 < TWO64
  {
    QuotientTowardsZero(a, b);
    QuotientBounds(a, b);
    if Abs(b) >= 2 { QuotientHalved(a, b); } else { QuotientByOne(a, b); }
  }

  lemma SmallResult(op: Op, l: nat, r: Option<nat>, m: nat)
    requires PowerOfTwo(m) && 2 <= m <= TWO64 && l < m && (Binary(op) ==> r.Some?) && (r.Some? ==> r.value < m)
    requires !Passes(op) && !op.Plus? && !op.Minus? && !op.BNot? && Exact(op, l, r).Some?
    ensures 0 <= Exact(op, l, r).value < m && Raw(op, l, r, false) == Some(Exact(op, l, r).value)
  {
    if r.Some? { BitsBelow(l, r.value, m); }
  }
}
