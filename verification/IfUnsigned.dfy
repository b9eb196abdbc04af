/**
  What C says that `#if` expressions are worth, where unsigned numbers are of type `uintmax_t` (section 6.10.1 of
  ISO C11), against the evaluator, for which every number is a `long`.
*/
module IfConversions {
  import opened Common
  import opened Arithmetic
  import opened IfSyntax
  import opened IfMeaning

  // ---- What C says -----------------------------------------------------------------------------------

  /** The type of a number, `intmax_t` or `uintmax_t`, holds its value. */
  predicate InType(n: int, isUnsigned: bool) {
    if isUnsigned then 0 <= n < TWO64 else 0 <= n + TWO63 < TWO64
  }

  /** The operands of all but shifts and logical operators are converted to a common type. */
  predicate ActsUnsigned(op: Op, l: bool, r: bool) {
    if op.Shl? || op.Shr? then l else !op.AndSc? && !op.OrSc? && (l || r)
  }

  predicate Compares(op: Op) {
    op.Le? || op.Lt? || op.Ge? || op.Gt? || op.Eq? || op.Ne?
  }

  /** Whether an expression has an unsigned type, which does not depend on what is evaluated. */
  predicate Unsigned(e: Expr) {
    match e
    case Ident => false
    case Num(n) => n.isUnsigned
    case Un(op, e') => !op.Not? && Unsigned(e')
    case Bin(op, l, r) => !Compares(op) && ActsUnsigned(op, Unsigned(l), Unsigned(r))
    case Top(_, a, b) => Unsigned(a) || Unsigned(b)
  }

  /** Operators on unsigned operands. */
  function ApplyWords(op: Op, x: nat, y: nat): Option<int> {
    match op
    case Mul => Some(ToWord(x * y))
    case Div => if y == 0 then None else Some(x / y)
    case Mod => if y == 0 then None else Some(x % y)
    case Plus => Some(ToWord(x + y))
    case Minus => Some(ToWord(x - y))
    case Shl => Some(ToWord(x * Pow2(y % 64)))
    case Shr => PowersUpTo(y % 64); Some(x / Pow2(y % 64))
    case Le => Some(Truth(x <= y))
    case Lt => Some(Truth(x < y))
    case Ge => Some(Truth(x >= y))
    case Gt => Some(Truth(x > y))
    case Eq => Some(Truth(x == y))
    case Ne => Some(Truth(x != y))
    case And => Some(BitAnd(x, y))
    case Xor => Some(BitXor(x, y))
    case Or => Some(BitOr(x, y))
    case _ => None
  }

  function ApplyInC(op: Op, a: int, b: int, isUnsigned: bool): Option<int> {
    if isUnsigned then ApplyWords(op, ToWord(a), ToWord(b)) else Apply(op, a, b)
  }

  function PrefixInC(op: Op, n: int, isUnsigned: bool): Option<int> {
    if isUnsigned && op.Minus? then Some(ToWord(-n))
    else if isUnsigned && op.BNot? then Some(TWO64 - 1 - n)
    else ApplyPrefix(op, n)
  }

  /** The value of an expression in C, where operands that are not needed are not evaluated; nothing for division
      by zero and for numbers without a type. */
  function CValue(e: Expr): Option<int> {
    match e
    case Ident => Some(0)
    case Num(n) => if InType(n.value, n.isUnsigned) then Some(n.value) else None
    case Un(op, e') =>
      var v := CValue(e');
      if v.None? then None else PrefixInC(op, v.value, Unsigned(e'))
    case Bin(op, l, r) =>
      var a := CValue(l);
      if a.None? then None
      else if Decides(op, a.value) then Some(Truth(op.OrSc?))
      else
        var b := CValue(r);
        if b.None? then None else ApplyInC(op, a.value, b.value, ActsUnsigned(op, Unsigned(l), Unsigned(r)))
    case Top(c, a, b) =>
      var v := CValue(c);
      if v.None? then None
      else
        var x := if v.value != 0 then CValue(a) else CValue(b);
        if x.Some? && Unsigned(e) then Some(ToWord(x.value)) else x
  }

  /** A value as a `long`. */
  function Read(v: Option<int>): Option<int> {
    if v.None? then None else Some(Wrap(v.value))
  }

  // ---- One operator ------------------------------------------------------------------------------------

  /** The operands of an unsigned operator for which the signed one does as well. Only comparisons of order,
      division, remainder and right shift can differ, and only with an operand in the upper half. */
  predicate SignedDoes(op: Op, x: nat, y: nat) {
    match op
    case Le => x < TWO63 <==> y < TWO63
    case Lt => x < TWO63 <==> y < TWO63
    case Ge => x < TWO63 <==> y < TWO63
    case Gt => x < TWO63 <==> y < TWO63
    case Div => y == 0 || x == y || y == 1 || (x < TWO63 && x + y < TWO64)
    case Mod => y == 0 || x == y || (x < TWO63 && x + y < TWO64) || (y < TWO63 && x % y == 0 && TWO64 % y == 0)
    case Shr => x < TWO63 || y % 64 == 0
    case _ => true
  }

  lemma WordOf(n: int, m: int, k: int)
    requires n == m + k * TWO64
    ensures ToWord(n) == ToWord(m) && Wrap(n) == Wrap(m)
  {}

  /** Sums, differences, products and left shifts are the same but for multiples of 2^64. */
  lemma SameSum(x: nat, y: nat)
    requires x < TWO64 && y < TWO64
    ensures Wrap(Signed(x) + Signed(y)) == Wrap(x + y) && Wrap(Signed(x) - Signed(y)) == Wrap(x - y)
  {
    var k, l := if x < TWO63 then 0 else -1, if y < TWO63 then 0 else -1;
    WordOf(Signed(x) + Signed(y), x + y, k + l);
    WordOf(Signed(x) - Signed(y), x - y, k - l);
  }

  lemma SameProduct(x: nat, y: nat)
    requires x < TWO64 && y < TWO64
    ensures Wrap(Signed(x) * Signed(y)) == Wrap(x * y)
  {
    var k, l := if x < TWO63 then 0 else -1, if y < TWO63 then 0 else -1;
    var a, b := x + k * TWO64, y + l * TWO64;
    assert a * b == x * y + (x * l + k * y + k * l * TWO64) * TWO64;
    WordOf(a * b, x * y, x * l + k * y + k * l * TWO64);
  }

  lemma SameShift(x: nat, power: nat)
    requires x < TWO64
    ensures Wrap(Signed(x) * power) == Wrap(x * power)
  {
    var k := if x < TWO63 then 0 else -1;
    assert Signed(x) * power == x * power + (k * power) * TWO64;
    WordOf(Signed(x) * power, x * power, k * power);
  }

  lemma WrapWord(n: int)
    ensures Wrap(ToWord(n)) == Wrap(n)
  {}

  lemma SameBits(x: nat, y: nat)
    requires x < TWO64 && y < TWO64
    ensures BitAnd(x, y) < TWO64 && BitXor(x, y) < TWO64 && BitOr(x, y) < TWO64
  {
    Pow64IsPower();
    BitsBelow(x, y, TWO64);
  }

  /** A word shifted right, as signed and as it is. */
  lemma ShiftedRight(x: nat, power: nat)
    requires x < TWO64 && power >= 1
    ensures x / power < TWO64
    ensures Signed(x) / power == Wrap(x / power) <==> x < TWO63 || power == 1
  {
    if x >= TWO63 && power > 1 { UpperShifted(x, power); }
  }

  lemma UpperShifted(x: nat, power: nat)
    requires TWO63 <= x < TWO64 && power > 1
    ensures x / power < TWO63 && (x - TWO64) / power < 0
  {}

  // Division: by the halves in which the operands lie.

  lemma LowerDivided(x: nat, y: nat)
    requires x < TWO63 && 0 < y < TWO63
    ensures Quotient(Signed(x), Signed(y)) == x / y < TWO63 && Remainder(Signed(x), Signed(y)) == x % y < TWO63
  {
    QuotientAtMost(x, y);
  }

  lemma UpperDivided(x: nat, y: nat)
    requires TWO63 <= x < TWO64 && 0 < y < TWO63
    ensures Quotient(Signed(x), Signed(y)) == -((TWO64 - x) / y)
    ensures Remainder(Signed(x), Signed(y)) == -((TWO64 - x) % y)
  {}

  /** The one quotient is positive, the other is not. */
  lemma UpperQuotient(x: nat, y: nat)
    requires TWO63 <= x < TWO64 && 0 < y < TWO63
    ensures x / y < TWO64 && (Wrap(-((TWO64 - x) / y)) == Wrap(x / y) <==> y == 1)
  {
    QuotientAtMost(x, y);
    QuotientAtMost(TWO64 - x, y);
    OppositeSigns(x / y, (TWO64 - x) / y, y);
    if y == 1 { WordOf(-(TWO64 - x), x, -1); }
  }

  lemma OppositeSigns(q: int, p: int, y: nat)
    requires y >= 2 ==> 0 < q < TWO63 && 0 <= p <= TWO63
    ensures y >= 2 ==> Wrap(-p) != Wrap(q)
  {
    if y >= 2 {
      WrapKept(-p);
      WrapKept(q);
    }
  }

  /** Both remainders are zero, or they differ. */
  lemma UpperRest(x: nat, y: nat)
    requires TWO63 <= x < TWO64 && 0 < y < TWO63
    ensures Wrap(-((TWO64 - x) % y)) == Wrap(x % y) <==> x % y == 0 && TWO64 % y == 0
  {
    var other: nat := TWO64 - x;
    OppositeRests(x % y, other % y, y);
    if x % y == 0 {
      AddMultiple(other, x, y);
      assert other + x == TWO64;
    }
  }

  lemma OppositeRests(r: int, p: int, y: nat)
    requires 0 <= r < y && 0 <= p < y < TWO63
    ensures Wrap(-p) == Wrap(r) <==> r == 0 && p == 0
  {
    WrapKept(-p);
    WrapKept(r);
  }

  lemma WrapKept(n: int)
    requires 0 <= n + TWO63 < TWO64
    ensures Wrap(n) == n
  {}

  lemma ByUpper(x: nat, y: nat)
    requires x < TWO63 <= y < TWO64
    ensures Quotient(Signed(x), Signed(y)) == -(x / (TWO64 - y))
    ensures Remainder(Signed(x), Signed(y)) == x % (TWO64 - y)
  {}

  lemma ByUpperAgree(x: nat, y: nat)
    requires x < TWO63 <= y < TWO64
    ensures x / y == 0 && x % y == x
    ensures Wrap(-(x / (TWO64 - y))) == 0 <==> x + y < TWO64
    ensures Wrap(x % (TWO64 - y)) == x <==> x + y < TWO64
  {
    QuotientAtMost(x, y);
    var b: nat := TWO64 - y;
    QuotientAtMost(x, b);
    NegatedKept(x / b, x % b);
  }

  lemma NegatedKept(q: int, r: int)
    requires 0 <= q < TWO63 && 0 <= r < TWO63
    ensures Wrap(-q) == -q && Wrap(r) == r
  {
    WrapKept(-q);
    WrapKept(r);
  }

  lemma BothUpper(x: nat, y: nat)
    requires TWO63 <= x < TWO64 && TWO63 <= y < TWO64
    ensures Quotient(Signed(x), Signed(y)) == (TWO64 - x) / (TWO64 - y)
    ensures Remainder(Signed(x), Signed(y)) == -((TWO64 - x) % (TWO64 - y))
    ensures x / y == (if x >= y then 1 else 0) && x % y == if x >= y then x - y else x
  {
    if x >= y { DivModUnique(x, y, 1, x - y); } else { DivModUnique(x, y, 0, x); }
  }

  lemma BothUpperAgree(x: nat, y: nat)
    requires TWO63 <= x < TWO64 && TWO63 <= y < TWO64
    ensures Wrap((TWO64 - x) / (TWO64 - y)) == Wrap(if x >= y then 1 else 0) <==> x == y
    ensures Wrap(-((TWO64 - x) % (TWO64 - y))) == Wrap(if x >= y then x - y else x) <==> x == y
  {
    var a: nat, b: nat := TWO64 - x, TWO64 - y;
    QuotientAtMost(a, b);
    if x == y { DivModUnique(a, b, 1, 0); }
    if a >= b { assert a / b >= 1; }
    NegatedAgree(a, b, a / b, a % b);
    WordOf(x, x - TWO64, 1);
  }

  /** Of two negated numbers `q` is the quotient and `r` the remainder. */
  lemma NegatedAgree(a: int, b: int, q: int, r: int)
    requires 0 < a <= TWO63 && 0 < b <= TWO63 && 0 <= q <= a && 0 <= r < b && (a == b ==> q == 1 && r == 0)
    requires if a < b then q == 0 && r == a else q >= 1
    ensures Wrap(q) == Wrap(if a <= b then 1 else 0) <==> a == b
    ensures Wrap(-r) == Wrap(if a <= b then b - a else -a) <==> a == b
  {
    if q < TWO63 { WrapKept(q); }
    WrapKept(-r);
    WrapKept(if a <= b then b - a else -a);
  }

  lemma DividedWords(x: nat, y: nat)
    requires x < TWO64 && 0 < y < TWO64
    ensures Wrap(Quotient(Signed(x), Signed(y))) == Wrap(x / y) <==> SignedDoes(Div, x, y)
    ensures Wrap(Remainder(Signed(x), Signed(y))) == Wrap(x % y) <==> SignedDoes(Mod, x, y)
  {
    if y < TWO63 { DividedByLower(x, y); } else { DividedByUpper(x, y); }
  }

  lemma DividedByLower(x: nat, y: nat)
    requires x < TWO64 && 0 < y < TWO63
    ensures Wrap(Quotient(Signed(x), Signed(y))) == Wrap(x / y) <==> SignedDoes(Div, x, y)
    ensures Wrap(Remainder(Signed(x), Signed(y))) == Wrap(x % y) <==> SignedDoes(Mod, x, y)
  {
    if x < TWO63 {
      LowerDivided(x, y);
    } else {
      UpperDivided(x, y);
      UpperQuotient(x, y);
      UpperRest(x, y);
    }
  }

  lemma DividedByUpper(x: nat, y: nat)
    requires x < TWO64 && TWO63 <= y < TWO64
    ensures Wrap(Quotient(Signed(x), Signed(y))) == Wrap(x / y) <==> SignedDoes(Div, x, y)
    ensures Wrap(Remainder(Signed(x), Signed(y))) == Wrap(x % y) <==> SignedDoes(Mod, x, y)
  {
    if x < TWO63 { LowerByUpper(x, y); } else { UpperByUpper(x, y); }
  }

  lemma LowerByUpper(x: nat, y: nat)
    requires x < TWO63 <= y < TWO64
    ensures Wrap(Quotient(Signed(x), Signed(y))) == Wrap(x / y) <==> SignedDoes(Div, x, y)
    ensures Wrap(Remainder(Signed(x), Signed(y))) == Wrap(x % y) <==> SignedDoes(Mod, x, y)
  {
    ByUpper(x, y);
    ByUpperAgree(x, y);
    WrapKept(0);
    WrapKept(x);
  }

  lemma UpperByUpper(x: nat, y: nat)
    requires TWO63 <= x < TWO64 && TWO63 <= y < TWO64
    ensures Wrap(Quotient(Signed(x), Signed(y))) == Wrap(x / y) <==> SignedDoes(Div, x, y)
    ensures Wrap(Remainder(Signed(x), Signed(y))) == Wrap(x % y) <==> SignedDoes(Mod, x, y)
  {
    BothUpper(x, y);
    BothUpperAgree(x, y);
    assert SignedDoes(Div, x, y) == (x == y) && SignedDoes(Mod, x, y) == (x == y);
  }

  // ---- Operators on words -------------------------------------------------------------------------------

  /** What the evaluator makes of two words is what C makes of them. */
  ghost predicate SameOnWords(op: Op, x: nat, y: nat) {
    Apply(op, Signed(x), Signed(y)) == Read(ApplyWords(op, x, y)) <==> SignedDoes(op, x, y)
  }

  lemma WordsAdded(op: Op, x: nat, y: nat)
    requires x < TWO64 && y < TWO64 && (op.Plus? || op.Minus? || op.Mul?)
    ensures SameOnWords(op, x, y)
  {
    SameSum(x, y);
    SameProduct(x, y);
    WrapWord(if op.Plus? then x + y else if op.Minus? then x - y else x * y);
  }

  lemma ShiftCount(y: nat)
    requires y < TWO64
    ensures Signed(y) % 64 == y % 64 && Pow2(y % 64) >= 1 && (Pow2(y % 64) == 1 <==> y % 64 == 0)
  {
    PowersUpTo(y % 64);
    if y % 64 > 0 { PowersUpTo(y % 64 - 1); }
  }

  lemma WordsShifted(op: Op, x: nat, y: nat)
    requires x < TWO64 && y < TWO64 && (op.Shl? || op.Shr?)
    ensures SameOnWords(op, x, y)
  {
    ShiftCount(y);
    var power := Pow2(y % 64);
    SameShift(x, power);
    WrapWord(x * power);
    ShiftedRight(x, power);
  }

  lemma WordsDivided(op: Op, x: nat, y: nat)
    requires x < TWO64 && y < TWO64 && (op.Div? || op.Mod?)
    ensures SameOnWords(op, x, y)
  {
    if y > 0 { DividedWords(x, y); }
  }

  lemma WordsCompared(op: Op, x: nat, y: nat)
    requires x < TWO64 && y < TWO64 && Compares(op)
    ensures SameOnWords(op, x, y)
  {
    WrapKept(0);
    WrapKept(1);
  }

  lemma WordsMasked(op: Op, x: nat, y: nat)
    requires x < TWO64 && y < TWO64 && (op.And? || op.Or? || op.Xor?)
    ensures SameOnWords(op, x, y)
  {
    SameBits(x, y);
    WordKept(x);
    WordKept(y);
    var v := if op.And? then BitAnd(x, y) else if op.Or? then BitOr(x, y) else BitXor(x, y);
    WordKept(v);
    assert Apply(op, Signed(x), Signed(y)) == Some(Signed(v)) && ApplyWords(op, x, y) == Some(v);
  }

  lemma WordKept(x: nat)
    requires x < TWO64
    ensures ToWord(Signed(x)) == x == ToWord(x)
  {}

  lemma OnWords(op: Op, x: nat, y: nat)
    requires x < TWO64 && y < TWO64 && !op.AndSc? && !op.OrSc?
    ensures SameOnWords(op, x, y)
  {
    if op.Plus? || op.Minus? || op.Mul? { WordsAdded(op, x, y); }
    else if op.Shl? || op.Shr? { WordsShifted(op, x, y); }
    else if op.Div? || op.Mod? { WordsDivided(op, x, y); }
    else if Compares(op) { WordsCompared(op, x, y); }
    else if op.And? || op.Or? || op.Xor? { WordsMasked(op, x, y); }
  }

  // ---- Operators on values -------------------------------------------------------------------------------

  /** Results are of the type of the operator. */
  lemma ResultInType(op: Op, a: int, b: int, isUnsigned: bool)
    requires op.Shr? && !isUnsigned ==> InType(a, false)
    ensures var r := ApplyInC(op, a, b, isUnsigned); r.Some? ==> InType(r.value, isUnsigned && !Compares(op))
  {
    if isUnsigned { WordResult(op, ToWord(a), ToWord(b)); } else { LongResult(op, a, b); }
  }

  lemma WordResult(op: Op, x: nat, y: nat)
    requires x < TWO64 && y < TWO64
    ensures var r := ApplyWords(op, x, y); r.Some? ==> InType(r.value, !Compares(op))
  {
    if op.Div? || op.Mod? {
      if y > 0 { QuotientInType(x, y); }
    } else if op.Shr? {
      ShiftCount(y);
      QuotientInType(x, Pow2(y % 64));
    } else if op.And? || op.Or? || op.Xor? {
      SameBits(x, y);
    } else if op.Plus? || op.Minus? || op.Mul? || op.Shl? || Compares(op) {
      SmallResult(op, x, y);
    }
  }

  lemma QuotientInType(x: nat, y: nat)
    requires x < TWO64 && y > 0
    ensures InType(x / y, true) && InType(x % y, true)
  {
    QuotientAtMost(x, y);
    ModAtMost(x, y);
  }

  lemma SmallResult(op: Op, x: nat, y: nat)
    requires Compares(op) || op.Plus? || op.Minus? || op.Mul? || op.Shl?
    ensures var r := ApplyWords(op, x, y); r.Some? && InType(r.value, !Compares(op))
  {}

  lemma LongResult(op: Op, a: int, b: int)
    requires op.Shr? ==> InType(a, false)
    ensures var r := Apply(op, a, b); r.Some? ==> InType(r.value, false)
  {
    if op.Shr? {
      PowersUpTo(b % 64);
      ShiftedDown(a, Pow2(b % 64));
    } else if op.And? || op.Or? || op.Xor? {
      SameBits(ToWord(a), ToWord(b));
    }
  }

  /** One operator: the evaluator is right exactly where signed operands do as well. */
  lemma OperatorRight(op: Op, a: int, b: int, l: bool, r: bool)
    requires InType(a, l) && InType(b, r)
    ensures Apply(op, Wrap(a), Wrap(b)) == Read(ApplyInC(op, a, b, ActsUnsigned(op, l, r))) <==>
            (ActsUnsigned(op, l, r) ==> SignedDoes(op, ToWord(a), ToWord(b)))
  {
    if ActsUnsigned(op, l, r) {
      OnWords(op, ToWord(a), ToWord(b));
    } else if op.AndSc? || op.OrSc? {
      LogicalRight(op, a, b, l, r);
    } else {
      WrapKept(a);
      LongResult(op, a, b);
      if op.Shl? || op.Shr? { SameCount(op, a, b); } else { WrapKept(b); }
      KeptRead(Apply(op, a, b));
    }
  }

  lemma KeptRead(v: Option<int>)
    requires v.Some? ==> InType(v.value, false)
    ensures Read(v) == v
  {
    if v.Some? { WrapKept(v.value); }
  }

  lemma LogicalRight(op: Op, a: int, b: int, l: bool, r: bool)
    requires InType(a, l) && InType(b, r) && (op.AndSc? || op.OrSc?)
    ensures var v := Apply(op, a, b); v.Some? && Apply(op, Wrap(a), Wrap(b)) == v == Read(v)
  {
    ZeroKept(a, l);
    ZeroKept(b, r);
    KeptRead(Apply(op, a, b));
  }

  lemma SameCount(op: Op, a: int, b: int)
    requires op.Shl? || op.Shr?
    ensures Apply(op, a, Wrap(b)) == Apply(op, a, b)
  {
    assert Wrap(b) % 64 == b % 64;
  }

  lemma ZeroKept(n: int, isUnsigned: bool)
    requires InType(n, isUnsigned)
    ensures Wrap(n) == 0 <==> n == 0
  {}

  lemma PrefixRight(op: Op, n: int, isUnsigned: bool)
    requires InType(n, isUnsigned)
    ensures ApplyPrefix(op, Wrap(n)) == Read(PrefixInC(op, n, isUnsigned))
    ensures var r := PrefixInC(op, n, isUnsigned); r.Some? ==> InType(r.value, !op.Not? && isUnsigned)
  {
    if op.Minus? {
      Negated(n);
      WrapWord(-n);
    } else if op.Not? {
      ZeroKept(n, isUnsigned);
      KeptRead(ApplyPrefix(op, n));
    } else if op.BNot? {
      Complement(n, isUnsigned);
    }
  }

  lemma Negated(n: int)
    ensures Wrap(-Wrap(n)) == Wrap(-n) && Wrap(Wrap(-n)) == Wrap(-n)
  {
    WrapKept(Wrap(-n));
    WordOf(-Wrap(n), -n, (n - Wrap(n)) / TWO64);
  }

  lemma Complement(n: int, isUnsigned: bool)
    requires InType(n, isUnsigned)
    ensures Wrap(if isUnsigned then TWO64 - 1 - n else -n - 1) == -Wrap(n) - 1
  {}

  // ---- Whole expressions -----------------------------------------------------------------------------------

  lemma {:induction false} ValueInType(e: Expr)
    ensures CValue(e).Some? ==> InType(CValue(e).value, Unsigned(e))
  {
    match e
    case Ident =>
    case Num(_) =>
    case Un(op, e') =>
      ValueInType(e');
      if CValue(e').Some? { PrefixRight(op, CValue(e').value, Unsigned(e')); }
    case Bin(op, l, r) =>
      ValueInType(l);
      if CValue(l).Some? && CValue(r).Some? {
        ResultInType(op, CValue(l).value, CValue(r).value, ActsUnsigned(op, Unsigned(l), Unsigned(r)));
      }
    case Top(_, a, b) =>
      ValueInType(a);
      ValueInType(b);
  }

  /** The operands of the operator are such that signed arithmetic does. */
  predicate OperandsDo(op: Op, l: Expr, r: Expr) {
    CValue(l).Some? && CValue(r).Some? && ActsUnsigned(op, Unsigned(l), Unsigned(r)) ==>
      SignedDoes(op, ToWord(CValue(l).value), ToWord(CValue(r).value))
  }

  /** Every number that C evaluates is below 2^63, and every unsigned operator has operands for which signed
      arithmetic does. */
  predicate Tame(e: Expr) {
    match e
    case Ident => true
    case Num(n) => InType(n.value, n.isUnsigned) && n.value < TWO63
    case Un(_, e') => Tame(e')
    case Bin(op, l, r) =>
      Tame(l) && (CValue(l).Some? && !Decides(op, CValue(l).value) ==> Tame(r) && OperandsDo(op, l, r))
    case Top(c, a, b) =>
      Tame(c) && (CValue(c).Some? ==> if CValue(c).value != 0 then Tame(a) else Tame(b))
  }

  /** In the arithmetic of `long`, `e` is worth what it is in C. */
  predicate Right(e: Expr) {
    LongValue(e) == Read(CValue(e))
  }

  /** So is every part of it that C evaluates. */
  predicate RightThroughout(e: Expr) {
    && Right(e)
    && match e
       case Ident => true
       case Num(_) => true
       case Un(_, e') => RightThroughout(e')
       case Bin(op, l, r) =>
         RightThroughout(l) && (CValue(l).Some? && !Decides(op, CValue(l).value) ==> RightThroughout(r))
       case Top(c, a, b) =>
         && RightThroughout(c)
         && (CValue(c).Some? ==> if CValue(c).value != 0 then RightThroughout(a) else RightThroughout(b))
  }

  lemma NumberRight(n: Number)
    ensures Right(Num(n)) <==> InType(n.value, n.isUnsigned) && n.value < TWO63
  {
    if InType(n.value, n.isUnsigned) {
      if n.value < TWO63 { WrapKept(n.value); } else { WordOf(n.value, n.value - TWO64, 1); }
    }
  }

  lemma PrefixedRight(op: Op, e: Expr)
    requires Right(e)
    ensures Right(Un(op, e))
  {
    ValueInType(e);
    if CValue(e).Some? { PrefixRight(op, CValue(e).value, Unsigned(e)); }
  }

  /** An operator whose operands are right is right exactly under the condition on them. */
  lemma BinaryRight(op: Op, l: Expr, r: Expr)
    requires Right(l)
    requires CValue(l).Some? && !Decides(op, CValue(l).value) ==> Right(r)
    ensures Right(Bin(op, l, r)) <==>
            (CValue(l).Some? && !Decides(op, CValue(l).value) ==> OperandsDo(op, l, r))
  {
    ValueInType(l);
    if CValue(l).Some? {
      ZeroKept(CValue(l).value, Unsigned(l));
      if Decides(op, CValue(l).value) { DecidedRight(op, l, r); } else { OperandsRight(op, l, r); }
    }
  }

  lemma DecidedRight(op: Op, l: Expr, r: Expr)
    requires CValue(l).Some? && LongValue(l).Some? && Decides(op, CValue(l).value) && Decides(op, LongValue(l).value)
    ensures Right(Bin(op, l, r))
  {
    WrapKept(0);
    WrapKept(1);
  }

  lemma OperandsRight(op: Op, l: Expr, r: Expr)
    requires CValue(l).Some? && Right(l) && Right(r)
    requires !Decides(op, CValue(l).value) && !Decides(op, LongValue(l).value)
    ensures Right(Bin(op, l, r)) <==> OperandsDo(op, l, r)
  {
    ValueInType(l);
    ValueInType(r);
    if CValue(r).Some? { OperatorRight(op, CValue(l).value, CValue(r).value, Unsigned(l), Unsigned(r)); }
  }

  lemma ConditionalRight(c: Expr, a: Expr, b: Expr)
    requires Right(c) && (CValue(c).Some? ==> if CValue(c).value != 0 then Right(a) else Right(b))
    ensures Right(Top(c, a, b))
  {
    ValueInType(c);
    if CValue(c).Some? {
      ZeroKept(CValue(c).value, Unsigned(c));
      var x := if CValue(c).value != 0 then CValue(a) else CValue(b);
      if x.Some? { WrapWord(x.value); }
    }
  }

  /** Every part that C evaluates is right exactly under that condition. */
  lemma {:induction false} RightIffTame(e: Expr)
    ensures RightThroughout(e) <==> Tame(e)
  {
    match e
    case Ident => WrapKept(0);
    case Num(n) => NumberRight(n);
    case Un(op, e') =>
      RightIffTame(e');
      if RightThroughout(e') { PrefixedRight(op, e'); }
    case Bin(op, l, r) =>
      RightIffTame(l);
      RightIffTame(r);
      if RightThroughout(l) && (CValue(l).Some? && !Decides(op, CValue(l).value) ==> RightThroughout(r)) {
        BinaryRight(op, l, r);
      }
    case Top(c, a, b) =>
      RightIffTame(c);
      RightIffTame(a);
      RightIffTame(b);
      if RightThroughout(c) && (CValue(c).Some? ==>
            if CValue(c).value != 0 then RightThroughout(a) else RightThroughout(b))
      {
        ConditionalRight(c, a, b);
      }
  }

  /** Under that condition the evaluator never yields another value than C: either C's, as a `long`, or it dies.
      Where C has a value, it yields that exactly when nothing that C skips is revived. */
  lemma EvalMeetsC(e: Expr)
    requires Tame(e)
    ensures Eval(e, false).Some? ==> Eval(e, false) == Read(CValue(e))
    ensures CValue(e).Some? ==> (Eval(e, false) == Read(CValue(e)) <==> !Revived(e))
    ensures CValue(e).None? ==> Eval(e, false).None?
    ensures Eval(e, false).Some? ==> CValue(e).Some? && (Eval(e, false).value != 0 <==> CValue(e).value != 0)
  {
    RightIffTame(e);
    EvalMeetsLong(e);
    ValueInType(e);
    if CValue(e).Some? { ZeroKept(CValue(e).value, Unsigned(e)); }
  }

  /** Without a zero divisor anywhere in the tree, skipped or not, the value is that of C. */
  lemma WithoutZeroDivisors(e: Expr)
    requires Tame(e) && NoZeroDivisor(e)
    ensures Eval(e, false).Some? && Eval(e, false) == Read(CValue(e))
  {
    NothingRevived(e);
    EvalMeetsLong(e);
    EvalMeetsC(e);
  }

  /** All numbers are signed, and have a type. */
  predicate AllSigned(e: Expr) {
    match e
    case Ident => true
    case Num(n) => !n.isUnsigned && InType(n.value, false)
    case Un(_, e') => AllSigned(e')
    case Bin(_, l, r) => AllSigned(l) && AllSigned(r)
    case Top(c, a, b) => AllSigned(c) && AllSigned(a) && AllSigned(b)
  }

  /** Then the condition holds, and the value in C is itself a `long`. */
  lemma SignedIsTame(e: Expr)
    requires AllSigned(e)
    ensures Tame(e) && Read(CValue(e)) == CValue(e)
  {
    SignedInside(e);
    ValueInType(e);
    KeptRead(CValue(e));
  }

  lemma {:induction false} SignedInside(e: Expr)
    requires AllSigned(e)
    ensures Tame(e) && !Unsigned(e)
  {
    match e
    case Ident =>
    case Num(_) =>
    case Un(_, e') => SignedInside(e');
    case Bin(_, l, r) => SignedInside(l); SignedInside(r);
    case Top(c, a, b) => SignedInside(c); SignedInside(a); SignedInside(b);
  }

  /** `-1 < 0U` is 0 in C, where -1 becomes the largest unsigned number, and 1 here. */
  lemma NegativeBelowUnsigned()
    ensures var e := Bin(Lt, Un(Minus, Num(Number(1, false))), Num(Number(0, true)));
            NoZeroDivisor(e) && CValue(e) == Some(0) && Eval(e, false) == Some(1)
  {
    var minusOne := Un(Minus, Num(Number(1, false)));
    assert CValue(minusOne) == Some(-1) && Eval(minusOne, false) == Some(-1) == LongValue(minusOne);
  }

  /** `18446744073709551615U == 9223372036854775807` is 0 in C, and 1 here, where reading stops at the largest
      `long`. */
  lemma LargestNumberIsCut()
    ensures var e := Bin(Eq, Num(Number(TWO64 - 1, true)), Num(Number(TWO63 - 1, false)));
            CValue(e) == Some(0) && Eval(e, false) == Some(1)
  {}
}
