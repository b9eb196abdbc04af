/**
  Which tokens are operators of `#if`, how tightly they bind and what they yield, as lists and cases (src/cpp2/expr.c),
  said without the tables that the parser, the evaluator and their meaning share.
*/
module IfTables {
  import opened Common
  import opened Arithmetic
  import opened IfSyntax
  import opened IfGrammar
  import opened IfMeaning

  /** The priorities that expr_init sets, tightest first. */
  const ROWS: seq<seq<Op>> :=
    [[Mul, Div, Mod], [Plus, Minus], [Shl, Shr], [Le, Lt, Ge, Gt], [Eq, Ne], [And], [Xor], [Or], [AndSc], [OrSc]]

  predicate InRow(op: Op, i: nat) {
    i < |ROWS| && op in ROWS[i]
  }

  lemma RowPri(op: Op, i: nat)
    requires InRow(op, i)
    ensures Pri(op) == i + 1 < Pri(Question) && !op.Question?
  {}

  // ---- Texts ---------------------------------------------------------------------------------------------

  /** `w` is written as the tokens `t`. */
  ghost predicate Spells(w: Written, t: seq<Token>) {
    forall rest :: Emit(w, rest) == t + rest
  }

  lemma NumSpells(a: Number)
    ensures Spells(WNum(a), [TNum(a)]) && Primary(WNum(a)) && Grouped(WNum(a), MAX_PRI)
  {}

  lemma UnSpells(op: Op, w: Written, t: seq<Token>)
    requires Spells(w, t)
    ensures Spells(WUn(op, w), [TOp(op)] + t)
  {
    forall rest ensures Emit(WUn(op, w), rest) == [TOp(op)] + t + rest {
      assert [TOp(op)] + (t + rest) == [TOp(op)] + t + rest;
    }
  }

  lemma BinSpells(op: Op, l: Written, r: Written, tl: seq<Token>, tr: seq<Token>)
    requires Spells(l, tl) && Spells(r, tr)
    ensures Spells(WBin(op, l, r), tl + [TOp(op)] + tr)
  {
    forall rest ensures Emit(WBin(op, l, r), rest) == tl + [TOp(op)] + tr + rest {
      Joined(tl, TOp(op), tr, rest);
    }
  }

  lemma TopSpells(c: Written, a: Written, b: Written, tc: seq<Token>, ta: seq<Token>, tb: seq<Token>)
    requires Spells(c, tc) && Spells(a, ta) && Spells(b, tb)
    ensures Spells(WTop(c, a, b), tc + [TOp(Question)] + (ta + [TColon] + tb))
  {
    forall rest ensures Emit(WTop(c, a, b), rest) == tc + [TOp(Question)] + (ta + [TColon] + tb) + rest {
      Joined(ta, TColon, tb, rest);
      assert Emit(a, [TColon] + Emit(b, rest)) == ta + [TColon] + tb + rest;
      Joined(tc, TOp(Question), ta + [TColon] + tb, rest);
    }
  }

  lemma Joined(tl: seq<Token>, t: Token, tr: seq<Token>, rest: seq<Token>)
    ensures tl + ([t] + (tr + rest)) == tl + [t] + tr + rest
  {}

  lemma Reads(w: Written, t: seq<Token>, s: seq<Token>)
    requires Grouped(w, MAX_PRI) && Spells(w, t) && t == s
    ensures ParseLine(s) == Got(w, [])
  {
    assert t + [] == t;
    ParseLineIffGrouped(s, w);
  }

  // ---- Grouping ------------------------------------------------------------------------------------------

  /** `a op b` */
  lemma Pair(op: Op, a: Number, b: Number, priority: nat) returns (w: Written)
    requires Pri(op) <= priority && !op.Question?
    ensures w == WBin(op, WNum(a), WNum(b)) && Grouped(w, priority) && Spells(w, [TNum(a), TOp(op), TNum(b)])
  {
    w := WBin(op, WNum(a), WNum(b));
    NumSpells(a);
    NumSpells(b);
    BinSpells(op, WNum(a), WNum(b), [TNum(a)], [TNum(b)]);
    assert [TNum(a)] + [TOp(op)] + [TNum(b)] == [TNum(a), TOp(op), TNum(b)];
  }

  /** In `a op1 b op2 c` the operator of the earlier row takes b, and the left one if they are of the same row. */
  lemma TwoOperators(a: Number, op1: Op, b: Number, op2: Op, c: Number, i: nat, j: nat)
    requires InRow(op1, i) && InRow(op2, j)
    ensures ParseLine([TNum(a), TOp(op1), TNum(b), TOp(op2), TNum(c)]) ==
            Got(if i <= j then WBin(op2, WBin(op1, WNum(a), WNum(b)), WNum(c))
                else WBin(op1, WNum(a), WBin(op2, WNum(b), WNum(c))), [])
  {
    var s := [TNum(a), TOp(op1), TNum(b), TOp(op2), TNum(c)];
    RowPri(op1, i);
    RowPri(op2, j);
    if i <= j {
      var l := Pair(op1, a, b, MAX_PRI);
      NumSpells(c);
      BinSpells(op2, l, WNum(c), [TNum(a), TOp(op1), TNum(b)], [TNum(c)]);
      Reads(WBin(op2, l, WNum(c)), [TNum(a), TOp(op1), TNum(b)] + [TOp(op2)] + [TNum(c)], s);
    } else {
      var r := Pair(op2, b, c, Pri(op2));
      NumSpells(a);
      BinSpells(op1, WNum(a), r, [TNum(a)], [TNum(b), TOp(op2), TNum(c)]);
      Reads(WBin(op1, WNum(a), r), [TNum(a)] + [TOp(op1)] + [TNum(b), TOp(op2), TNum(c)], s);
    }
  }

  /** A conditional binds more loosely than any of them, and groups to the right. */
  lemma ConditionalLoosest(a: Number, op: Op, b: Number, c: Number, d: Number, i: nat)
    requires InRow(op, i)
    ensures ParseLine([TNum(a), TOp(op), TNum(b), TOp(Question), TNum(c), TColon, TNum(d)]) ==
            Got(WTop(WBin(op, WNum(a), WNum(b)), WNum(c), WNum(d)), [])
    ensures ParseLine([TNum(a), TOp(Question), TNum(b), TColon, TNum(c), TOp(op), TNum(d)]) ==
            Got(WTop(WNum(a), WNum(b), WBin(op, WNum(c), WNum(d))), [])
  {
    RowPri(op, i);
    NumSpells(a);
    NumSpells(b);
    NumSpells(c);
    NumSpells(d);
    var l := Pair(op, a, b, MAX_PRI);
    TopSpells(l, WNum(c), WNum(d), [TNum(a), TOp(op), TNum(b)], [TNum(c)], [TNum(d)]);
    Reads(WTop(l, WNum(c), WNum(d)),
          [TNum(a), TOp(op), TNum(b)] + [TOp(Question)] + ([TNum(c)] + [TColon] + [TNum(d)]),
          [TNum(a), TOp(op), TNum(b), TOp(Question), TNum(c), TColon, TNum(d)]);
    var r := Pair(op, c, d, MAX_PRI);
    TopSpells(WNum(a), WNum(b), r, [TNum(a)], [TNum(b)], [TNum(c), TOp(op), TNum(d)]);
    Reads(WTop(WNum(a), WNum(b), r),
          [TNum(a)] + [TOp(Question)] + ([TNum(b)] + [TColon] + [TNum(c), TOp(op), TNum(d)]),
          [TNum(a), TOp(Question), TNum(b), TColon, TNum(c), TOp(op), TNum(d)]);
  }

  lemma ConditionalToTheRight(a: Number, b: Number, c: Number, d: Number, e: Number)
    ensures ParseLine([TNum(a), TOp(Question), TNum(b), TColon, TNum(c), TOp(Question), TNum(d), TColon, TNum(e)]) ==
            Got(WTop(WNum(a), WNum(b), WTop(WNum(c), WNum(d), WNum(e))), [])
  {
    NumSpells(a);
    NumSpells(b);
    NumSpells(c);
    NumSpells(d);
    NumSpells(e);
    var inner := WTop(WNum(c), WNum(d), WNum(e));
    TopSpells(WNum(c), WNum(d), WNum(e), [TNum(c)], [TNum(d)], [TNum(e)]);
    var text := [TNum(c)] + [TOp(Question)] + ([TNum(d)] + [TColon] + [TNum(e)]);
    TopSpells(WNum(a), WNum(b), inner, [TNum(a)], [TNum(b)], text);
    Reads(WTop(WNum(a), WNum(b), inner), [TNum(a)] + [TOp(Question)] + ([TNum(b)] + [TColon] + text),
          [TNum(a), TOp(Question), TNum(b), TColon, TNum(c), TOp(Question), TNum(d), TColon, TNum(e)]);
  }

  /** `-`, `!` and `~` may stand before an operand, and nothing else may; they bind tighter than any other. */
  lemma PrefixOperators(op: Op, a: Number, op2: Op, b: Number, i: nat)
    requires InRow(op2, i)
    ensures op in [Minus, Not, BNot] ==>
              && ParseLine([TOp(op), TNum(a)]) == Got(WUn(op, WNum(a)), [])
              && ParseLine([TOp(op), TNum(a), TOp(op2), TNum(b)]) == Got(WBin(op2, WUn(op, WNum(a)), WNum(b)), [])
    ensures op !in [Minus, Not, BNot] ==> ParseLine([TOp(op), TNum(a)]) == Fail
  {
    if op in [Minus, Not, BNot] {
      RowPri(op2, i);
      NumSpells(a);
      NumSpells(b);
      var w := WUn(op, WNum(a));
      UnSpells(op, WNum(a), [TNum(a)]);
      Reads(w, [TOp(op)] + [TNum(a)], [TOp(op), TNum(a)]);
      BinSpells(op2, w, WNum(b), [TOp(op)] + [TNum(a)], [TNum(b)]);
      Reads(WBin(op2, w, WNum(b)), [TOp(op)] + [TNum(a)] + [TOp(op2)] + [TNum(b)],
            [TOp(op), TNum(a), TOp(op2), TNum(b)]);
    } else {
      assert ParsePrimary([TOp(op), TNum(a)]) == Fail;
    }
  }

  /** An identifier is noticed wherever it stands. */
  lemma IdentsNoticed(w: Written)
    ensures HasIdent(Strip(w)) <==> TIdent in Text(w)
  {
    IdentIn(w, []);
  }

  lemma {:induction false} IdentIn(w: Written, rest: seq<Token>)
    ensures TIdent in Emit(w, rest) <==> HasIdent(Strip(w)) || TIdent in rest
    decreases w
  {
    match w
    case WIdent =>
    case WNum(_) =>
    case WParen(w') => IdentIn(w', [TRParen] + rest);
    case WUn(_, w') => IdentIn(w', rest);
    case WBin(op, l, r) =>
      IdentIn(r, rest);
      IdentIn(l, [TOp(op)] + Emit(r, rest));
    case WTop(c, a, b) =>
      IdentIn(b, rest);
      IdentIn(a, [TColon] + Emit(b, rest));
      IdentIn(c, [TOp(Question)] + Emit(a, [TColon] + Emit(b, rest)));
  }

  // ---- Values --------------------------------------------------------------------------------------------

  /** Numbers from 2^63 on are cut to the largest `long`. */
  lemma NumberValue(n: Number)
    ensures LongValue(Num(n)) == Some(if n.value >= 0x8000_0000_0000_0000 then 0x7fff_ffff_ffff_ffff else n.value)
  {}

  /** `&&` and `||` are worth 1 or 0, and do not need their right operand if the left one settles it. */
  lemma LogicalValues(l: Expr, r: Expr)
    requires LongValue(l).Some?
    ensures LongValue(l) == Some(0) ==> LongValue(Bin(AndSc, l, r)) == Some(0)
    ensures LongValue(l) != Some(0) ==> LongValue(Bin(OrSc, l, r)) == Some(1)
    ensures var op := if LongValue(l) == Some(0) then OrSc else AndSc;
            LongValue(Bin(op, l, r)) ==
            if LongValue(r).None? then None else Some(if LongValue(r) == Some(0) then 0 else 1)
  {}

  /** `!` is worth 1 for zero and 0 for anything else; a conditional is worth one of its branches. */
  lemma NotAndConditional(c: Expr, a: Expr, b: Expr)
    requires LongValue(c).Some?
    ensures LongValue(Un(Not, c)) == Some(if LongValue(c) == Some(0) then 1 else 0)
    ensures LongValue(Top(c, a, b)) == LongValue(if LongValue(c) == Some(0) then b else a)
  {}

  /** Comparisons are worth 1 or 0. */
  lemma ComparisonValues(l: Expr, r: Expr, x: int, y: int)
    requires LongValue(l) == Some(x) && LongValue(r) == Some(y)
    ensures LongValue(Bin(Lt, l, r)) == Some(if x < y then 1 else 0)
    ensures LongValue(Bin(Gt, l, r)) == Some(if y < x then 1 else 0)
    ensures LongValue(Bin(Le, l, r)) == Some(if y < x then 0 else 1)
    ensures LongValue(Bin(Ge, l, r)) == Some(if x < y then 0 else 1)
    ensures LongValue(Bin(Eq, l, r)) == Some(if x == y then 1 else 0)
    ensures LongValue(Bin(Ne, l, r)) == Some(if x == y then 0 else 1)
  {}

  predicate IsLong(n: int) {
    -0x8000_0000_0000_0000 <= n < 0x8000_0000_0000_0000
  }

  /** Sums, differences, products and negated values are the mathematical ones where those are of type `long`. */
  lemma ArithmeticValues(l: Expr, r: Expr, x: int, y: int)
    requires LongValue(l) == Some(x) && LongValue(r) == Some(y)
    ensures IsLong(x + y) ==> LongValue(Bin(Plus, l, r)) == Some(x + y)
    ensures IsLong(x - y) ==> LongValue(Bin(Minus, l, r)) == Some(x - y)
    ensures IsLong(x * y) ==> LongValue(Bin(Mul, l, r)) == Some(x * y)
  {
    BothEvaluated(Plus, l, r, x, y);
    BothEvaluated(Minus, l, r, x, y);
    BothEvaluated(Mul, l, r, x, y);
    SignedWord(x + y);
    SignedWord(x - y);
    SignedWord(x * y);
  }

  lemma BothEvaluated(op: Op, l: Expr, r: Expr, x: int, y: int)
    requires LongValue(l) == Some(x) && LongValue(r) == Some(y) && op in [Plus, Minus, Mul]
    ensures LongValue(Bin(op, l, r)) ==
            Some(Wrap(match op case Plus => x + y case Minus => x - y case _ => x * y))
  {}

  lemma PrefixValues(e: Expr, x: int)
    requires LongValue(e) == Some(x)
    ensures IsLong(-x) ==> LongValue(Un(Minus, e)) == Some(-x)
    ensures LongValue(Un(BNot, e)) == Some(-x - 1)
  {
    SignedWord(-x);
  }
}
