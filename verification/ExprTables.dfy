/**
  Which tokens are operators and how tightly they bind, as lists of tokens (src/cc1/parse_expr.c, src/cc1/tokconv.c):
  what the parser makes of the shortest texts in which it shows.
*/
module ExprTables {
  import opened ExprSyntax
  import opened ExprGrammar
  import opened ExprRoundTrip

  /** The lines of PARSE_DEFINE, tightest first. */
  const ROWS: seq<seq<Op>> :=
    [[Multiply, Divide, Modulus], [Plus, Minus], [ShiftL, ShiftR], [Lt, Gt, Le, Ge], [Eq, Ne], [And], [Xor], [Or],
     [AndSc], [OrSc]]

  predicate InRow(op: Op, i: nat) {
    i < |ROWS| && op in ROWS[i]
  }

  /** Tokens that end an expression wherever it stands. */
  predicate Ends(rest: seq<Token>) {
    rest == [] || rest[0] in {CloseParen, CloseSquare, Colon}
  }

  lemma RowLevel(op: Op, i: nat)
    requires InRow(op, i)
    ensures Prec(op) == 12 - i
  {}

  /** Every operator has one row, except for the two that are only prefixes. */
  lemma OneRow(op: Op) returns (i: nat)
    ensures op == Not || op == BNot <==> forall j: nat :: !InRow(op, j)
    ensures op != Not && op != BNot ==> InRow(op, i) && forall j :: InRow(op, j) ==> j == i
  {
    i := if Prec(op) > 0 then 12 - Prec(op) else 0;
    if op != Not && op != BNot {
      assert InRow(op, i);
      forall j | InRow(op, j) ensures j == i { RowLevel(op, j); }
    } else {
      forall j: nat ensures !InRow(op, j) { if InRow(op, j) { RowLevel(op, j); } }
    }
  }

  // ---- Texts of trees -------------------------------------------------------------------------------------

  /** `e` is written as the tokens `t`. */
  ghost predicate Spells(e: Expr, t: seq<Token>) {
    forall rest :: Emit(e, rest) == t + rest
  }

  lemma NameSpells(a: string)
    ensures Spells(Name(a), [Ident(a)]) && Grammatical(Name(a)) && Rank(Name(a)) == PRIMARY
  {}

  lemma BinarySpells(op: Op, l: Expr, r: Expr, tl: seq<Token>, tr: seq<Token>)
    requires Spells(l, tl) && Spells(r, tr)
    ensures Spells(Binary(op, l, r), tl + [Operator(op)] + tr)
  {
    forall rest ensures Emit(Binary(op, l, r), rest) == tl + [Operator(op)] + tr + rest {
      Joined(tl, Operator(op), tr, rest);
    }
  }

  lemma Joined(tl: seq<Token>, t: Token, tr: seq<Token>, rest: seq<Token>)
    ensures tl + ([t] + (tr + rest)) == tl + [t] + tr + rest
  {}

  lemma PrefixSpells(op: Op, e: Expr, t: seq<Token>)
    requires Spells(e, t)
    ensures Spells(Unary(op, e), [Operator(op)] + t)
  {
    forall rest ensures Emit(Unary(op, e), rest) == [Operator(op)] + t + rest {
      assert [Operator(op)] + (t + rest) == [Operator(op)] + t + rest;
    }
  }

  lemma CondSpells(c: Expr, m: Expr, f: Expr, tc: seq<Token>, tm: seq<Token>, tf: seq<Token>)
    requires Spells(c, tc) && Spells(m, tm) && Spells(f, tf)
    ensures Spells(Cond(c, Mid(m), f), tc + [Question] + (tm + [Colon] + tf))
  {
    forall rest ensures Emit(Cond(c, Mid(m), f), rest) == tc + [Question] + (tm + [Colon] + tf) + rest {
      Joined(tm, Colon, tf, rest);
      assert Emit(m, [Colon] + Emit(f, rest)) == tm + [Colon] + tf + rest;
      Joined(tc, Question, tm + [Colon] + tf, rest);
    }
  }

  lemma AssignSpells(l: Expr, r: Expr, tl: seq<Token>, tr: seq<Token>)
    requires Spells(l, tl) && Spells(r, tr)
    ensures Spells(Assign(l, r), tl + [AssignTok] + tr) && Spells(Comma(l, r), tl + [CommaTok] + tr)
  {
    forall rest ensures Emit(Assign(l, r), rest) == tl + [AssignTok] + tr + rest {
      Joined(tl, AssignTok, tr, rest);
    }
    forall rest ensures Emit(Comma(l, r), rest) == tl + [CommaTok] + tr + rest {
      Joined(tl, CommaTok, tr, rest);
    }
  }

  /** Reading the text of a tree that is put together as the grammar has it. */
  lemma Reads(e: Expr, t: seq<Token>, toks: seq<Token>, rest: seq<Token>)
    requires Grammatical(e) && Ends(rest) && Spells(e, t) && toks == t + rest
    ensures ParseExp(toks) == Parsed(e, rest)
  {
    ReadsBack(EXP, e, rest);
  }

  lemma ReadsText(e: Expr, toks: seq<Token>)
    requires Grammatical(e) && Emit(e, []) == toks
    ensures ParseExp(toks) == Parsed(e, [])
  {
    ReadsBack(EXP, e, []);
  }

  // ---- Binary operators -----------------------------------------------------------------------------------

  /** In `a op1 b op2 c` the operator of the earlier row takes b, and the left one if they are of the same row. */
  lemma TwoOperators(a: string, op1: Op, b: string, op2: Op, c: string, i: nat, j: nat, rest: seq<Token>)
    requires InRow(op1, i) && InRow(op2, j) && Ends(rest)
    ensures ParseExp([Ident(a), Operator(op1), Ident(b), Operator(op2), Ident(c)] + rest) ==
            Parsed(if i <= j then Binary(op2, Binary(op1, Name(a), Name(b)), Name(c))
                   else Binary(op1, Name(a), Binary(op2, Name(b), Name(c))), rest)
  {
    RowLevel(op1, i);
    RowLevel(op2, j);
    if i <= j { LeftFirst(a, op1, b, op2, c, rest); } else { RightFirst(a, op1, b, op2, c, rest); }
  }

  lemma PairSpells(op: Op, a: string, b: string)
    ensures Spells(Binary(op, Name(a), Name(b)), [Ident(a), Operator(op), Ident(b)])
    ensures Prec(op) >= LOGICAL_OR ==> Grammatical(Binary(op, Name(a), Name(b)))
  {
    NameSpells(a);
    NameSpells(b);
    BinarySpells(op, Name(a), Name(b), [Ident(a)], [Ident(b)]);
    assert [Ident(a)] + [Operator(op)] + [Ident(b)] == [Ident(a), Operator(op), Ident(b)];
  }

  lemma LeftFirst(a: string, op1: Op, b: string, op2: Op, c: string, rest: seq<Token>)
    requires Prec(op1) >= Prec(op2) >= LOGICAL_OR && Ends(rest)
    ensures ParseExp([Ident(a), Operator(op1), Ident(b), Operator(op2), Ident(c)] + rest) ==
            Parsed(Binary(op2, Binary(op1, Name(a), Name(b)), Name(c)), rest)
  {
    var inner, t := Binary(op1, Name(a), Name(b)), [Ident(a), Operator(op1), Ident(b)];
    PairSpells(op1, a, b);
    NameSpells(c);
    BinarySpells(op2, inner, Name(c), t, [Ident(c)]);
    assert t + [Operator(op2)] + [Ident(c)] == [Ident(a), Operator(op1), Ident(b), Operator(op2), Ident(c)];
    Reads(Binary(op2, inner, Name(c)), t + [Operator(op2)] + [Ident(c)],
          [Ident(a), Operator(op1), Ident(b), Operator(op2), Ident(c)] + rest, rest);
  }

  lemma RightFirst(a: string, op1: Op, b: string, op2: Op, c: string, rest: seq<Token>)
    requires LOGICAL_OR <= Prec(op1) < Prec(op2) && Ends(rest)
    ensures ParseExp([Ident(a), Operator(op1), Ident(b), Operator(op2), Ident(c)] + rest) ==
            Parsed(Binary(op1, Name(a), Binary(op2, Name(b), Name(c))), rest)
  {
    var inner, t := Binary(op2, Name(b), Name(c)), [Ident(b), Operator(op2), Ident(c)];
    NameSpells(a);
    PairSpells(op2, b, c);
    BinarySpells(op1, Name(a), inner, [Ident(a)], t);
    assert [Ident(a)] + [Operator(op1)] + t == [Ident(a), Operator(op1), Ident(b), Operator(op2), Ident(c)];
    Reads(Binary(op1, Name(a), inner), [Ident(a)] + [Operator(op1)] + t,
          [Ident(a), Operator(op1), Ident(b), Operator(op2), Ident(c)] + rest, rest);
  }

  // ---- Prefixes, suffixes and assignments -----------------------------------------------------------------

  /** The tokens that can stand before an operand, and what each makes of it. */
  function PrefixTree(op: Op, a: string): Outcome {
    if op in {Plus, Minus, Not, BNot} then Parsed(Unary(op, Name(a)), [])
    else if op == And then Parsed(AddrOf(Name(a)), [])
    else if op == Multiply then Parsed(Deref(Name(a)), [])
    else if op == AndSc then Parsed(LabelAddr(a), [])
    else Error
  }

  lemma PrefixOperator(op: Op, a: string)
    ensures ParseExp([Operator(op), Ident(a)]) == PrefixTree(op, a)
  {
    var toks, r := [Operator(op), Ident(a)], PrefixTree(op, a);
    if r.Parsed? {
      ReadsText(r.e, toks);
    } else {
      NoOperand(op, toks);
      BinaryError(LOGICAL_OR, toks);
      ErrorAbove(toks);
    }
  }

  lemma ErrorAbove(toks: seq<Token>)
    requires ParseBinary(LOGICAL_OR, toks) == Error
    ensures ParseExp(toks) == Error
  {
    assert ParseConditional(toks) == Error;
    assert ParseAssignment(toks) == Error;
  }

  lemma NoOperand(op: Op, toks: seq<Token>)
    requires toks != [] && toks[0] == Operator(op) && op !in {Plus, Minus, Not, BNot, And, Multiply, AndSc}
    ensures ParseUnary(toks) == Error
  {
    assert ParsePrimary(toks) == Error && ParsePostfix(toks) == Error;
  }

  lemma {:induction false} BinaryError(level: nat, toks: seq<Token>)
    requires LOGICAL_OR <= level <= UNARY && ParseUnary(toks) == Error
    ensures ParseBinary(level, toks) == Error
    decreases UNARY - level
  {
    if level < UNARY { BinaryError(level + 1, toks); }
  }

  /** The operators that make a compound assignment, and the others, after which nothing is assigned. */
  lemma CompoundOperator(op: Op, a: string, b: string)
    ensures ParseExp([Ident(a), CompoundAssign(op), Ident(b)]) ==
            if op in {Plus, Minus, Multiply, Divide, Modulus, Not, BNot, And, Or, Xor, ShiftL, ShiftR} then
              Parsed(CompAssign(op, Name(a), Name(b)), [])
            else Parsed(Name(a), [CompoundAssign(op), Ident(b)])
  {
    var toks := [Ident(a), CompoundAssign(op), Ident(b)];
    if op in {Plus, Minus, Multiply, Divide, Modulus, Not, BNot, And, Or, Xor, ShiftL, ShiftR} {
      ReadsText(CompAssign(op, Name(a), Name(b)), toks);
    } else {
      assert Emit(Name(a), [CompoundAssign(op), Ident(b)]) == toks;
      ReadsBack(EXP, Name(a), [CompoundAssign(op), Ident(b)]);
    }
  }

  /** What stands after an operand. */
  lemma Brackets(a: string, b: string)
    ensures ParseExp([Ident(a), OpenSquare, Ident(b), CloseSquare]) == Parsed(Index(Name(a), Name(b)), [])
    ensures ParseExp([Ident(a), OpenParen, Ident(b), CloseParen]) == Parsed(Call(Name(a), [Name(b)]), [])
    ensures ParseExp([Ident(a), OpenParen, CloseParen]) == Parsed(Call(Name(a), []), [])
  {
    assert Emit(Name(b), [CloseSquare] + []) == [Ident(b), CloseSquare];
    ReadsText(Index(Name(a), Name(b)), [Ident(a), OpenSquare, Ident(b), CloseSquare]);
    assert [Name(b)][1..] == [];
    assert GrammaticalArgs([Name(b)]);
    assert EmitArgs([Name(b)], [CloseParen] + []) == [Ident(b), CloseParen];
    ReadsText(Call(Name(a), [Name(b)]), [Ident(a), OpenParen, Ident(b), CloseParen]);
    assert EmitArgs([], [CloseParen] + []) == [CloseParen];
    ReadsText(Call(Name(a), []), [Ident(a), OpenParen, CloseParen]);
  }

  lemma Members(a: string, b: string)
    ensures ParseExp([Ident(a), Dot, Ident(b)]) == Parsed(Member(Name(a), true, b), [])
    ensures ParseExp([Ident(a), Arrow, Ident(b)]) == Parsed(Member(Name(a), false, b), [])
  {
    ReadsText(Member(Name(a), true, b), [Ident(a), Dot, Ident(b)]);
    ReadsText(Member(Name(a), false, b), [Ident(a), Arrow, Ident(b)]);
  }

  lemma Steps(a: string)
    ensures ParseExp([Ident(a), Increment]) == Parsed(PostStep(true, Name(a)), [])
    ensures ParseExp([Ident(a), Decrement]) == Parsed(PostStep(false, Name(a)), [])
    ensures ParseExp([Increment, Ident(a)]) == Parsed(PreStep(true, Name(a)), [])
    ensures ParseExp([Decrement, Ident(a)]) == Parsed(PreStep(false, Name(a)), [])
  {
    ReadsText(PostStep(true, Name(a)), [Ident(a), Increment]);
    ReadsText(PostStep(false, Name(a)), [Ident(a), Decrement]);
    ReadsText(PreStep(true, Name(a)), [Increment, Ident(a)]);
    ReadsText(PreStep(false, Name(a)), [Decrement, Ident(a)]);
  }

  lemma SignedSpells(pre: Op, a: string)
    ensures Spells(Unary(pre, Name(a)), [Operator(pre), Ident(a)])
  {
    NameSpells(a);
    PrefixSpells(pre, Name(a), [Ident(a)]);
    assert [Operator(pre)] + [Ident(a)] == [Operator(pre), Ident(a)];
  }

  /** Prefixes bind tighter than any binary operator, on either side, and suffixes tighter than prefixes. */
  lemma PrefixTighter(op: Op, pre: Op, a: string, b: string, i: nat)
    requires InRow(op, i) && pre in {Plus, Minus, Not, BNot}
    ensures ParseExp([Operator(pre), Ident(a), Operator(op), Ident(b)]) ==
            Parsed(Binary(op, Unary(pre, Name(a)), Name(b)), [])
    ensures ParseExp([Ident(a), Operator(op), Operator(pre), Ident(b)]) ==
            Parsed(Binary(op, Name(a), Unary(pre, Name(b))), [])
  {
    RowLevel(op, i);
    var l, r := Unary(pre, Name(a)), Unary(pre, Name(b));
    SignedSpells(pre, a);
    SignedSpells(pre, b);
    NameSpells(a);
    NameSpells(b);
    assert Grammatical(l) && Grammatical(r);
    BinarySpells(op, l, Name(b), [Operator(pre), Ident(a)], [Ident(b)]);
    BinarySpells(op, Name(a), r, [Ident(a)], [Operator(pre), Ident(b)]);
    assert [Operator(pre), Ident(a)] + [Operator(op)] + [Ident(b)] + [] ==
           [Operator(pre), Ident(a), Operator(op), Ident(b)];
    assert [Ident(a)] + [Operator(op)] + [Operator(pre), Ident(b)] + [] ==
           [Ident(a), Operator(op), Operator(pre), Ident(b)];
    ReadsText(Binary(op, l, Name(b)), [Operator(pre), Ident(a), Operator(op), Ident(b)]);
    ReadsText(Binary(op, Name(a), r), [Ident(a), Operator(op), Operator(pre), Ident(b)]);
  }

  lemma SuffixTighter(pre: Op, a: string, b: string)
    requires pre in {Plus, Minus, Not, BNot}
    ensures ParseExp([Operator(pre), Ident(a), Dot, Ident(b)]) == Parsed(Unary(pre, Member(Name(a), true, b)), [])
    ensures ParseExp([Operator(Multiply), Ident(a), Increment]) == Parsed(Deref(PostStep(true, Name(a))), [])
  {
    var m, p := Member(Name(a), true, b), PostStep(true, Name(a));
    assert Grammatical(m) && Emit(m, []) == [Ident(a), Dot, Ident(b)];
    ReadsText(Unary(pre, m), [Operator(pre), Ident(a), Dot, Ident(b)]);
    assert Grammatical(p) && Emit(p, []) == [Ident(a), Increment];
    ReadsText(Deref(p), [Operator(Multiply), Ident(a), Increment]);
  }

  lemma ChoiceSpells(a: string, b: string, c: string)
    ensures Spells(Cond(Name(a), Mid(Name(b)), Name(c)), [Ident(a), Question, Ident(b), Colon, Ident(c)])
    ensures Grammatical(Cond(Name(a), Mid(Name(b)), Name(c)))
  {
    NameSpells(a);
    NameSpells(b);
    NameSpells(c);
    CondSpells(Name(a), Name(b), Name(c), [Ident(a)], [Ident(b)], [Ident(c)]);
    assert [Ident(a)] + [Question] + ([Ident(b)] + [Colon] + [Ident(c)]) ==
           [Ident(a), Question, Ident(b), Colon, Ident(c)];
  }

  /** `?:` binds looser than any binary operator, and groups to the right. */
  lemma ConditionalLooser(op: Op, a: string, b: string, c: string, d: string, i: nat)
    requires InRow(op, i)
    ensures ParseExp([Ident(a), Operator(op), Ident(b), Question, Ident(c), Colon, Ident(d)]) ==
            Parsed(Cond(Binary(op, Name(a), Name(b)), Mid(Name(c)), Name(d)), [])
    ensures ParseExp([Ident(a), Question, Ident(b), Colon, Ident(c), Operator(op), Ident(d)]) ==
            Parsed(Cond(Name(a), Mid(Name(b)), Binary(op, Name(c), Name(d))), [])
  {
    RowLevel(op, i);
    TestedPair(op, a, b, c, d);
    LastPair(op, a, b, c, d);
  }

  lemma TestedPair(op: Op, a: string, b: string, c: string, d: string)
    requires Prec(op) >= LOGICAL_OR
    ensures ParseExp([Ident(a), Operator(op), Ident(b), Question, Ident(c), Colon, Ident(d)]) ==
            Parsed(Cond(Binary(op, Name(a), Name(b)), Mid(Name(c)), Name(d)), [])
  {
    var l, t := Binary(op, Name(a), Name(b)), [Ident(a), Operator(op), Ident(b)];
    PairSpells(op, a, b);
    NameSpells(c);
    NameSpells(d);
    CondSpells(l, Name(c), Name(d), t, [Ident(c)], [Ident(d)]);
    Reads(Cond(l, Mid(Name(c)), Name(d)), t + [Question] + ([Ident(c)] + [Colon] + [Ident(d)]),
          [Ident(a), Operator(op), Ident(b), Question, Ident(c), Colon, Ident(d)], []);
  }

  lemma LastPair(op: Op, a: string, b: string, c: string, d: string)
    requires Prec(op) >= LOGICAL_OR
    ensures ParseExp([Ident(a), Question, Ident(b), Colon, Ident(c), Operator(op), Ident(d)]) ==
            Parsed(Cond(Name(a), Mid(Name(b)), Binary(op, Name(c), Name(d))), [])
  {
    var r, t := Binary(op, Name(c), Name(d)), [Ident(c), Operator(op), Ident(d)];
    PairSpells(op, c, d);
    NameSpells(a);
    NameSpells(b);
    CondSpells(Name(a), Name(b), r, [Ident(a)], [Ident(b)], t);
    Reads(Cond(Name(a), Mid(Name(b)), r), [Ident(a)] + [Question] + ([Ident(b)] + [Colon] + t),
          [Ident(a), Question, Ident(b), Colon, Ident(c), Operator(op), Ident(d)], []);
  }

  lemma ConditionalToTheRight(a: string, b: string, c: string, d: string, e: string)
    ensures ParseExp([Ident(a), Question, Ident(b), Colon, Ident(c), Question, Ident(d), Colon, Ident(e)]) ==
            Parsed(Cond(Name(a), Mid(Name(b)), Cond(Name(c), Mid(Name(d)), Name(e))), [])
  {
    var inner, t := Cond(Name(c), Mid(Name(d)), Name(e)), [Ident(c), Question, Ident(d), Colon, Ident(e)];
    ChoiceSpells(c, d, e);
    NameSpells(a);
    NameSpells(b);
    CondSpells(Name(a), Name(b), inner, [Ident(a)], [Ident(b)], t);
    Reads(Cond(Name(a), Mid(Name(b)), inner), [Ident(a)] + [Question] + ([Ident(b)] + [Colon] + t),
          [Ident(a), Question, Ident(b), Colon, Ident(c), Question, Ident(d), Colon, Ident(e)], []);
  }

  lemma MiddleLeftOut(a: string, b: string)
    ensures ParseExp([Ident(a), Question, Colon, Ident(b)]) == Parsed(Cond(Name(a), NoMiddle, Name(b)), [])
  {
    ReadsText(Cond(Name(a), NoMiddle, Name(b)), [Ident(a), Question, Colon, Ident(b)]);
  }

  /** Assignment groups to the right and binds looser than `?:`; the comma binds loosest. */
  lemma AssignmentToTheRight(a: string, b: string, c: string)
    ensures ParseExp([Ident(a), AssignTok, Ident(b), AssignTok, Ident(c)]) ==
            Parsed(Assign(Name(a), Assign(Name(b), Name(c))), [])
  {
    var assign, t := Assign(Name(b), Name(c)), [Ident(b), AssignTok, Ident(c)];
    AssignedSpells(b, c);
    NameSpells(a);
    AssignSpells(Name(a), assign, [Ident(a)], t);
    Reads(Assign(Name(a), assign), [Ident(a)] + [AssignTok] + t,
          [Ident(a), AssignTok, Ident(b), AssignTok, Ident(c)], []);
  }

  lemma AssignmentLooser(a: string, b: string, c: string, d: string)
    ensures ParseExp([Ident(a), AssignTok, Ident(b), Question, Ident(c), Colon, Ident(d)]) ==
            Parsed(Assign(Name(a), Cond(Name(b), Mid(Name(c)), Name(d))), [])
  {
    var cond, t := Cond(Name(b), Mid(Name(c)), Name(d)), [Ident(b), Question, Ident(c), Colon, Ident(d)];
    ChoiceSpells(b, c, d);
    NameSpells(a);
    AssignSpells(Name(a), cond, [Ident(a)], t);
    Reads(Assign(Name(a), cond), [Ident(a)] + [AssignTok] + t,
          [Ident(a), AssignTok, Ident(b), Question, Ident(c), Colon, Ident(d)], []);
  }

  lemma AssignedSpells(a: string, b: string)
    ensures Spells(Assign(Name(a), Name(b)), [Ident(a), AssignTok, Ident(b)])
    ensures Grammatical(Assign(Name(a), Name(b)))
  {
    NameSpells(a);
    NameSpells(b);
    AssignSpells(Name(a), Name(b), [Ident(a)], [Ident(b)]);
    assert [Ident(a)] + [AssignTok] + [Ident(b)] == [Ident(a), AssignTok, Ident(b)];
  }

  lemma CommaLoosest(a: string, b: string, c: string, d: string)
    ensures ParseExp([Ident(a), CommaTok, Ident(b), AssignTok, Ident(c), CommaTok, Ident(d)]) ==
            Parsed(Comma(Name(a), Comma(Assign(Name(b), Name(c)), Name(d))), [])
  {
    var assign := Assign(Name(b), Name(c));
    var comma := Comma(assign, Name(d));
    var t := [Ident(b), AssignTok, Ident(c)];
    AssignedSpells(b, c);
    NameSpells(a);
    NameSpells(d);
    assert Grammatical(comma);
    AssignSpells(assign, Name(d), t, [Ident(d)]);
    AssignSpells(Name(a), comma, [Ident(a)], t + [CommaTok] + [Ident(d)]);
    Reads(Comma(Name(a), comma), [Ident(a)] + [CommaTok] + (t + [CommaTok] + [Ident(d)]),
          [Ident(a), CommaTok, Ident(b), AssignTok, Ident(c), CommaTok, Ident(d)], []);
  }
}
