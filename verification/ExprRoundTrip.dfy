/** The parser of expressions is the exact inverse of writing them down. */
module ExprRoundTrip {
  import opened ExprSyntax
  import opened ExprGrammar

  // ---- Completeness: every grammatical expression is read back -------------------------------

  /** Reading the text of a postfix expression brings the parser to the loop over what follows it. */
  lemma {:induction false} PostfixReaches(e: Expr, rest: seq<Token>)
    requires Grammatical(e) && Rank(e) >= POSTFIX
    ensures ParsePostfix(Emit(e, rest)) == PostfixRest(e, rest)
    decreases e, 1
  {
    if e.Index? {
      IndexReaches(e.base, e.idx, rest);
    } else if e.Call? {
      CallReaches(e.fn, e.args, rest);
    } else if e.Member? {
      MemberReaches(e.base, e.dot, e.field, rest);
    } else if e.PostStep? {
      StepReaches(e.inc, e.base, rest);
    } else if e.Paren? {
      ReadsBack(EXP, e.inner, [CloseParen] + rest);
    }
  }

  lemma {:induction false} MemberReaches(b: Expr, dot: bool, field: string, rest: seq<Token>)
    requires Grammatical(Member(b, dot, field))
    ensures ParsePostfix(Emit(Member(b, dot, field), rest)) == PostfixRest(Member(b, dot, field), rest)
    decreases Member(b, dot, field), 0
  {
    var after := [if dot then Dot else Arrow] + ([Ident(field)] + rest);
    PostfixReaches(b, after);
    assert after[2..] == rest;
  }

  lemma {:induction false} StepReaches(inc: bool, b: Expr, rest: seq<Token>)
    requires Grammatical(PostStep(inc, b))
    ensures ParsePostfix(Emit(PostStep(inc, b), rest)) == PostfixRest(PostStep(inc, b), rest)
    decreases PostStep(inc, b), 0
  {
    var after := [if inc then Increment else Decrement] + rest;
    PostfixReaches(b, after);
    assert after[1..] == rest;
  }

  lemma {:induction false} IndexReaches(b: Expr, i: Expr, rest: seq<Token>)
    requires Grammatical(Index(b, i))
    ensures ParsePostfix(Emit(Index(b, i), rest)) == PostfixRest(Index(b, i), rest)
    decreases Index(b, i), 0
  {
    var tail := Emit(i, [CloseSquare] + rest);
    PostfixReaches(b, [OpenSquare] + tail);
    ReadsBack(EXP, i, [CloseSquare] + rest);
    assert ParseExp(tail) == Parsed(i, [CloseSquare] + rest);
    assert PostfixRest(b, [OpenSquare] + tail) == PostfixRest(Index(b, i), rest);
  }

  lemma {:induction false} CallReaches(f: Expr, args: seq<Expr>, rest: seq<Token>)
    requires Grammatical(Call(f, args))
    ensures ParsePostfix(Emit(Call(f, args), rest)) == PostfixRest(Call(f, args), rest)
    decreases Call(f, args), 0
  {
    var tail := EmitArgs(args, [CloseParen] + rest);
    PostfixReaches(f, [OpenParen] + tail);
    ArgsReadBack(args, [CloseParen] + rest);
    assert PostfixRest(f, [OpenParen] + tail) == PostfixRest(Call(f, args), rest);
  }

  lemma {:induction false} ArgsReadBack(args: seq<Expr>, rest: seq<Token>)
    requires GrammaticalArgs(args) && At(rest, CloseParen)
    ensures ParseArgs(EmitArgs(args, rest)) == ParsedArgs(args, rest)
    ensures args != [] ==> ParseArgList(EmitArgs(args, rest)) == ParsedArgs(args, rest)
    decreases args, 0
  {
    if args != [] {
      var after := if |args| == 1 then rest else [CommaTok] + EmitArgs(args[1..], rest);
      ReadsBack(ASSIGNMENT, args[0], after);
      FirstIsNoCloser(args[0], after);
      if |args| == 1 {
        assert args == [args[0]];
      } else {
        ArgsReadBack(args[1..], rest);
        assert args == [args[0]] + args[1..];
      }
    }
  }

  /** No expression starts with a token that ends one. */
  lemma {:induction false} FirstIsNoCloser(e: Expr, rest: seq<Token>)
    ensures Emit(e, rest) != [] && Emit(e, rest)[0] !in {CloseParen, Colon}
    decreases e
  {
    match e
    case Index(b, i) => FirstIsNoCloser(b, [OpenSquare] + Emit(i, [CloseSquare] + rest));
    case Call(f, args) => FirstIsNoCloser(f, [OpenParen] + EmitArgs(args, [CloseParen] + rest));
    case Member(b, dot, field) => FirstIsNoCloser(b, [if dot then Dot else Arrow] + ([Ident(field)] + rest));
    case PostStep(inc, b) => FirstIsNoCloser(b, [if inc then Increment else Decrement] + rest);
    case Binary(op, l, r) => FirstIsNoCloser(l, [Operator(op)] + Emit(r, rest));
    case Cond(c, m, f) => FirstIsNoCloser(c, CondTail(m, f, rest));
    case Assign(l, r) => FirstIsNoCloser(l, [AssignTok] + Emit(r, rest));
    case CompAssign(op, l, r) => FirstIsNoCloser(l, [CompoundAssign(op)] + Emit(r, rest));
    case Comma(l, r) => FirstIsNoCloser(l, [CommaTok] + Emit(r, rest));
    case _ =>
  }

  /** What follows the tested operand of `?:`. */
  function CondTail(m: Middle, f: Expr, rest: seq<Token>): seq<Token> {
    [Question] + (match m
                  case NoMiddle => [Colon] + Emit(f, rest)
                  case Mid(t) => Emit(t, [Colon] + Emit(f, rest)))
  }

  lemma {:induction false} UnaryReadsBack(e: Expr, rest: seq<Token>)
    requires Grammatical(e) && Rank(e) >= UNARY && !Continues(UNARY, e, rest)
    ensures ParseUnary(Emit(e, rest)) == Parsed(e, rest)
    decreases e, 2
  {
    if Rank(e) >= POSTFIX {
      PostfixReaches(e, rest);
      StartsPrimary(e, rest);
      PostfixStep(e, rest);
    } else if e.LabelAddr? {
      LabelStep(e, rest);
    } else {
      UnaryReadsBack(e.sub, rest);
      PrefixStep(e, rest);
    }
  }

  lemma PostfixStep(e: Expr, rest: seq<Token>)
    requires Rank(e) >= POSTFIX && !Continues(UNARY, e, rest)
    requires ParsePostfix(Emit(e, rest)) == PostfixRest(e, rest)
    requires var t := Emit(e, rest); t != [] && (t[0].Ident? || t[0].Number? || t[0] == OpenParen)
    ensures ParseUnary(Emit(e, rest)) == Parsed(e, rest)
  {
    NoPrefix(Emit(e, rest));
    NoPostfix(e, rest);
  }

  lemma NoPostfix(e: Expr, rest: seq<Token>)
    requires Rank(e) >= POSTFIX && !Continues(UNARY, e, rest)
    ensures PostfixRest(e, rest) == Parsed(e, rest)
  {}

  lemma LabelStep(e: Expr, rest: seq<Token>)
    requires e.LabelAddr? && Grammatical(e) && !Continues(UNARY, e, rest)
    ensures ParseUnary(Emit(e, rest)) == Parsed(e, rest)
  {
    assert Emit(e, rest)[2..] == rest;
  }

  lemma NoPrefix(toks: seq<Token>)
    requires toks != [] && (toks[0].Ident? || toks[0].Number? || toks[0] == OpenParen)
    ensures ParseUnary(toks) == ParsePostfix(toks)
  {}

  lemma PrefixStep(e: Expr, rest: seq<Token>)
    requires Grammatical(e) && UNARY <= Rank(e) < POSTFIX && !e.LabelAddr?
    requires ParseUnary(Emit(e.sub, rest)) == Parsed(e.sub, rest)
    ensures ParseUnary(Emit(e, rest)) == Parsed(e, rest)
  {
    assert Emit(e, rest)[1..] == Emit(e.sub, rest);
  }

  lemma {:induction false} StartsPrimary(e: Expr, rest: seq<Token>)
    requires Grammatical(e) && Rank(e) >= POSTFIX
    ensures var t := Emit(e, rest); t != [] && (t[0].Ident? || t[0].Number? || t[0] == OpenParen)
    decreases e
  {
    match e
    case Index(b, i) => StartsPrimary(b, [OpenSquare] + Emit(i, [CloseSquare] + rest));
    case Call(f, args) => StartsPrimary(f, [OpenParen] + EmitArgs(args, [CloseParen] + rest));
    case Member(b, dot, field) => StartsPrimary(b, [if dot then Dot else Arrow] + ([Ident(field)] + rest));
    case PostStep(inc, b) => StartsPrimary(b, [if inc then Increment else Decrement] + rest);
    case _ =>
  }

  /** Reading the text of an expression brings the loop of `level` to what follows it, even when that
      is another operator of the same level: left-associative chains are read from the left. */
  lemma {:induction false} BinaryReaches(level: nat, e: Expr, rest: seq<Token>)
    requires LOGICAL_OR <= level <= MULTI
    requires Grammatical(e) && Rank(e) >= level && !Continues(level + 1, e, rest)
    ensures ParseBinary(level, Emit(e, rest)) == BinaryRest(level, e, rest)
    decreases e, 20 - level, 0
  {
    if Rank(e) > level {
      BinaryReadsBack(level + 1, e, rest);
    } else {
      var Binary(op, l, r) := e;
      BinaryReaches(level, l, [Operator(op)] + Emit(r, rest));
      BinaryReadsBack(level + 1, r, rest);
    }
  }

  lemma {:induction false} BinaryReadsBack(level: nat, e: Expr, rest: seq<Token>)
    requires LOGICAL_OR <= level <= UNARY
    requires Grammatical(e) && Rank(e) >= level && !Continues(level, e, rest)
    ensures ParseBinary(level, Emit(e, rest)) == Parsed(e, rest)
    decreases e, 20 - level, 1
  {
    if level == UNARY {
      UnaryReadsBack(e, rest);
    } else {
      BinaryReaches(level, e, rest);
    }
  }

  lemma {:induction false} ConditionalReadsBack(e: Expr, rest: seq<Token>)
    requires Grammatical(e) && Rank(e) >= CONDITIONAL && !Continues(CONDITIONAL, e, rest)
    ensures ParseConditional(Emit(e, rest)) == Parsed(e, rest)
    decreases e, 20
  {
    if !e.Cond? {
      BinaryReadsBack(LOGICAL_OR, e, rest);
      NoQuestion(e, rest);
      return;
    }
    var Cond(c, m, f) := e;
    BinaryReadsBack(LOGICAL_OR, c, CondTail(m, f, rest));
    ConditionalReadsBack(f, rest);
    if m.Mid? {
      ReadsBack(EXP, m.e, [Colon] + Emit(f, rest));
      FirstIsNoCloser(m.e, [Colon] + Emit(f, rest));
    }
    CondStep(c, m, f, rest);
  }

  lemma NoQuestion(e: Expr, rest: seq<Token>)
    requires ParseBinary(LOGICAL_OR, Emit(e, rest)) == Parsed(e, rest) && !Continues(CONDITIONAL, e, rest)
    ensures ParseConditional(Emit(e, rest)) == Parsed(e, rest)
  {}

  lemma CondStep(c: Expr, m: Middle, f: Expr, rest: seq<Token>)
    requires ParseBinary(LOGICAL_OR, Emit(c, CondTail(m, f, rest))) == Parsed(c, CondTail(m, f, rest))
    requires ParseConditional(Emit(f, rest)) == Parsed(f, rest)
    requires m.Mid? ==>
               var t := Emit(m.e, [Colon] + Emit(f, rest));
               ParseExp(t) == Parsed(m.e, [Colon] + Emit(f, rest)) && !At(t, Colon)
    ensures ParseConditional(Emit(c, CondTail(m, f, rest))) == Parsed(Cond(c, m, f), rest)
  {
    if m.NoMiddle? { CondWithout(c, f, rest); } else { CondWith(c, m.e, f, rest); }
  }

  lemma CondWithout(c: Expr, f: Expr, rest: seq<Token>)
    requires ParseBinary(LOGICAL_OR, Emit(c, CondTail(NoMiddle, f, rest))) == Parsed(c, CondTail(NoMiddle, f, rest))
    requires ParseConditional(Emit(f, rest)) == Parsed(f, rest)
    ensures ParseConditional(Emit(c, CondTail(NoMiddle, f, rest))) == Parsed(Cond(c, NoMiddle, f), rest)
  {
    assert CondTail(NoMiddle, f, rest)[2..] == Emit(f, rest);
  }

  lemma CondWith(c: Expr, m: Expr, f: Expr, rest: seq<Token>)
    requires ParseBinary(LOGICAL_OR, Emit(c, CondTail(Mid(m), f, rest))) == Parsed(c, CondTail(Mid(m), f, rest))
    requires ParseConditional(Emit(f, rest)) == Parsed(f, rest)
    requires var t := Emit(m, [Colon] + Emit(f, rest)); ParseExp(t) == Parsed(m, [Colon] + Emit(f, rest)) && !At(t,
              Colon)
    ensures ParseConditional(Emit(c, CondTail(Mid(m), f, rest))) == Parsed(Cond(c, Mid(m), f), rest)
  {
    assert CondTail(Mid(m), f, rest)[1..] == Emit(m, [Colon] + Emit(f, rest));
    assert ([Colon] + Emit(f, rest))[1..] == Emit(f, rest);
  }

  lemma {:induction false} AssignmentReadsBack(e: Expr, rest: seq<Token>)
    requires Grammatical(e) && Rank(e) >= ASSIGNMENT && !Continues(ASSIGNMENT, e, rest)
    ensures ParseAssignment(Emit(e, rest)) == Parsed(e, rest)
    decreases e, 21
  {
    if e.Assign? {
      ConditionalReadsBack(e.lhs, [AssignTok] + Emit(e.rhs, rest));
      AssignmentReadsBack(e.rhs, rest);
      AssignIsRead(e.lhs, e.rhs, rest);
    } else if e.CompAssign? {
      ConditionalReadsBack(e.lhs, [CompoundAssign(e.op)] + Emit(e.rhs, rest));
      AssignmentReadsBack(e.rhs, rest);
      CompoundIsRead(e.op, e.lhs, e.rhs, rest);
    } else {
      ConditionalReadsBack(e, rest);
      NoAssign(e, rest);
    }
  }

  lemma AssignIsRead(l: Expr, r: Expr, rest: seq<Token>)
    requires var after := [AssignTok] + Emit(r, rest); ParseConditional(Emit(l, after)) == Parsed(l, after)
    requires ParseAssignment(Emit(r, rest)) == Parsed(r, rest)
    ensures ParseAssignment(Emit(Assign(l, r), rest)) == Parsed(Assign(l, r), rest)
  {
    assert ([AssignTok] + Emit(r, rest))[1..] == Emit(r, rest);
  }

  lemma CompoundIsRead(op: Op, l: Expr, r: Expr, rest: seq<Token>)
    requires var after := [CompoundAssign(op)] + Emit(r, rest); ParseConditional(Emit(l, after)) == Parsed(l, after)
    requires ParseAssignment(Emit(r, rest)) == Parsed(r, rest) && IsCompound(op)
    ensures ParseAssignment(Emit(CompAssign(op, l, r), rest)) == Parsed(CompAssign(op, l, r), rest)
  {
    assert ([CompoundAssign(op)] + Emit(r, rest))[1..] == Emit(r, rest);
  }

  lemma NoAssign(e: Expr, rest: seq<Token>)
    requires ParseConditional(Emit(e, rest)) == Parsed(e, rest) && !Continues(ASSIGNMENT, e, rest)
    ensures ParseAssignment(Emit(e, rest)) == Parsed(e, rest)
  {}

  lemma {:induction false} ExpReadsBack(e: Expr, rest: seq<Token>)
    requires Grammatical(e) && !Continues(EXP, e, rest)
    ensures ParseExp(Emit(e, rest)) == Parsed(e, rest)
    decreases e, 22
  {
    if e.Comma? {
      AssignmentReadsBack(e.lhs, [CommaTok] + Emit(e.rhs, rest));
      ExpReadsBack(e.rhs, rest);
    } else {
      AssignmentReadsBack(e, rest);
    }
  }

  /** Parsing the text of a grammatical expression returns it and stops at the first foreign token. */
  lemma {:induction false} ReadsBack(level: nat, e: Expr, rest: seq<Token>)
    requires level <= PRIMARY && Grammatical(e) && Rank(e) >= level && !Continues(level, e, rest)
    ensures ParseAt(level, Emit(e, rest)) == Parsed(e, rest)
    decreases e, 23
  {
    if level == EXP {
      ExpReadsBack(e, rest);
    } else if level == ASSIGNMENT {
      AssignmentReadsBack(e, rest);
    } else if level == CONDITIONAL {
      ConditionalReadsBack(e, rest);
    } else if level <= UNARY {
      BinaryReadsBack(level, e, rest);
    } else if level == POSTFIX {
      PostfixReaches(e, rest);
      NoPostfixAt(e, rest);
    } else if e.Paren? {
      ExpReadsBack(e.inner, [CloseParen] + rest);
    }
  }

  lemma NoPostfixAt(e: Expr, rest: seq<Token>)
    requires Rank(e) >= POSTFIX && !Continues(POSTFIX, e, rest)
    ensures PostfixRest(e, rest) == Parsed(e, rest)
  {}

  // ---- Soundness: whatever is parsed was a grammatical expression -----------------------------

  /** `r` is a correct reading of `toks` at `level`. */
  ghost predicate Faithful(level: nat, toks: seq<Token>, r: Outcome) {
    r.Parsed? ==>
      && Grammatical(r.e) && Rank(r.e) >= level
      && toks == Emit(r.e, r.rest) && !Continues(level, r.e, r.rest)
  }

  lemma Uncons(toks: seq<Token>)
    requires toks != []
    ensures toks == [toks[0]] + toks[1..]
    ensures |toks| > 1 ==> toks[1..] == [toks[1]] + toks[2..]
  {}

  lemma {:induction false} ExpFaithful(toks: seq<Token>)
    ensures Faithful(EXP, toks, ParseExp(toks))
    decreases |toks|, 20
  {
    AssignmentFaithful(toks);
    var l := ParseAssignment(toks);
    if l.Parsed? && At(l.rest, CommaTok) {
      Uncons(l.rest);
      ExpFaithful(l.rest[1..]);
    }
  }

  lemma {:induction false} AssignmentFaithful(toks: seq<Token>)
    ensures Faithful(ASSIGNMENT, toks, ParseAssignment(toks))
    decreases |toks|, 19
  {
    ConditionalFaithful(toks);
    var l := ParseConditional(toks);
    if l.Parsed? && l.rest != [] {
      AssignmentFaithful(l.rest[1..]);
      if At(l.rest, AssignTok) { AssignStep(toks, l); } else { CompoundStep(toks, l); }
    }
  }

  lemma AssignStep(toks: seq<Token>, l: Outcome)
    requires l == ParseConditional(toks) && l.Parsed? && Faithful(CONDITIONAL, toks, l) && At(l.rest, AssignTok)
    requires Faithful(ASSIGNMENT, l.rest[1..], ParseAssignment(l.rest[1..]))
    ensures Faithful(ASSIGNMENT, toks, ParseAssignment(toks))
  {
    Uncons(l.rest);
  }

  lemma CompoundStep(toks: seq<Token>, l: Outcome)
    requires l == ParseConditional(toks) && l.Parsed? && Faithful(CONDITIONAL, toks, l) && l.rest != []
    requires !At(l.rest, AssignTok) && Faithful(ASSIGNMENT, l.rest[1..], ParseAssignment(l.rest[1..]))
    ensures Faithful(ASSIGNMENT, toks, ParseAssignment(toks))
  {
    Uncons(l.rest);
  }

  lemma {:induction false} ConditionalFaithful(toks: seq<Token>)
    ensures Faithful(CONDITIONAL, toks, ParseConditional(toks))
    decreases |toks|, 18
  {
    BinaryFaithful(LOGICAL_OR, toks);
    var c := ParseBinary(LOGICAL_OR, toks);
    if c.Parsed? && At(c.rest, Question) {
      Uncons(c.rest);
      if At(c.rest[1..], Colon) {
        ConditionalFaithful(c.rest[2..]);
      } else {
        ExpFaithful(c.rest[1..]);
        var m := ParseExp(c.rest[1..]);
        if m.Parsed? && At(m.rest, Colon) {
          ConditionalFaithful(m.rest[1..]);
          CondFaithfulStep(toks, c, m, ParseConditional(m.rest[1..]));
        }
      }
    }
  }

  lemma CondFaithfulStep(toks: seq<Token>, c: Outcome, m: Outcome, f: Outcome)
    requires c == ParseBinary(LOGICAL_OR, toks) && c.Parsed? && Faithful(LOGICAL_OR, toks, c)
    requires At(c.rest, Question) && !At(c.rest[1..], Colon)
    requires m == ParseExp(c.rest[1..]) && m.Parsed? && Faithful(EXP, c.rest[1..], m) && At(m.rest, Colon)
    requires f == ParseConditional(m.rest[1..]) && Faithful(CONDITIONAL, m.rest[1..], f)
    ensures Faithful(CONDITIONAL, toks, ParseConditional(toks))
  {
    Uncons(c.rest);
    Uncons(m.rest);
  }

  lemma {:induction false} BinaryFaithful(level: nat, toks: seq<Token>)
    requires LOGICAL_OR <= level <= UNARY
    ensures Faithful(level, toks, ParseBinary(level, toks))
    decreases |toks|, 17 - level, 1
  {
    if level == UNARY {
      UnaryFaithful(toks);
    } else {
      BinaryFaithful(level + 1, toks);
      var l := ParseBinary(level + 1, toks);
      if l.Parsed? {
        BinaryRestFaithful(level, l.e, l.rest);
      }
    }
  }

  lemma {:induction false} BinaryRestFaithful(level: nat, e: Expr, toks: seq<Token>)
    requires LOGICAL_OR <= level <= MULTI
    requires Grammatical(e) && Rank(e) >= level && !Continues(level + 1, e, toks)
    ensures Faithful(level, Emit(e, toks), BinaryRest(level, e, toks))
    decreases |toks|, 17 - level, 0
  {
    if toks != [] && toks[0].Operator? && Prec(toks[0].op) == level {
      BinaryFaithful(level + 1, toks[1..]);
      var r := ParseBinary(level + 1, toks[1..]);
      if r.Parsed? {
        BinaryTurn(level, e, toks, r);
        BinaryRestFaithful(level, Binary(toks[0].op, e, r.e), r.rest);
      }
    }
  }

  lemma BinaryTurn(level: nat, e: Expr, toks: seq<Token>, r: Outcome)
    requires LOGICAL_OR <= level <= MULTI
    requires Grammatical(e) && Rank(e) >= level && !Continues(level + 1, e, toks)
    requires toks != [] && toks[0].Operator? && Prec(toks[0].op) == level
    requires r == ParseBinary(level + 1, toks[1..]) && r.Parsed? && Faithful(level + 1, toks[1..], r)
    ensures var e' := Binary(toks[0].op, e, r.e);
            && Grammatical(e') && Rank(e') >= level && !Continues(level + 1, e', r.rest)
            && Emit(e, toks) == Emit(e', r.rest) && BinaryRest(level, e, toks) == BinaryRest(level, e', r.rest)
  {
    Uncons(toks);
  }

  lemma {:induction false} UnaryFaithful(toks: seq<Token>)
    ensures Faithful(UNARY, toks, ParseUnary(toks))
    decreases |toks|, 3
  {
    if toks == [] { return; }
    Uncons(toks);
    var t := toks[0];
    if t == Operator(AndSc) {
      LabelTurn(toks);
    } else if StartsUnary(t) {
      UnaryFaithful(toks[1..]);
      var sub := ParseUnary(toks[1..]);
      if sub.Parsed? {
        PrefixTurn(t, sub.e, sub.rest);
        assert toks == [t] + toks[1..];
      }
    } else {
      PostfixFaithful(toks);
    }
  }

  lemma PrefixTurn(t: Token, sub: Expr, rest: seq<Token>)
    requires StartsUnary(t) && Grammatical(sub) && Rank(sub) >= UNARY
    ensures var e := Prefixed(t, sub);
            && Grammatical(e) && Rank(e) == UNARY && Emit(e, rest) == [t] + Emit(sub, rest)
            && (Continues(UNARY, e, rest) <==> Continues(UNARY, sub, rest))
  {}

  lemma LabelTurn(toks: seq<Token>)
    requires toks != [] && toks[0] == Operator(AndSc)
    ensures Faithful(UNARY, toks, ParseUnary(toks))
  {
    Uncons(toks);
  }

  lemma {:induction false} PostfixFaithful(toks: seq<Token>)
    ensures Faithful(POSTFIX, toks, ParsePostfix(toks))
    decreases |toks|, 2
  {
    PrimaryFaithful(toks);
    var p := ParsePrimary(toks);
    if p.Parsed? {
      PostfixRestFaithful(p.e, p.rest);
    }
  }

  lemma {:induction false} PostfixRestFaithful(e: Expr, toks: seq<Token>)
    requires Grammatical(e) && Rank(e) >= POSTFIX
    ensures Faithful(POSTFIX, Emit(e, toks), PostfixRest(e, toks))
    decreases |toks|, 0
  {
    if toks == [] { return; }
    Uncons(toks);
    match toks[0]
    case OpenSquare =>
      ExpFaithful(toks[1..]);
      var i := ParseExp(toks[1..]);
      if i.Parsed? && At(i.rest, CloseSquare) {
        IndexTurn(e, toks, i);
        PostfixRestFaithful(Index(e, i.e), i.rest[1..]);
      }
    case OpenParen =>
      ArgsFaithful(toks[1..]);
      var a := ParseArgs(toks[1..]);
      if a.ParsedArgs? && At(a.rest, CloseParen) {
        CallTurn(e, toks, a);
        PostfixRestFaithful(Call(e, a.args), a.rest[1..]);
      }
    case Dot =>
      if |toks| > 1 && toks[1].Ident? {
        MemberTurn(e, toks);
        PostfixRestFaithful(Member(e, true, toks[1].name), toks[2..]);
      }
    case Arrow =>
      if |toks| > 1 && toks[1].Ident? {
        MemberTurn(e, toks);
        PostfixRestFaithful(Member(e, false, toks[1].name), toks[2..]);
      }
    case Increment => StepTurn(e, toks); PostfixRestFaithful(PostStep(true, e), toks[1..]);
    case Decrement => StepTurn(e, toks); PostfixRestFaithful(PostStep(false, e), toks[1..]);
    case _ =>
  }

  lemma MemberTurn(e: Expr, toks: seq<Token>)
    requires Grammatical(e) && Rank(e) >= POSTFIX && |toks| > 1 && (toks[0].Dot? || toks[0].Arrow?) && toks[1].Ident?
    ensures var e' := Member(e, toks[0].Dot?, toks[1].name);
            && Grammatical(e') && PostfixRest(e, toks) == PostfixRest(e', toks[2..])
            && Emit(e, toks) == Emit(e', toks[2..])
  {
    Uncons(toks);
  }

  lemma StepTurn(e: Expr, toks: seq<Token>)
    requires Grammatical(e) && Rank(e) >= POSTFIX && toks != [] && (toks[0].Increment? || toks[0].Decrement?)
    ensures var e' := PostStep(toks[0].Increment?, e);
            && Grammatical(e') && PostfixRest(e, toks) == PostfixRest(e', toks[1..])
            && Emit(e, toks) == Emit(e', toks[1..])
  {
    Uncons(toks);
  }

  lemma IndexTurn(e: Expr, toks: seq<Token>, i: Outcome)
    requires Grammatical(e) && Rank(e) >= POSTFIX && At(toks, OpenSquare) && i == ParseExp(toks[1..])
    requires i.Parsed? && Faithful(EXP, toks[1..], i) && At(i.rest, CloseSquare)
    ensures PostfixRest(e, toks) == PostfixRest(Index(e, i.e), i.rest[1..])
    ensures Grammatical(Index(e, i.e)) && Emit(e, toks) == Emit(Index(e, i.e), i.rest[1..])
  {
    Uncons(toks);
    Uncons(i.rest);
  }

  lemma CallTurn(e: Expr, toks: seq<Token>, a: ArgsOutcome)
    requires Grammatical(e) && Rank(e) >= POSTFIX && At(toks, OpenParen) && a == ParseArgs(toks[1..])
    requires a.ParsedArgs? && GrammaticalArgs(a.args) && toks[1..] == EmitArgs(a.args, a.rest) && At(a.rest, CloseParen)
    ensures PostfixRest(e, toks) == PostfixRest(Call(e, a.args), a.rest[1..])
    ensures Grammatical(Call(e, a.args)) && Emit(e, toks) == Emit(Call(e, a.args), a.rest[1..])
  {
    Uncons(toks);
    Uncons(a.rest);
  }

  lemma {:induction false} ArgsFaithful(toks: seq<Token>)
    ensures var r := ParseArgs(toks); r.ParsedArgs? ==> GrammaticalArgs(r.args) && toks == EmitArgs(r.args, r.rest)
    decreases |toks|, 31
  {
    if !At(toks, CloseParen) {
      ArgListFaithful(toks);
    }
  }

  lemma {:induction false} ArgListFaithful(toks: seq<Token>)
    ensures var r := ParseArgList(toks); r.ParsedArgs? ==> GrammaticalArgs(r.args) && toks == EmitArgs(r.args, r.rest)
    decreases |toks|, 30
  {
    AssignmentFaithful(toks);
    var a := ParseAssignment(toks);
    if a.Parsed? && At(a.rest, CommaTok) {
      Uncons(a.rest);
      ArgListFaithful(a.rest[1..]);
      var more := ParseArgList(a.rest[1..]);
      if more.ParsedArgs? {
        assert ([a.e] + more.args)[1..] == more.args;
      }
    }
  }

  lemma {:induction false} PrimaryFaithful(toks: seq<Token>)
    ensures Faithful(PRIMARY, toks, ParsePrimary(toks))
    decreases |toks|, 1
  {
    if toks != [] {
      Uncons(toks);
      ExpFaithful(toks[1..]);
      var i := ParseExp(toks[1..]);
      if i.Parsed? && i.rest != [] {
        Uncons(i.rest);
      }
    }
  }

  lemma AtFaithful(level: nat, toks: seq<Token>)
    requires level <= PRIMARY
    ensures Faithful(level, toks, ParseAt(level, toks))
  {
    if level == EXP {
      ExpFaithful(toks);
    } else if level == ASSIGNMENT {
      AssignmentFaithful(toks);
    } else if level == CONDITIONAL {
      ConditionalFaithful(toks);
    } else if level <= UNARY {
      BinaryFaithful(level, toks);
    } else if level == POSTFIX {
      PostfixFaithful(toks);
    } else {
      PrimaryFaithful(toks);
    }
  }

  // ---- The main results ----------------------------------------------------------------------

  /** A parse succeeds with a tree and a remainder exactly when the tree is grammatical at that level,
      its text followed by the remainder is the input, and the remainder starts with a foreign token. */
  lemma ParseIsInverseOfText(level: nat, toks: seq<Token>, e: Expr, rest: seq<Token>)
    requires level <= PRIMARY
    ensures ParseAt(level, toks) == Parsed(e, rest) <==>
            Grammatical(e) && Rank(e) >= level && toks == Emit(e, rest) && !Continues(level, e, rest)
  {
    AtFaithful(level, toks);
    if Grammatical(e) && Rank(e) >= level && toks == Emit(e, rest) && !Continues(level, e, rest) {
      ReadsBack(level, e, rest);
    }
  }

  /** Two grammatical expressions written with the same tokens are the same expression. */
  lemma Unambiguous(e1: Expr, e2: Expr)
    requires Grammatical(e1) && Grammatical(e2)
    requires Emit(e1, []) == Emit(e2, [])
    ensures e1 == e2
  {
    ReadsBack(EXP, e1, []);
    ReadsBack(EXP, e2, []);
  }

  // ---- Writing a tree with only the parentheses it needs ----------------------------------------

  /** A tree as the later phases see it: every operator in a place its token can stand, no parentheses. */
  predicate Buildable(e: Expr)
    decreases e, 1
  {
    match e
    case Name(_) | Num(_) | LabelAddr(_) => true
    case Paren(_) => false
    case Index(b, i) => Buildable(b) && Buildable(i)
    case Call(f, args) => Buildable(f) && BuildableArgs(args)
    case Member(b, _, _) => Buildable(b)
    case PostStep(_, b) => Buildable(b)
    case PreStep(_, s) => Buildable(s)
    case AddrOf(s) => Buildable(s)
    case Deref(s) => Buildable(s)
    case Unary(op, s) => IsPrefix(op) && Buildable(s)
    case Binary(op, l, r) => Prec(op) >= LOGICAL_OR && Buildable(l) && Buildable(r)
    case Cond(c, m, f) => Buildable(c) && Buildable(f) && (m.Mid? ==> Buildable(m.e))
    case Assign(l, r) => Buildable(l) && Buildable(r)
    case CompAssign(op, l, r) => IsCompound(op) && Buildable(l) && Buildable(r)
    case Comma(l, r) => Buildable(l) && Buildable(r)
  }

  predicate BuildableArgs(args: seq<Expr>)
    decreases args, 0
  {
    args == [] || (Buildable(args[0]) && BuildableArgs(args[1..]))
  }

  function Fit(level: nat, e: Expr): Expr {
    if Rank(e) >= level then e else Paren(e)
  }

  /** Parentheses around exactly the operands that bind more loosely than their place allows. */
  function Parenthesise(e: Expr): Expr
    decreases e, 1
  {
    match e
    case Name(_) | Num(_) | LabelAddr(_) | Paren(_) => e
    case Index(b, i) => Index(Fit(POSTFIX, Parenthesise(b)), Parenthesise(i))
    case Call(f, args) => Call(Fit(POSTFIX, Parenthesise(f)), ParenthesiseArgs(args))
    case Member(b, dot, field) => Member(Fit(POSTFIX, Parenthesise(b)), dot, field)
    case PostStep(inc, b) => PostStep(inc, Fit(POSTFIX, Parenthesise(b)))
    case PreStep(inc, s) => PreStep(inc, Fit(UNARY, Parenthesise(s)))
    case AddrOf(s) => AddrOf(Fit(UNARY, Parenthesise(s)))
    case Deref(s) => Deref(Fit(UNARY, Parenthesise(s)))
    case Unary(op, s) => Unary(op, Fit(UNARY, Parenthesise(s)))
    case Binary(op, l, r) => Binary(op, Fit(Prec(op), Parenthesise(l)), Fit(Prec(op) + 1, Parenthesise(r)))
    case Cond(c, m, f) =>
      Cond(Fit(LOGICAL_OR, Parenthesise(c)),
           (match m case NoMiddle => NoMiddle case Mid(t) => Mid(Parenthesise(t))),
           Fit(CONDITIONAL, Parenthesise(f)))
    case Assign(l, r) => Assign(Fit(CONDITIONAL, Parenthesise(l)), Fit(ASSIGNMENT, Parenthesise(r)))
    case CompAssign(op, l, r) => CompAssign(op, Fit(CONDITIONAL, Parenthesise(l)), Fit(ASSIGNMENT, Parenthesise(r)))
    case Comma(l, r) => Comma(Fit(ASSIGNMENT, Parenthesise(l)), Parenthesise(r))
  }

  function ParenthesiseArgs(args: seq<Expr>): (r: seq<Expr>)
    ensures |r| == |args|
    decreases args, 0
  {
    if args == [] then [] else [Fit(ASSIGNMENT, Parenthesise(args[0]))] + ParenthesiseArgs(args[1..])
  }

  /** The tree without its `Paren` nodes. */
  function Strip(e: Expr): Expr
    decreases e, 1
  {
    match e
    case Name(_) | Num(_) | LabelAddr(_) => e
    case Paren(i) => Strip(i)
    case Index(b, i) => Index(Strip(b), Strip(i))
    case Call(f, args) => Call(Strip(f), StripArgs(args))
    case Member(b, dot, field) => Member(Strip(b), dot, field)
    case PostStep(inc, b) => PostStep(inc, Strip(b))
    case PreStep(inc, s) => PreStep(inc, Strip(s))
    case AddrOf(s) => AddrOf(Strip(s))
    case Deref(s) => Deref(Strip(s))
    case Unary(op, s) => Unary(op, Strip(s))
    case Binary(op, l, r) => Binary(op, Strip(l), Strip(r))
    case Cond(c, m, f) =>
      Cond(Strip(c), (match m case NoMiddle => NoMiddle case Mid(t) => Mid(Strip(t))), Strip(f))
    case Assign(l, r) => Assign(Strip(l), Strip(r))
    case CompAssign(op, l, r) => CompAssign(op, Strip(l), Strip(r))
    case Comma(l, r) => Comma(Strip(l), Strip(r))
  }

  function StripArgs(args: seq<Expr>): seq<Expr>
    decreases args, 0
  {
    if args == [] then [] else [Strip(args[0])] + StripArgs(args[1..])
  }

  /** `Parenthesise` makes `e` grammatical, keeps its rank, adds only parentheses, and none if none are needed. */
  ghost predicate WellParenthesised(e: Expr) {
    && Grammatical(Parenthesise(e))
    && Rank(Parenthesise(e)) == Rank(e)
    && Strip(Parenthesise(e)) == e
    && (Grammatical(e) ==> Parenthesise(e) == e)
  }

  lemma {:induction false} ParenthesisedIsGrammatical(e: Expr)
    requires Buildable(e)
    ensures WellParenthesised(e)
    decreases e, 1
  {
    if e.Name? || e.Num? || e.LabelAddr? {
    } else if Rank(e) == POSTFIX {
      PostfixParenthesised(e);
    } else if Rank(e) == UNARY {
      UnaryParenthesised(e);
    } else if e.Cond? {
      ParenthesisedIsGrammatical(e.test);
      ParenthesisedIsGrammatical(e.els);
      if e.thn.Mid? { ParenthesisedIsGrammatical(e.thn.e); }
    } else {
      InfixParenthesised(e);
    }
  }

  lemma {:induction false} UnaryParenthesised(e: Expr)
    requires Buildable(e) && (e.PreStep? || e.AddrOf? || e.Deref? || e.Unary?)
    ensures WellParenthesised(e)
    decreases e, 0
  {
    ParenthesisedIsGrammatical(e.sub);
  }

  lemma {:induction false} InfixParenthesised(e: Expr)
    requires Buildable(e) && (e.Binary? || e.Assign? || e.CompAssign? || e.Comma?)
    ensures WellParenthesised(e)
    decreases e, 0
  {
    ParenthesisedIsGrammatical(e.lhs);
    ParenthesisedIsGrammatical(e.rhs);
    if e.Binary? { BinaryParenthesised(e); }
  }

  lemma BinaryParenthesised(e: Expr)
    requires e.Binary? && Buildable(e) && WellParenthesised(e.lhs) && WellParenthesised(e.rhs)
    ensures WellParenthesised(e)
  {}

  lemma {:induction false} PostfixParenthesised(e: Expr)
    requires Buildable(e) && Rank(e) == POSTFIX
    ensures WellParenthesised(e)
    decreases e, 0
  {
    if e.Call? {
      ParenthesisedIsGrammatical(e.fn);
      ArgsParenthesised(e.args);
    } else {
      ParenthesisedIsGrammatical(e.base);
      if e.Index? { ParenthesisedIsGrammatical(e.idx); }
    }
  }

  lemma {:induction false} ArgsParenthesised(args: seq<Expr>)
    requires BuildableArgs(args)
    ensures var p := ParenthesiseArgs(args); GrammaticalArgs(p) && StripArgs(p) == args
    ensures GrammaticalArgs(args) ==> ParenthesiseArgs(args) == args
    decreases args, 0
  {
    if args != [] {
      ParenthesisedIsGrammatical(args[0]);
      ArgsParenthesised(args[1..]);
      var p := ParenthesiseArgs(args);
      assert p[1..] == ParenthesiseArgs(args[1..]);
      assert args == [args[0]] + args[1..];
    }
  }

  /** Printing a tree with only the parentheses precedence requires and parsing it gives the tree back. */
  lemma ParsePrintedTree(e: Expr, rest: seq<Token>)
    requires Buildable(e) && !Continues(EXP, Parenthesise(e), rest)
    ensures var r := ParseExp(Emit(Parenthesise(e), rest)); r.Parsed? && Strip(r.e) == e && r.rest == rest
  {
    ParenthesisedIsGrammatical(e);
    ReadsBack(EXP, Parenthesise(e), rest);
  }

  /** The parentheses are needed: a tree that would get some is never the result of any parse as it stands. */
  lemma ParenthesesAreNeeded(e: Expr, level: nat, toks: seq<Token>)
    requires Buildable(e) && level <= PRIMARY
    requires Parenthesise(e) != e
    ensures ParseAt(level, toks).Parsed? ==> ParseAt(level, toks).e != e
  {
    ParenthesisedIsGrammatical(e);
    AtFaithful(level, toks);
  }
}
