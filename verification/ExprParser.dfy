/**
  The expression parser of cc1 (src/cc1/parse_expr.c).

  Operator tokens are named by the operation they convert to (curtok_to_op is one-to-one on
  them), so `*`, `&` and `&&` are the same tokens in prefix and infix position, as they are for the
  parser.  A parenthesised expression, which the source marks with `in_parens`, is a `Paren` node.
*/
module ExprSyntax {

  datatype Op =
    | Multiply | Divide | Modulus | Plus | Minus | ShiftL | ShiftR
    | Lt | Gt | Le | Ge | Eq | Ne | And | Xor | Or | AndSc | OrSc | Not | BNot

  datatype Token =
    | Ident(name: string) | Number(val: int)
    | OpenParen | CloseParen | OpenSquare | CloseSquare
    | Dot | Arrow | Increment | Decrement
    | Operator(op: Op) | Question | Colon | AssignTok | CompoundAssign(op: Op) | CommaTok

  /** `PreStep` and `PostStep` are the compound assignments by one that `++` and `--` build;
      `Index` is the dereferenced sum that carries the array_notation mark. */
  datatype Expr =
    | Name(name: string)
    | Num(val: int)
    | Paren(inner: Expr)
    | Index(base: Expr, idx: Expr)
    | Call(fn: Expr, args: seq<Expr>)
    | Member(base: Expr, dot: bool, field: string)
    | PostStep(inc: bool, base: Expr)
    | PreStep(inc: bool, sub: Expr)
    | LabelAddr(label_: string)
    | AddrOf(sub: Expr)
    | Deref(sub: Expr)
    | Unary(op: Op, sub: Expr)
    | Binary(op: Op, lhs: Expr, rhs: Expr)
    | Cond(test: Expr, thn: Middle, els: Expr)
    | Assign(lhs: Expr, rhs: Expr)
    | CompAssign(op: Op, lhs: Expr, rhs: Expr)
    | Comma(lhs: Expr, rhs: Expr)

  /** The middle operand of `?:`, which GNU C lets one leave out. */
  datatype Middle = NoMiddle | Mid(e: Expr)

  const EXP := 0
  const ASSIGNMENT := 1
  const CONDITIONAL := 2
  const LOGICAL_OR := 3
  const MULTI := 12
  const UNARY := 13
  const POSTFIX := 14
  const PRIMARY := 15

  /** The level of the grammar whose function joins operands with `op`; 0 for prefix-only operators. */
  function Prec(op: Op): nat
  {
    match op
    case Multiply | Divide | Modulus => 12
    case Plus | Minus => 11
    case ShiftL | ShiftR => 10
    case Lt | Gt | Le | Ge => 9
    case Eq | Ne => 8
    case And => 7
    case Xor => 6
    case Or => 5
    case AndSc => 4
    case OrSc => 3
    case Not | BNot => 0
  }

  predicate IsPrefix(op: Op) {
    op.Plus? || op.Minus? || op.Not? || op.BNot?
  }

  /** The operators that have a compound assignment token (curtok_to_compound_op). */
  predicate IsCompound(op: Op) {
    op in {Plus, Minus, Multiply, Divide, Modulus, Not, BNot, And, Or, Xor, ShiftL, ShiftR}
  }

  /** The grammar level at which an expression can stand without parentheses. */
  function Rank(e: Expr): nat
  {
    match e
    case Name(_) | Num(_) | Paren(_) => PRIMARY
    case Index(_, _) | Call(_, _) | Member(_, _, _) | PostStep(_, _) => POSTFIX
    case PreStep(_, _) | LabelAddr(_) | AddrOf(_) | Deref(_) | Unary(_, _) => UNARY
    case Binary(op, _, _) => Prec(op)
    case Cond(_, _, _) => CONDITIONAL
    case Assign(_, _) | CompAssign(_, _, _) => ASSIGNMENT
    case Comma(_, _) => EXP
  }

  /** The grammar of section 6.5 of ISO C11 as a property of trees, with the source's extensions: an
      assignment's left side is a conditional expression and `?:` may lack its middle. */
  predicate Grammatical(e: Expr)
    decreases e, 1
  {
    match e
    case Name(_) | Num(_) | LabelAddr(_) => true
    case Paren(i) => Grammatical(i)
    case Index(b, i) => Rank(b) >= POSTFIX && Grammatical(b) && Grammatical(i)
    case Call(f, args) => Rank(f) >= POSTFIX && Grammatical(f) && GrammaticalArgs(args)
    case Member(b, _, _) => Rank(b) >= POSTFIX && Grammatical(b)
    case PostStep(_, b) => Rank(b) >= POSTFIX && Grammatical(b)
    case PreStep(_, s) => Rank(s) >= UNARY && Grammatical(s)
    case AddrOf(s) => Rank(s) >= UNARY && Grammatical(s)
    case Deref(s) => Rank(s) >= UNARY && Grammatical(s)
    case Unary(op, s) => IsPrefix(op) && Rank(s) >= UNARY && Grammatical(s)
    case Binary(op, l, r) =>
      Prec(op) >= LOGICAL_OR && Rank(l) >= Prec(op) && Rank(r) > Prec(op) && Grammatical(l) && Grammatical(r)
    case Cond(c, m, f) =>
      Rank(c) >= LOGICAL_OR && Rank(f) >= CONDITIONAL && Grammatical(c) && Grammatical(f) &&
      (m.Mid? ==> Grammatical(m.e))
    case Assign(l, r) => Rank(l) >= CONDITIONAL && Rank(r) >= ASSIGNMENT && Grammatical(l) && Grammatical(r)
    case CompAssign(op, l, r) =>
      IsCompound(op) && Rank(l) >= CONDITIONAL && Rank(r) >= ASSIGNMENT && Grammatical(l) && Grammatical(r)
    case Comma(l, r) => Rank(l) >= ASSIGNMENT && Grammatical(l) && Grammatical(r)
  }

  predicate GrammaticalArgs(args: seq<Expr>)
    decreases args, 0
  {
    args == [] || (Rank(args[0]) >= ASSIGNMENT && Grammatical(args[0]) && GrammaticalArgs(args[1..]))
  }

  /** The tokens of `e` as written, followed by `rest`. */
  function Emit(e: Expr, rest: seq<Token>): seq<Token>
    decreases e, 1
  {
    match e
    case Name(n) => [Ident(n)] + rest
    case Num(v) => [Number(v)] + rest
    case Paren(i) => [OpenParen] + Emit(i, [CloseParen] + rest)
    case Index(b, i) => Emit(b, [OpenSquare] + Emit(i, [CloseSquare] + rest))
    case Call(f, args) => Emit(f, [OpenParen] + EmitArgs(args, [CloseParen] + rest))
    case Member(b, dot, field) => Emit(b, [if dot then Dot else Arrow] + ([Ident(field)] + rest))
    case PostStep(inc, b) => Emit(b, [if inc then Increment else Decrement] + rest)
    case PreStep(inc, s) => [if inc then Increment else Decrement] + Emit(s, rest)
    case LabelAddr(l) => [Operator(AndSc)] + ([Ident(l)] + rest)
    case AddrOf(s) => [Operator(And)] + Emit(s, rest)
    case Deref(s) => [Operator(Multiply)] + Emit(s, rest)
    case Unary(op, s) => [Operator(op)] + Emit(s, rest)
    case Binary(op, l, r) => Emit(l, [Operator(op)] + Emit(r, rest))
    case Cond(c, m, f) =>
      Emit(c, [Question] + (match m
                            case NoMiddle => [Colon] + Emit(f, rest)
                            case Mid(t) => Emit(t, [Colon] + Emit(f, rest))))
    case Assign(l, r) => Emit(l, [AssignTok] + Emit(r, rest))
    case CompAssign(op, l, r) => Emit(l, [CompoundAssign(op)] + Emit(r, rest))
    case Comma(l, r) => Emit(l, [CommaTok] + Emit(r, rest))
  }

  function EmitArgs(args: seq<Expr>, rest: seq<Token>): seq<Token>
    decreases args, 0
  {
    if args == [] then rest
    else if |args| == 1 then Emit(args[0], rest)
    else Emit(args[0], [CommaTok] + EmitArgs(args[1..], rest))
  }

  /** Whether the last token of `e` is the label of a `&&label`, after which no postfix operator is read. */
  predicate EndsInLabel(e: Expr)
  {
    match e
    case LabelAddr(_) => true
    case PreStep(_, s) => EndsInLabel(s)
    case AddrOf(s) => EndsInLabel(s)
    case Deref(s) => EndsInLabel(s)
    case Unary(_, s) => EndsInLabel(s)
    case Binary(_, _, r) => EndsInLabel(r)
    case Cond(_, _, f) => EndsInLabel(f)
    case Assign(_, r) => EndsInLabel(r)
    case CompAssign(_, _, r) => EndsInLabel(r)
    case Comma(_, r) => EndsInLabel(r)
    case _ => false
  }

  predicate StartsPostfix(t: Token) {
    t.OpenSquare? || t.OpenParen? || t.Dot? || t.Arrow? || t.Increment? || t.Decrement?
  }

  /** Whether a parser that has just read `e` at `level` would read on over `rest`. */
  predicate Continues(level: nat, e: Expr, rest: seq<Token>)
  {
    rest != [] &&
    var t := rest[0];
    || (level <= POSTFIX && !EndsInLabel(e) && StartsPostfix(t))
    || (t.Operator? && Prec(t.op) >= LOGICAL_OR && level <= Prec(t.op))
    || (level <= CONDITIONAL && t == Question)
    || (level <= ASSIGNMENT && (t == AssignTok || (t.CompoundAssign? && IsCompound(t.op))))
    || (level <= EXP && t == CommaTok)
  }
}

/** The parser as a function of the remaining tokens: what each parse_expr_* function returns and leaves. */
module ExprGrammar {
  import opened ExprSyntax

  /** `Error` stands for both the exits and the "expecting token" reports of the source. */
  datatype Outcome = Error | Parsed(e: Expr, rest: seq<Token>)
  datatype ArgsOutcome = ArgsError | ParsedArgs(args: seq<Expr>, rest: seq<Token>)

  predicate At(toks: seq<Token>, t: Token) {
    toks != [] && toks[0] == t
  }

  function ParseExp(toks: seq<Token>): (r: Outcome)
    ensures r.Parsed? ==> |r.rest| < |toks|
    decreases |toks|, 20
  {
    match ParseAssignment(toks)
    case Error => Error
    case Parsed(l, t) =>
      if At(t, CommaTok) then
        match ParseExp(t[1..])
        case Error => Error
        case Parsed(r, u) => Parsed(Comma(l, r), u)
      else Parsed(l, t)
  }

  function ParseAssignment(toks: seq<Token>): (r: Outcome)
    ensures r.Parsed? ==> |r.rest| < |toks|
    decreases |toks|, 19
  {
    match ParseConditional(toks)
    case Error => Error
    case Parsed(l, t) =>
      if At(t, AssignTok) then
        match ParseAssignment(t[1..])
        case Error => Error
        case Parsed(r, u) => Parsed(Assign(l, r), u)
      else if t != [] && t[0].CompoundAssign? && IsCompound(t[0].op) then
        match ParseAssignment(t[1..])
        case Error => Error
        case Parsed(r, u) => Parsed(CompAssign(t[0].op, l, r), u)
      else Parsed(l, t)
  }

  function ParseConditional(toks: seq<Token>): (r: Outcome)
    ensures r.Parsed? ==> |r.rest| < |toks|
    decreases |toks|, 18
  {
    match ParseBinary(LOGICAL_OR, toks)
    case Error => Error
    case Parsed(c, t) =>
      if !At(t, Question) then Parsed(c, t)
      else if At(t[1..], Colon) then
        match ParseConditional(t[2..])
        case Error => Error
        case Parsed(f, u) => Parsed(Cond(c, NoMiddle, f), u)
      else
        match ParseExp(t[1..])
        case Error => Error
        case Parsed(m, u) =>
          if !At(u, Colon) then Error
          else
            match ParseConditional(u[1..])
            case Error => Error
            case Parsed(f, v) => Parsed(Cond(c, Mid(m), f), v)
  }

  /** The ten levels made by PARSE_DEFINE: logical_or is 3 and multi is 12. */
  function ParseBinary(level: nat, toks: seq<Token>): (r: Outcome)
    requires LOGICAL_OR <= level <= UNARY
    ensures r.Parsed? ==> |r.rest| < |toks|
    decreases |toks|, 17 - level, 1
  {
    if level == UNARY then ParseUnary(toks)
    else
      match ParseBinary(level + 1, toks)
      case Error => Error
      case Parsed(e, t) => BinaryRest(level, e, t)
  }

  /** The loop of parse_expr_generic, entered with `e` already read. */
  function BinaryRest(level: nat, e: Expr, toks: seq<Token>): (r: Outcome)
    requires LOGICAL_OR <= level <= MULTI
    ensures r.Parsed? ==> |r.rest| <= |toks|
    decreases |toks|, 17 - level, 0
  {
    if toks != [] && toks[0].Operator? && Prec(toks[0].op) == level then
      match ParseBinary(level + 1, toks[1..])
      case Error => Error
      case Parsed(r, t) => BinaryRest(level, Binary(toks[0].op, e, r), t)
    else Parsed(e, toks)
  }

  function ParseUnary(toks: seq<Token>): (r: Outcome)
    ensures r.Parsed? ==> |r.rest| < |toks|
    decreases |toks|, 3
  {
    if toks == [] then Error
    else if toks[0] == Operator(AndSc) then
      if |toks| > 1 && toks[1].Ident? then Parsed(LabelAddr(toks[1].name), toks[2..]) else Error
    else if StartsUnary(toks[0]) then
      match ParseUnary(toks[1..])
      case Error => Error
      case Parsed(sub, rest) => Parsed(Prefixed(toks[0], sub), rest)
    else ParsePostfix(toks)
  }

  /** The tokens of prefix operators, and what each makes of its operand. */
  predicate StartsUnary(t: Token) {
    || t.Increment? || t.Decrement? || t == Operator(And) || t == Operator(Multiply)
    || (t.Operator? && IsPrefix(t.op))
  }

  function Prefixed(t: Token, sub: Expr): Expr
    requires StartsUnary(t)
  {
    if t.Increment? || t.Decrement? then PreStep(t == Increment, sub)
    else if t == Operator(And) then AddrOf(sub)
    else if t == Operator(Multiply) then Deref(sub)
    else Unary(t.op, sub)
  }

  function ParsePostfix(toks: seq<Token>): (r: Outcome)
    ensures r.Parsed? ==> |r.rest| < |toks|
    decreases |toks|, 2
  {
    match ParsePrimary(toks)
    case Error => Error
    case Parsed(e, t) => PostfixRest(e, t)
  }

  /** The loop of parse_expr_postfix_with. */
  function PostfixRest(e: Expr, toks: seq<Token>): (r: Outcome)
    ensures r.Parsed? ==> |r.rest| <= |toks|
    decreases |toks|, 0
  {
    if At(toks, OpenSquare) then
      match ParseExp(toks[1..])
      case Error => Error
      case Parsed(i, t) => if At(t, CloseSquare) then PostfixRest(Index(e, i), t[1..]) else Error
    else if At(toks, OpenParen) then
      match ParseArgs(toks[1..])
      case ArgsError => Error
      case ParsedArgs(args, t) => if At(t, CloseParen) then PostfixRest(Call(e, args), t[1..]) else Error
    else if toks != [] && (toks[0].Dot? || toks[0].Arrow?) then
      if |toks| > 1 && toks[1].Ident? then PostfixRest(Member(e, toks[0] == Dot, toks[1].name), toks[2..])
      else Error
    else if toks != [] && (toks[0].Increment? || toks[0].Decrement?) then
      PostfixRest(PostStep(toks[0] == Increment, e), toks[1..])
    else Parsed(e, toks)
  }

  /** parse_funcargs: nothing before a close paren, else a comma-separated list. */
  function ParseArgs(toks: seq<Token>): (r: ArgsOutcome)
    ensures r.ParsedArgs? ==> |r.rest| <= |toks|
    decreases |toks|, 31
  {
    if At(toks, CloseParen) then ParsedArgs([], toks) else ParseArgList(toks)
  }

  function ParseArgList(toks: seq<Token>): (r: ArgsOutcome)
    ensures r.ParsedArgs? ==> |r.rest| < |toks| && r.args != []
    decreases |toks|, 30
  {
    match ParseAssignment(toks)
    case Error => ArgsError
    case Parsed(a, t) =>
      if At(t, CommaTok) then
        match ParseArgList(t[1..])
        case ArgsError => ArgsError
        case ParsedArgs(more, u) => ParsedArgs([a] + more, u)
      else ParsedArgs([a], t)
  }

  function ParsePrimary(toks: seq<Token>): (r: Outcome)
    ensures r.Parsed? ==> |r.rest| < |toks|
    decreases |toks|, 1
  {
    if toks == [] then Error
    else
      match toks[0]
      case Number(v) => Parsed(Num(v), toks[1..])
      case Ident(n) => Parsed(Name(n), toks[1..])
      case OpenParen =>
        (match ParseExp(toks[1..])
         case Error => Error
         case Parsed(i, t) => if At(t, CloseParen) then Parsed(Paren(i), t[1..]) else Error)
      case _ => Error
  }

  /** The function of the source that parses `level` of the grammar. */
  function ParseAt(level: nat, toks: seq<Token>): (r: Outcome)
    requires level <= PRIMARY
    ensures r.Parsed? ==> |r.rest| < |toks|
  {
    if level == EXP then ParseExp(toks)
    else if level == ASSIGNMENT then ParseAssignment(toks)
    else if level == CONDITIONAL then ParseConditional(toks)
    else if level <= UNARY then ParseBinary(level, toks)
    else if level == POSTFIX then ParsePostfix(toks)
    else ParsePrimary(toks)
  }
}

/** The recursive-descent parser over the shared token stream, loops and in-place consumption included. */
module ExprParser {
  import opened Common
  import opened ExprSyntax
  import G = ExprGrammar

  class Parser {
    /** The tokens not yet eaten; the first one is the source's `curtok`. */
    var toks: seq<Token>

    constructor (toks: seq<Token>)
      ensures this.toks == toks
    {
      this.toks := toks;
    }

    /** The parse ended as the grammar function says: same tree, same remaining tokens, same failures. */
    ghost predicate Ended(g: G.Outcome, r: Option<Expr>)
      reads this
    {
      match g
      case Error => r.None?
      case Parsed(e, rest) => r == Some(e) && toks == rest
    }

    ghost predicate EndedArgs(g: G.ArgsOutcome, r: Option<seq<Expr>>)
      reads this
    {
      match g
      case ArgsError => r.None?
      case ParsedArgs(args, rest) => r == Some(args) && toks == rest
    }

    predicate CurTok(t: Token)
      reads this
    {
      G.At(toks, t)
    }

    /** accept(): eat the current token if it is `t`. */
    method Accept(t: Token) returns (got: bool)
      modifies this
      ensures got == G.At(old(toks), t)
      ensures toks == if got then old(toks)[1..] else old(toks)
    {
      got := CurTok(t);
      if got { toks := toks[1..]; }
    }

    method ParseExp() returns (r: Option<Expr>)
      modifies this
      ensures match G.ParseExp(old(toks))
              case Error => r.None?
              case Parsed(e, rest) => r == Some(e) && toks == rest
      decreases |toks|, 20
    {
      r := ParseAssignment();
      if r.Some? {
        var comma := Accept(CommaTok);
        if comma {
          var rhs := ParseExp();
          r := if rhs.Some? then Some(Comma(r.value, rhs.value)) else None;
        }
      }
    }

    method ParseAssignment() returns (r: Option<Expr>)
      modifies this
      ensures Ended(G.ParseAssignment(old(toks)), r)
      decreases |toks|, 19
    {
      r := ParseConditional();
      if r.None? { return; }
      var assign := Accept(AssignTok);
      if assign {
        var rhs := ParseAssignment();
        r := if rhs.Some? then Some(Assign(r.value, rhs.value)) else None;
      } else if toks != [] && toks[0].CompoundAssign? && IsCompound(toks[0].op) {
        var op := toks[0].op;
        toks := toks[1..];
        var rhs := ParseAssignment();
        r := if rhs.Some? then Some(CompAssign(op, r.value, rhs.value)) else None;
      }
    }

    method ParseConditional() returns (r: Option<Expr>)
      modifies this
      ensures Ended(G.ParseConditional(old(toks)), r)
      decreases |toks|, 18
    {
      r := ParseBinary(LOGICAL_OR);
      if r.None? { return; }
      var question := Accept(Question);
      if !question { return; }
      var mid := NoMiddle;
      var colon := Accept(Colon);
      if !colon {
        var m := ParseExp();
        if m.None? { return None; }
        mid := Mid(m.value);
        colon := Accept(Colon);
        if !colon { return None; }
      }
      var f := ParseConditional();
      r := if f.Some? then Some(Cond(r.value, mid, f.value)) else None;
    }

    /** parse_expr_generic: operands of the next level joined from the left while an operator of this
        level follows. */
    method ParseBinary(level: nat) returns (r: Option<Expr>)
      requires LOGICAL_OR <= level <= UNARY
      modifies this
      ensures Ended(G.ParseBinary(level, old(toks)), r)
      decreases |toks|, 17 - level, 1
    {
      if level == UNARY {
        r := ParseUnary();
        return;
      }
      r := ParseBinary(level + 1);
      if r.None? { return; }
      var e := r.value;
      while toks != [] && toks[0].Operator? && Prec(toks[0].op) == level
        invariant |toks| < |old(toks)|
        invariant G.ParseBinary(level, old(toks)) == G.BinaryRest(level, e, toks)
        decreases |toks|
      {
        var op := toks[0].op;
        toks := toks[1..];
        var rhs := ParseBinary(level + 1);
        if rhs.None? { return None; }
        e := Binary(op, e, rhs.value);
      }
      r := Some(e);
    }

    method ParseUnary() returns (r: Option<Expr>)
      modifies this
      ensures Ended(G.ParseUnary(old(toks)), r)
      decreases |toks|, 3
    {
      if toks == [] { return None; }
      var t := toks[0];
      if t == Operator(AndSc) {
        if |toks| > 1 && toks[1].Ident? {
          r := Some(LabelAddr(toks[1].name));
          toks := toks[2..];
        } else {
          r := None;
        }
      } else if G.StartsUnary(t) {
        toks := toks[1..];
        var sub := ParseUnary();
        if sub.None? { return None; }
        r := Some(if t.Increment? || t.Decrement? then PreStep(t == Increment, sub.value)
                  else if t == Operator(And) then AddrOf(sub.value)
                  else if t == Operator(Multiply) then Deref(sub.value)
                  else Unary(t.op, sub.value));
      } else {
        r := ParsePostfix();
      }
    }

    /** parse_expr_postfix: a primary expression, then suffixes for as long as there are any. */
    method ParsePostfix() returns (r: Option<Expr>)
      modifies this
      ensures Ended(G.ParsePostfix(old(toks)), r)
      decreases |toks|, 2
    {
      r := ParsePrimary();
      if r.None? { return; }
      var e := r.value;
      while toks != [] && StartsPostfix(toks[0])
        invariant |toks| < |old(toks)|
        invariant G.ParsePostfix(old(toks)) == G.PostfixRest(e, toks)
        decreases |toks|
      {
        var t := toks[0];
        toks := toks[1..];
        if t.OpenSquare? {
          var i := ParseExp();
          if i.None? { return None; }
          var close := Accept(CloseSquare);
          if !close { return None; }
          e := Index(e, i.value);
        } else if t.OpenParen? {
          var args := ParseArgs();
          if args.None? { return None; }
          var close := Accept(CloseParen);
          if !close { return None; }
          e := Call(e, args.value);
        } else if t.Dot? || t.Arrow? {
          if toks == [] || !toks[0].Ident? { return None; }
          e := Member(e, t == Dot, toks[0].name);
          toks := toks[1..];
        } else {
          e := PostStep(t == Increment, e);
        }
      }
      r := Some(e);
    }

    /** parse_funcargs: a do-while loop over comma-separated assignment expressions. */
    method ParseArgs() returns (r: Option<seq<Expr>>)
      modifies this
      ensures EndedArgs(G.ParseArgs(old(toks)), r)
      decreases |toks|, 31
    {
      if CurTok(CloseParen) { return Some([]); }
      var args: seq<Expr> := [];
      var more := true;
      while more
        invariant |toks| <= |old(toks)|
        invariant more ==> G.ParseArgs(old(toks)) == Prepend(args, G.ParseArgList(toks))
        invariant !more ==> G.ParseArgs(old(toks)) == G.ParsedArgs(args, toks)
        decreases |toks|, more
      {
        ghost var here := toks;
        var a := ParseAssignment();
        if a.None? { return None; }
        PrependStep(args, here);
        args := args + [a.value];
        more := Accept(CommaTok);
      }
      r := Some(args);
    }

    ghost function Prepend(args: seq<Expr>, g: G.ArgsOutcome): G.ArgsOutcome {
      match g
      case ArgsError => G.ArgsError
      case ParsedArgs(more, rest) => G.ParsedArgs(args + more, rest)
    }

    /** Reading one argument moves it from the list still to be read to the ones already read. */
    lemma PrependStep(args: seq<Expr>, toks: seq<Token>)
      requires G.ParseAssignment(toks).Parsed?
      ensures var a := G.ParseAssignment(toks);
              Prepend(args, G.ParseArgList(toks)) ==
              if G.At(a.rest, CommaTok) then Prepend(args + [a.e], G.ParseArgList(a.rest[1..]))
              else G.ParsedArgs(args + [a.e], a.rest)
    {
      var a := G.ParseAssignment(toks);
      if G.At(a.rest, CommaTok) && G.ParseArgList(a.rest[1..]).ParsedArgs? {
        var more := G.ParseArgList(a.rest[1..]).args;
        assert args + ([a.e] + more) == args + [a.e] + more;
      }
    }

    method ParsePrimary() returns (r: Option<Expr>)
      modifies this
      ensures Ended(G.ParsePrimary(old(toks)), r)
      decreases |toks|, 1
    {
      if toks == [] { return None; }
      var t := toks[0];
      if t.Number? {
        toks := toks[1..];
        r := Some(Num(t.val));
      } else if t.Ident? {
        toks := toks[1..];
        r := Some(Name(t.name));
      } else if t.OpenParen? {
        toks := toks[1..];
        var i := ParseExp();
        if i.None? { return None; }
        var close := Accept(CloseParen);
        r := if close then Some(Paren(i.value)) else None;
      } else {
        r := None;
      }
    }
  }
}
