/**
  Expressions of `#if` (src/cpp2/expr.c): what is written, the parser as a function of the tokens, and the
  shapes it groups them into.
*/
module IfSyntax {
  import opened Arithmetic

  /** A number as it is written: its value, and whether C takes it as unsigned, as it does with a suffix `U`. */
  datatype Number = Number(value: int, isUnsigned: bool)

  /** What tok_next keeps of it: strtol stops at the largest `long`, and the suffix is dropped. */
  function AsLong(n: Number): int {
    if n.value < TWO63 then n.value else TWO63 - 1
  }

  datatype Op = Mul | Div | Mod | Plus | Minus | Shl | Shr | Le | Lt | Ge | Gt | Eq | Ne
              | And | Xor | Or | AndSc | OrSc | Question | Not | BNot

  datatype Token = TIdent | TNum(n: Number) | TOp(op: Op) | TLParen | TRParen | TColon | TOther

  /** struct expr */
  datatype Expr = Ident | Num(n: Number) | Un(op: Op, e: Expr) | Bin(op: Op, l: Expr, r: Expr)
      | Top(c: Expr, a: Expr, b: Expr)

  /** An expression as it is written, with its parentheses. */
  datatype Written = WIdent | WNum(n: Number) | WParen(w: Written) | WUn(op: Op, w: Written)
                   | WBin(op: Op, l: Written, r: Written) | WTop(c: Written, a: Written, b: Written)

  function Strip(w: Written): Expr {
    match w
    case WIdent => Ident
    case WNum(n) => Num(n)
    case WParen(w') => Strip(w')
    case WUn(op, w') => Un(op, Strip(w'))
    case WBin(op, l, r) => Bin(op, Strip(l), Strip(r))
    case WTop(c, a, b) => Top(Strip(c), Strip(a), Strip(b))
  }

  const MAX_PRI: nat := 20

  /** Smaller binds tighter; `!` and `~` count as operators, but no priority is set for them. */
  function Pri(op: Op): (p: nat)
    ensures 1 <= p <= MAX_PRI
  {
    match op
    case Mul => 1 case Div => 1 case Mod => 1
    case Plus => 2 case Minus => 2
    case Shl => 3 case Shr => 3
    case Le => 4 case Lt => 4 case Ge => 4 case Gt => 4
    case Eq => 5 case Ne => 5
    case And => 6 case Xor => 7 case Or => 8
    case AndSc => 9 case OrSc => 10
    case Question => 11
    case Not => MAX_PRI case BNot => MAX_PRI
  }

  predicate Prefix(op: Op) {
    op.Not? || op.BNot? || op.Minus?
  }

  /** The tokens of an expression, before others. */
  function Emit(w: Written, rest: seq<Token>): seq<Token>
    decreases w
  {
    match w
    case WIdent => [TIdent] + rest
    case WNum(n) => [TNum(n)] + rest
    case WParen(w') => [TLParen] + Emit(w', [TRParen] + rest)
    case WUn(op, w') => [TOp(op)] + Emit(w', rest)
    case WBin(op, l, r) => Emit(l, [TOp(op)] + Emit(r, rest))
    case WTop(c, a, b) => Emit(c, [TOp(Question)] + Emit(a, [TColon] + Emit(b, rest)))
  }

  function Text(w: Written): seq<Token> { Emit(w, []) }
}

module IfGrammar {
  import opened IfSyntax

  datatype Result = Fail | Got(w: Written, rest: seq<Token>)

  predicate StartsOp(s: seq<Token>) {
    s != [] && s[0].TOp?
  }

  predicate StartsNum(s: seq<Token>) {
    s != [] && s[0].TNum?
  }

  /** The priority of the current token, which is the largest for what is no operator. */
  function NextPri(s: seq<Token>): nat {
    if StartsOp(s) then Pri(s[0].op) else MAX_PRI
  }

  /** A number's value is read after the token that follows has been read, so that a second number would
      take its place. */
  function NumberRead(s: seq<Token>): Number
    requires StartsNum(s)
  {
    if StartsNum(s[1..]) then s[1].n else s[0].n
  }

  function ParsePrimary(s: seq<Token>): (r: Result)
    ensures r.Got? ==> |r.rest| < |s|
    decreases |s|, 0
  {
    if s == [] then Fail
    else
      match s[0]
      case TIdent => Got(WIdent, s[1..])
      case TNum(_) => Got(WNum(NumberRead(s)), s[1..])
      case TLParen =>
        var r := Parse(s[1..]);
        if r.Fail? || r.rest == [] || !r.rest[0].TRParen? then Fail else Got(WParen(r.w), r.rest[1..])
      case TOp(op) =>
        if !Prefix(op) then Fail
        else
          var r := ParsePrimary(s[1..]);
          if r.Fail? then Fail else Got(WUn(op, r.w), r.rest)
      case _ => Fail
  }

  function ParseRhs(lhs: Written, s: seq<Token>, priority: nat): (r: Result)
    ensures r.Got? ==> |r.rest| <= |s|
    decreases |s|, 1
  {
    if !StartsOp(s) || Pri(s[0].op) > priority then Got(lhs, s)
    else if s[0].op.Question? then
      var a := Parse(s[1..]);
      if a.Fail? || a.rest == [] || !a.rest[0].TColon? then Fail
      else
        var b := Parse(a.rest[1..]);
        if b.Fail? then Fail else ParseRhs(WTop(lhs, a.w, b.w), b.rest, priority)
    else
      var p := ParsePrimary(s[1..]);
      if p.Fail? then Fail
      else if NextPri(p.rest) < Pri(s[0].op) then
        var r := ParseRhs(p.w, p.rest, NextPri(p.rest));
        if r.Fail? then Fail else ParseRhs(WBin(s[0].op, lhs, r.w), r.rest, priority)
      else ParseRhs(WBin(s[0].op, lhs, p.w), p.rest, priority)
  }

  function Parse(s: seq<Token>): (r: Result)
    ensures r.Got? ==> |r.rest| < |s|
    decreases |s|, 2
  {
    var p := ParsePrimary(s);
    if p.Fail? then Fail else ParseRhs(p.w, p.rest, MAX_PRI)
  }

  /** expr_parse: the whole line has to be one expression. */
  function ParseLine(s: seq<Token>): Result {
    var r := Parse(s);
    if r.Got? && r.rest != [] then Fail else r
  }

  // ---- What the parser groups tokens into ------------------------------------------------------------

  predicate Compound(w: Written) { w.WBin? || w.WTop? }

  predicate EndsInTop(w: Written) {
    w.WTop? || (w.WBin? && EndsInTop(w.r))
  }

  /** The priority of the first operator of a compound expression's text. */
  function Leftmost(w: Written): nat
    requires Compound(w)
  {
    match w
    case WBin(op, l, _) => if Compound(l) then Leftmost(l) else Pri(op)
    case WTop(c, _, _) => if Compound(c) then Leftmost(c) else Pri(Question)
  }

  /** An operator of priority `n` can come next when the parser has got as far as `w`. */
  predicate Follows(w: Written, n: nat) {
    match w
    case WBin(op, _, r) => if Compound(r) then n > Leftmost(r) && !EndsInTop(r) else n >= Pri(op)
    case WTop(_, _, _) => false
    case _ => true
  }

  predicate Primary(w: Written)
    decreases w, 0
  {
    match w
    case WIdent => true
    case WNum(_) => true
    case WParen(w') => Grouped(w', MAX_PRI)
    case WUn(op, w') => Prefix(op) && Primary(w')
    case _ => false
  }

  /** What the loop for `priority` can build: a right operand extends as far as operators bind as tightly as
      the first one in it. */
  predicate Grouped(w: Written, priority: nat)
    decreases w, 1
  {
    match w
    case WBin(op, l, r) =>
      && !op.Question? && Pri(op) <= priority && Grouped(l, priority) && Follows(l, Pri(op))
      && (if Compound(r) then Leftmost(r) < Pri(op) && Grouped(r, Leftmost(r)) else Primary(r))
    case WTop(c, a, b) =>
      && Pri(Question) <= priority && Grouped(c, priority) && Follows(c, Pri(Question))
      && Grouped(a, MAX_PRI) && Grouped(b, MAX_PRI)
    case _ => Primary(w)
  }

  // ---- Such expressions are read back ----------------------------------------------------------------

  function Start(w: Written): Written {
    match w
    case WBin(_, l, _) => Start(l)
    case WTop(c, _, _) => Start(c)
    case _ => w
  }

  /** The tokens after the first operand. */
  function After(w: Written, rest: seq<Token>): seq<Token> {
    match w
    case WBin(op, l, r) => After(l, [TOp(op)] + Emit(r, rest))
    case WTop(c, a, b) => After(c, [TOp(Question)] + Emit(a, [TColon] + Emit(b, rest)))
    case _ => rest
  }

  lemma {:induction false} StartFirst(w: Written, rest: seq<Token>, priority: nat)
    requires Grouped(w, priority)
    ensures Emit(w, rest) == Emit(Start(w), After(w, rest)) && Primary(Start(w)) && !Compound(Start(w))
    ensures Compound(w) ==> NextPri(After(w, rest)) == Leftmost(w) && StartsOp(After(w, rest))
    ensures !Compound(w) ==> After(w, rest) == rest && Start(w) == w
  {
    match w
    case WBin(op, l, r) => StartFirst(l, [TOp(op)] + Emit(r, rest), priority);
    case WTop(c, a, b) => StartFirst(c, [TOp(Question)] + Emit(a, [TColon] + Emit(b, rest)), priority);
    case _ =>
  }

  /** What may come after `w`. */
  predicate Next(w: Written, rest: seq<Token>) {
    !StartsNum(rest) && (StartsOp(rest) ==> Follows(w, Pri(rest[0].op)))
  }

  lemma {:induction false} PrimaryReadsBack(w: Written, rest: seq<Token>)
    requires Primary(w) && !StartsNum(rest)
    ensures ParsePrimary(Emit(w, rest)) == Got(w, rest)
    decreases w, 0
  {
    var s := Emit(w, rest);
    match w
    case WIdent => assert s[1..] == rest;
    case WNum(n) => assert s[1..] == rest;
    case WParen(w') =>
      assert s[1..] == Emit(w', [TRParen] + rest);
      ParseReadsBack(w', [TRParen] + rest);
    case WUn(op, w') =>
      assert s[1..] == Emit(w', rest);
      PrimaryReadsBack(w', rest);
  }

  lemma {:induction false} ParseReadsBack(w: Written, rest: seq<Token>)
    requires Grouped(w, MAX_PRI) && !StartsNum(rest) && !StartsOp(rest)
    ensures Parse(Emit(w, rest)) == Got(w, rest)
    decreases w, 3
  {
    StartFirst(w, rest, MAX_PRI);
    StartReadsBack(w, rest, MAX_PRI);
    RhsReaches(w, rest, MAX_PRI);
  }

  lemma {:induction false} StartReadsBack(w: Written, rest: seq<Token>, priority: nat)
    requires Grouped(w, priority) && !StartsNum(rest)
    ensures ParsePrimary(Emit(w, rest)) == Got(Start(w), After(w, rest))
    decreases w, 1
  {
    match w
    case WBin(op, l, r) => StartReadsBack(l, [TOp(op)] + Emit(r, rest), priority);
    case WTop(c, a, b) => StartReadsBack(c, [TOp(Question)] + Emit(a, [TColon] + Emit(b, rest)), priority);
    case _ => PrimaryReadsBack(w, rest);
  }

  lemma {:induction false} RhsReaches(w: Written, rest: seq<Token>, priority: nat)
    requires Grouped(w, priority) && Next(w, rest)
    ensures ParseRhs(Start(w), After(w, rest), priority) == ParseRhs(w, rest, priority)
    decreases w, 2
  {
    match w
    case WBin(op, l, r) =>
      var s := [TOp(op)] + Emit(r, rest);
      RhsReaches(l, s, priority);
      assert s[1..] == Emit(r, rest);
      if Compound(r) {
        StartFirst(r, rest, Leftmost(r));
        StartReadsBack(r, rest, Leftmost(r));
        RhsReaches(r, rest, Leftmost(r));
      } else {
        PrimaryReadsBack(r, rest);
      }
    case WTop(c, a, b) =>
      var s := [TOp(Question)] + Emit(a, [TColon] + Emit(b, rest));
      RhsReaches(c, s, priority);
      assert s[1..] == Emit(a, [TColon] + Emit(b, rest));
      ParseReadsBack(a, [TColon] + Emit(b, rest));
      assert ([TColon] + Emit(b, rest))[1..] == Emit(b, rest);
      ParseReadsBack(b, rest);
    case _ =>
  }

  // ---- And nothing else is returned ------------------------------------------------------------------

  lemma {:induction false} PrimarySound(s: seq<Token>)
    ensures var r := ParsePrimary(s);
            r.Got? ==> Primary(r.w) && (!StartsNum(r.rest) ==> Emit(r.w, r.rest) == s)
    decreases |s|, 0
  {
    if s != [] {
      if s[0].TLParen? {
        ParseSound(s[1..]);
        var r := Parse(s[1..]);
        if r.Got? && r.rest != [] && r.rest[0].TRParen? {
          assert [TRParen] + r.rest[1..] == r.rest;
          assert [TLParen] + s[1..] == s;
        }
      } else if s[0].TOp? {
        PrimarySound(s[1..]);
        assert [s[0]] + s[1..] == s;
      } else {
        assert [s[0]] + s[1..] == s;
      }
    }
  }

  lemma {:induction false} ParseSound(s: seq<Token>)
    ensures var r := Parse(s);
            r.Got? ==> Grouped(r.w, MAX_PRI) && !StartsOp(r.rest) && (!StartsNum(r.rest) ==> Emit(r.w, r.rest) == s)
    decreases |s|, 2
  {
    PrimarySound(s);
    var p := ParsePrimary(s);
    if p.Got? {
      RhsSound(p.w, p.rest, MAX_PRI);
    }
  }

  /** Between calls of the loop: what it has and what comes next. */
  predicate Ready(lhs: Written, s: seq<Token>, priority: nat) {
    && Grouped(lhs, priority)
    && (StartsOp(s) && Pri(s[0].op) <= priority ==> Follows(lhs, Pri(s[0].op)))
    && (EndsInTop(lhs) ==> !StartsOp(s))
  }

  /** What the loop makes of `lhs` and the tokens `s`: `w`, before the tokens `rest`. */
  predicate Built(lhs: Written, s: seq<Token>, priority: nat, w: Written, rest: seq<Token>) {
    && Ready(w, rest, priority)
    && (StartsOp(rest) ==> Pri(rest[0].op) > priority)
    && (StartsNum(s) ==> StartsNum(rest))
    && (!StartsNum(rest) ==> Emit(w, rest) == Emit(lhs, s))
    && (Compound(lhs) ==> Compound(w) && Leftmost(w) == Leftmost(lhs))
    && (!Compound(lhs) && StartsOp(s) && NextPri(s) <= priority ==> Compound(w) && Leftmost(w) == NextPri(s))
  }

  /** One turn of the loop changes nothing of that. */
  lemma TurnTaken(lhs: Written, s: seq<Token>, priority: nat, lhs': Written, s': seq<Token>, w: Written,
      rest: seq<Token>)
    requires StartsOp(s) && Pri(s[0].op) <= priority
    requires Compound(lhs') && Leftmost(lhs') == if Compound(lhs) then Leftmost(lhs) else NextPri(s)
    requires !StartsNum(s') ==> Emit(lhs', s') == Emit(lhs, s)
    requires Built(lhs', s', priority, w, rest)
    ensures Built(lhs, s, priority, w, rest)
  {}

  lemma ReadyAfterPrimary(op: Op, lhs: Written, w: Written, rest: seq<Token>, priority: nat)
    requires Grouped(lhs, priority) && Follows(lhs, Pri(op)) && !op.Question? && Pri(op) <= priority
    requires Primary(w) && NextPri(rest) >= Pri(op)
    ensures Ready(WBin(op, lhs, w), rest, priority)
  {
    assert !Compound(w) && !EndsInTop(w);
  }

  lemma ReadyAfterCompound(op: Op, lhs: Written, w: Written, rest: seq<Token>, priority: nat, q: nat)
    requires Grouped(lhs, priority) && Follows(lhs, Pri(op)) && !op.Question? && Pri(op) <= priority
    requires Compound(w) && Leftmost(w) == q < Pri(op) && Ready(w, rest, q) && (StartsOp(rest) ==> Pri(rest[0].op) > q)
    ensures Ready(WBin(op, lhs, w), rest, priority)
  {}

  /** The turn of the loop that takes `lhs` and `s` to `lhs'` and `s'`. */
  predicate Turn(lhs: Written, s: seq<Token>, priority: nat, lhs': Written, s': seq<Token>) {
    && Ready(lhs', s', priority) && |s'| < |s|
    && ParseRhs(lhs, s, priority) == ParseRhs(lhs', s', priority)
    && Compound(lhs') && Leftmost(lhs') == (if Compound(lhs) then Leftmost(lhs) else NextPri(s))
    && (!StartsNum(s') ==> Emit(lhs', s') == Emit(lhs, s))
  }

  lemma {:induction false} QuestionTurn(lhs: Written, s: seq<Token>, priority: nat)
    returns (lhs': Written, s': seq<Token>)
    requires Ready(lhs, s, priority) && priority <= MAX_PRI && ParseRhs(lhs, s, priority).Got?
    requires StartsOp(s) && Pri(s[0].op) <= priority && s[0].op.Question?
    ensures Turn(lhs, s, priority, lhs', s')
    decreases |s|, 0
  {
    assert [s[0]] + s[1..] == s;
    ParseSound(s[1..]);
    var a := Parse(s[1..]);
    ParseSound(a.rest[1..]);
    var b := Parse(a.rest[1..]);
    assert [TColon] + a.rest[1..] == a.rest;
    lhs', s' := WTop(lhs, a.w, b.w), b.rest;
  }

  lemma {:induction false} PrimaryTurn(lhs: Written, s: seq<Token>, priority: nat)
    returns (lhs': Written, s': seq<Token>)
    requires Ready(lhs, s, priority) && priority <= MAX_PRI && ParseRhs(lhs, s, priority).Got?
    requires StartsOp(s) && Pri(s[0].op) <= priority && !s[0].op.Question?
    requires var p := ParsePrimary(s[1..]); p.Got? ==> NextPri(p.rest) >= Pri(s[0].op)
    ensures Turn(lhs, s, priority, lhs', s')
    decreases |s|, 0
  {
    assert [s[0]] + s[1..] == s;
    PrimarySound(s[1..]);
    var p := ParsePrimary(s[1..]);
    lhs', s' := WBin(s[0].op, lhs, p.w), p.rest;
    ReadyAfterPrimary(s[0].op, lhs, p.w, s', priority);
  }

  lemma {:induction false} CompoundTurn(lhs: Written, s: seq<Token>, priority: nat)
    returns (lhs': Written, s': seq<Token>)
    requires Ready(lhs, s, priority) && priority <= MAX_PRI && ParseRhs(lhs, s, priority).Got?
    requires StartsOp(s) && Pri(s[0].op) <= priority && !s[0].op.Question?
    requires var p := ParsePrimary(s[1..]); p.Got? && NextPri(p.rest) < Pri(s[0].op)
    ensures Turn(lhs, s, priority, lhs', s')
    decreases |s|, 0
  {
    assert [s[0]] + s[1..] == s;
    PrimarySound(s[1..]);
    var p := ParsePrimary(s[1..]);
    var n := NextPri(p.rest);
    assert !Compound(p.w) && !EndsInTop(p.w);
    RhsSound(p.w, p.rest, n);
    var q := ParseRhs(p.w, p.rest, n);
    lhs', s' := WBin(s[0].op, lhs, q.w), q.rest;
    ReadyAfterCompound(s[0].op, lhs, q.w, s', priority, n);
  }

  lemma {:induction false} RhsSound(lhs: Written, s: seq<Token>, priority: nat)
    requires Ready(lhs, s, priority) && priority <= MAX_PRI
    ensures var r := ParseRhs(lhs, s, priority);
            r.Got? ==> Built(lhs, s, priority, r.w, r.rest)
    decreases |s|, 1
  {
    var r := ParseRhs(lhs, s, priority);
    if r.Got? && StartsOp(s) && Pri(s[0].op) <= priority {
      var lhs', s';
      if s[0].op.Question? {
        lhs', s' := QuestionTurn(lhs, s, priority);
      } else if NextPri(ParsePrimary(s[1..]).rest) < Pri(s[0].op) {
        lhs', s' := CompoundTurn(lhs, s, priority);
      } else {
        lhs', s' := PrimaryTurn(lhs, s, priority);
      }
      RhsSound(lhs', s', priority);
      TurnTaken(lhs, s, priority, lhs', s', r.w, r.rest);
    }
  }

  /** A line is accepted exactly when it is the text of an expression grouped so, and that is what is
      returned: reading a number late does no harm, as no accepted line has two in a row. */
  lemma ParseLineIffGrouped(s: seq<Token>, w: Written)
    ensures ParseLine(s) == Got(w, []) <==> Grouped(w, MAX_PRI) && Text(w) == s
  {
    ParseSound(s);
    if Grouped(w, MAX_PRI) { ParseReadsBack(w, []); }
  }

  // ---- Against the grouping of C -----------------------------------------------------------------------

  /** Expressions written with at least the parentheses that C needs for their grouping. */
  predicate InC(w: Written, priority: nat) {
    match w
    case WIdent => true
    case WNum(_) => true
    case WParen(w') => InC(w', Pri(Question))
    case WUn(op, w') => Prefix(op) && !Compound(w') && InC(w', 0)
    case WBin(op, l, r) => Pri(op) < Pri(Question) && Pri(op) <= priority && InC(l, Pri(op)) && InC(r, Pri(op) - 1)
    case WTop(c, a, b) => Pri(Question) <= priority && InC(c, Pri(Question) - 1) && InC(a, Pri(Question)) && InC(b,
        Pri(Question))
  }

  function TopPri(w: Written): nat
    requires Compound(w)
  {
    if w.WBin? then Pri(w.op) else Pri(Question)
  }

  /** No right operand without parentheses starts with an operator that binds tighter than its own. */
  predicate Even(w: Written) {
    match w
    case WIdent => true
    case WNum(_) => true
    case WParen(w') => Even(w')
    case WUn(_, w') => Even(w')
    case WBin(_, l, r) => Even(l) && Even(r) && (Compound(r) ==> Leftmost(r) == TopPri(r))
    case WTop(c, a, b) => Even(c) && Even(a) && Even(b)
  }

  lemma {:induction false} LeftmostInC(w: Written, priority: nat)
    requires InC(w, priority) && Compound(w)
    ensures Leftmost(w) <= TopPri(w) <= priority && (EndsInTop(w) ==> Pri(Question) <= priority)
  {
    match w
    case WBin(op, l, r) =>
      if Compound(l) { LeftmostInC(l, Pri(op)); }
      if Compound(r) { LeftmostInC(r, Pri(op) - 1); } else { assert !EndsInTop(r); }
    case WTop(c, _, _) => if Compound(c) { LeftmostInC(c, Pri(Question) - 1); }
  }

  lemma {:induction false} GroupedInC(w: Written, c: nat, priority: nat)
    requires InC(w, c) && c <= priority <= MAX_PRI
    ensures !Compound(w) ==> (Primary(w) <==> Even(w))
    ensures Grouped(w, priority) <==> Even(w)
    decreases w
  {
    match w
    case WIdent =>
    case WNum(_) =>
    case WParen(w') => GroupedInC(w', Pri(Question), MAX_PRI);
    case WUn(_, w') => GroupedInC(w', 0, MAX_PRI);
    case WBin(op, l, r) =>
      GroupedInC(l, Pri(op), priority);
      FollowsInC(l, Pri(op));
      if Compound(r) {
        LeftmostInC(r, Pri(op) - 1);
        InCAtTop(r, Pri(op) - 1);
        GroupedInC(r, TopPri(r), TopPri(r));
      } else {
        GroupedInC(r, Pri(op) - 1, priority);
      }
    case WTop(c', a, b) =>
      GroupedInC(c', Pri(Question) - 1, priority);
      FollowsInC(c', Pri(Question) - 1);
      if c'.WBin? { FollowsMore(c', Pri(Question) - 1, Pri(Question)); }
      GroupedInC(a, Pri(Question), MAX_PRI);
      GroupedInC(b, Pri(Question), MAX_PRI);
  }

  lemma InCAtTop(w: Written, priority: nat)
    requires InC(w, priority) && Compound(w)
    ensures InC(w, TopPri(w))
  {}

  lemma FollowsInC(w: Written, n: nat)
    requires InC(w, n) && n < Pri(Question)
    ensures Follows(w, n)
  {
    if w.WBin? && Compound(w.r) { LeftmostInC(w.r, Pri(w.op) - 1); }
  }

  lemma FollowsMore(w: Written, n: nat, m: nat)
    requires Follows(w, n) && n <= m
    ensures Follows(w, m)
  {}

  /** A line written as C requires is grouped as in C exactly when no right operand without parentheses
      starts with an operator that binds tighter than its own. */
  lemma GroupsAsC(w: Written)
    requires InC(w, Pri(Question))
    ensures ParseLine(Text(w)) == Got(w, []) <==> Even(w)
  {
    GroupedInC(w, Pri(Question), MAX_PRI);
    ParseLineIffGrouped(Text(w), w);
  }

  /** Every operand of an operator is in parentheses or is a single token. */
  predicate FullyParenthesised(w: Written) {
    match w
    case WIdent => true
    case WNum(_) => true
    case WParen(w') => FullyParenthesised(w')
    case WUn(op, w') => Prefix(op) && !Compound(w') && FullyParenthesised(w')
    case WBin(op, l, r) =>
      Pri(op) < Pri(Question) && !Compound(l) && !Compound(r) && FullyParenthesised(l) && FullyParenthesised(r)
    case WTop(c, a, b) =>
      !Compound(c) && !Compound(a) && !Compound(b) && FullyParenthesised(c) && FullyParenthesised(a)
          && FullyParenthesised(b)
  }

  lemma {:induction false} ParenthesisedInC(w: Written, priority: nat)
    requires FullyParenthesised(w) && (Compound(w) ==> priority == Pri(Question))
    ensures InC(w, priority) && Even(w)
    decreases w
  {
    match w
    case WIdent =>
    case WNum(_) =>
    case WParen(w') => ParenthesisedInC(w', Pri(Question));
    case WUn(_, w') => ParenthesisedInC(w', 0);
    case WBin(op, l, r) => ParenthesisedInC(l, Pri(op)); ParenthesisedInC(r, Pri(op) - 1);
    case WTop(c, a, b) =>
      ParenthesisedInC(c, Pri(Question) - 1);
      ParenthesisedInC(a, Pri(Question));
      ParenthesisedInC(b, Pri(Question));
  }

  lemma ParenthesisedReadsBack(w: Written)
    requires FullyParenthesised(w)
    ensures ParseLine(Text(w)) == Got(w, [])
  {
    ParenthesisedInC(w, Pri(Question));
    GroupsAsC(w);
  }

  /** `a == b * c + d` is read as `(a == b * c) + d`. */
  lemma MultiplicationFirst(a: Number, b: Number, c: Number, d: Number)
    ensures var inC := WBin(Eq, WNum(a), WBin(Plus, WBin(Mul, WNum(b), WNum(c)), WNum(d)));
            var read := WBin(Plus, WBin(Eq, WNum(a), WBin(Mul, WNum(b), WNum(c))), WNum(d));
            InC(inC, Pri(Question)) && ParseLine(Text(inC)) == Got(read, [])
  {
    var inC := WBin(Eq, WNum(a), WBin(Plus, WBin(Mul, WNum(b), WNum(c)), WNum(d)));
    var read := WBin(Plus, WBin(Eq, WNum(a), WBin(Mul, WNum(b), WNum(c))), WNum(d));
    var num, m := WNum(b), WBin(Mul, WNum(b), WNum(c));
    var eq, plus := WBin(Eq, WNum(a), m), WBin(Plus, m, WNum(d));
    assert InC(num, 1) && InC(WNum(c), 0) && InC(m, 2);
    assert InC(WNum(d), 1) && InC(plus, 4) && InC(WNum(a), 5);
    var tail := [TOp(Plus)] + Emit(WNum(d), []);
    assert Emit(plus, []) == Emit(m, tail);
    assert Emit(inC, []) == Emit(WNum(a), [TOp(Eq)] + Emit(plus, []));
    assert Emit(read, []) == Emit(eq, tail) == Emit(WNum(a), [TOp(Eq)] + Emit(m, tail));
    assert Primary(WNum(a)) && Primary(num) && Primary(WNum(c)) && Primary(WNum(d));
    assert Leftmost(m) == 1 && Grouped(num, 1) && Grouped(m, 1);
    assert Grouped(WNum(a), MAX_PRI) && Grouped(eq, MAX_PRI);
    assert Follows(eq, 2);
    assert Grouped(read, MAX_PRI);
    ParseLineIffGrouped(Text(inC), read);
  }
}
