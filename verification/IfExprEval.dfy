/**
  Evaluation of `#if` expressions (src/cpp2/expr.c): what they are worth in the arithmetic of `long`, what the
  evaluator yields, and when the two are the same.
*/
module IfMeaning {
  import opened Common
  import opened IfSyntax
  import opened Arithmetic

  // ---- The arithmetic of `long`, 64 bits wide, in two's complement ------------------------------------

  /** What a result of any size becomes; SignedWord says when it is kept. */
  function Wrap(n: int): int { Signed(ToWord(n)) }

  /** What an operator yields from both its operands; nothing for what is no such operator, or for division by
      zero. */
  function Apply(op: Op, a: int, b: int): Option<int> {
    match op
    case Mul => Some(Wrap(a * b))
    case Div => if b == 0 then None else Some(Wrap(Quotient(a, b)))
    case Mod => if b == 0 then None else Some(Wrap(Remainder(a, b)))
    case Plus => Some(Wrap(a + b))
    case Minus => Some(Wrap(a - b))
    case Shl => Some(Wrap(a * Pow2(b % 64)))
    case Shr => PowersUpTo(b % 64); Some(a / Pow2(b % 64))
    case Le => Some(Truth(a <= b))
    case Lt => Some(Truth(a < b))
    case Ge => Some(Truth(a >= b))
    case Gt => Some(Truth(a > b))
    case Eq => Some(Truth(a == b))
    case Ne => Some(Truth(a != b))
    case And => Some(Signed(BitAnd(ToWord(a), ToWord(b))))
    case Xor => Some(Signed(BitXor(ToWord(a), ToWord(b))))
    case Or => Some(Signed(BitOr(ToWord(a), ToWord(b))))
    case AndSc => Some(Truth(a != 0 && b != 0))
    case OrSc => Some(Truth(a != 0 || b != 0))
    case Question => None
    case Not => None
    case BNot => None
  }

  function ApplyPrefix(op: Op, n: int): Option<int> {
    match op
    case Minus => Some(Wrap(-n))
    case Not => Some(Truth(n == 0))
    case BNot => Some(-n - 1)
    case _ => None
  }

  /** The left operand of `&&` or `||` decides alone. */
  predicate Decides(op: Op, left: int) {
    (op.AndSc? && left == 0) || (op.OrSc? && left != 0)
  }

  // ---- What the expression is worth ------------------------------------------------------------------

  /** The value of an expression if all its numbers are of type `long`, and operands that are not needed are not
      evaluated. */
  function LongValue(e: Expr): Option<int> {
    match e
    case Ident => Some(0)
    case Num(n) => Some(AsLong(n))
    case Un(op, e') =>
      var v := LongValue(e');
      if v.None? then None else ApplyPrefix(op, v.value)
    case Bin(op, l, r) =>
      var a := LongValue(l);
      if a.None? then None
      else if Decides(op, a.value) then Some(Truth(op.OrSc?))
      else
        var b := LongValue(r);
        if b.None? then None else Apply(op, a.value, b.value)
    case Top(c, a, b) =>
      var v := LongValue(c);
      if v.None? then None else if v.value != 0 then LongValue(a) else LongValue(b)
  }

  // ---- What the evaluator does -----------------------------------------------------------------------

  /** expr_eval visits every node; `noop` is for operands that are not needed. It dies on division by zero. */
  function Eval(e: Expr, noop: bool): Option<int> {
    match e
    case Ident => Some(0)
    case Num(n) => Some(AsLong(n))
    case Un(op, e') =>
      var v := Eval(e', noop);
      if v.None? then None else if noop then Some(0) else ApplyPrefix(op, v.value)
    case Bin(op, l, r) =>
      var a := Eval(l, noop);
      if a.None? then None
      else
        var b := Eval(r, Decides(op, a.value));
        if b.None? then None else if noop then Some(0) else Apply(op, a.value, b.value)
    case Top(c, a, b) =>
      var v := Eval(c, noop);
      if v.None? then None
      else
        var x, y := Eval(a, v.value == 0), Eval(b, v.value != 0);
        if x.None? || y.None? then None else if v.value != 0 then x else y
  }

  predicate HasIdent(e: Expr) {
    match e
    case Ident => true
    case Num(_) => false
    case Un(_, e') => HasIdent(e')
    case Bin(_, l, r) => HasIdent(l) || HasIdent(r)
    case Top(c, a, b) => HasIdent(c) || HasIdent(a) || HasIdent(b)
  }

  // ---- When they are the same ------------------------------------------------------------------------

  /** Evaluated for its value, `e` ends the program: it has no value, or an operand that should be skipped is
      revived. */
  predicate Faults(e: Expr)
    decreases e, 1
  {
    LongValue(e).None? || Revived(e)
  }

  /** An operand that should be skipped has a part which the evaluator evaluates all the same, and which faults. */
  predicate Revived(e: Expr)
    decreases e, 0
  {
    match e
    case Ident => false
    case Num(_) => false
    case Un(_, e') => Revived(e')
    case Bin(op, l, r) =>
      Revived(l) || (LongValue(l).Some? && if Decides(op, LongValue(l).value) then Strays(r) else Revived(r))
    case Top(c, a, b) =>
      Revived(c) || (LongValue(c).Some? && if LongValue(c).value != 0 then Revived(a) || Strays(b)
          else Strays(a) || Revived(b))
  }

  /** Skipped, `e` still has a part that is evaluated and faults: the right operand of an operator that does not
      decide by its left, or a branch of a conditional, is evaluated as if nothing were skipped. */
  predicate Strays(e: Expr)
    decreases e, 0
  {
    match e
    case Ident => false
    case Num(_) => false
    case Un(_, e') => Strays(e')
    case Bin(op, l, r) => Strays(l) || if Decides(op, Skipped(l)) then Strays(r) else Faults(r)
    case Top(c, a, b) => Strays(c) || if Skipped(c) != 0 then Faults(a) || Strays(b) else Strays(a) || Faults(b)
  }

  /** What a skipped expression yields: a number or a branch of a conditional still has its value. */
  function Skipped(e: Expr): int {
    match e
    case Ident => 0
    case Num(n) => AsLong(n)
    case Un(_, _) => 0
    case Bin(_, _, _) => 0
    case Top(c, a, b) =>
      var v := LongValue(if Skipped(c) != 0 then a else b);
      if v.Some? then v.value else 0
  }

  lemma {:induction false} EvalWhen(e: Expr)
    ensures Eval(e, false) == if Faults(e) then None else LongValue(e)
    ensures Eval(e, true) == if Strays(e) then None else Some(Skipped(e))
  {
    match e
    case Ident =>
    case Num(_) =>
    case Un(_, e') => EvalWhen(e');
    case Bin(_, l, r) => EvalWhen(l); EvalWhen(r);
    case Top(c, a, b) => EvalWhen(c); EvalWhen(a); EvalWhen(b);
  }

  /** The evaluator never yields another value: either that one, or it dies. Where there is a value, it yields it
      exactly when nothing that should be skipped is revived. */
  lemma EvalMeetsLong(e: Expr)
    ensures Eval(e, false).Some? ==> Eval(e, false) == LongValue(e)
    ensures LongValue(e).Some? ==> (Eval(e, false) == LongValue(e) <==> !Revived(e))
    ensures LongValue(e).None? ==> Eval(e, false).None?
  {
    EvalWhen(e);
  }

  /** No division in the tree has a divisor worth zero, and all operators are such. */
  predicate NoZeroDivisor(e: Expr) {
    match e
    case Ident => true
    case Num(_) => true
    case Un(op, e') => Prefix(op) && NoZeroDivisor(e')
    case Bin(op, l, r) =>
      && Pri(op) < Pri(Question) && NoZeroDivisor(l) && NoZeroDivisor(r)
      && (op.Div? || op.Mod? ==> LongValue(r) != Some(0))
    case Top(c, a, b) => NoZeroDivisor(c) && NoZeroDivisor(a) && NoZeroDivisor(b)
  }

  lemma {:induction false} NothingRevived(e: Expr)
    requires NoZeroDivisor(e)
    ensures LongValue(e).Some? && !Revived(e) && !Strays(e)
  {
    match e
    case Ident =>
    case Num(_) =>
    case Un(_, e') => NothingRevived(e');
    case Bin(_, l, r) => NothingRevived(l); NothingRevived(r);
    case Top(c, a, b) => NothingRevived(c); NothingRevived(a); NothingRevived(b);
  }

  /** `0 && (1 + 1 / 0)` is worth 0, but ends the program here; `0 && 1 / 0` does not. */
  lemma NestedSkipIsLost()
    ensures var zero, one := Num(Number(0, false)), Num(Number(1, false));
            var division := Bin(Div, one, zero);
            var e := Bin(AndSc, zero, Bin(Plus, one, division));
            && LongValue(e) == Some(0) && Eval(e, false) == None
            && Eval(Bin(AndSc, zero, division), false) == Some(0)
  {
    var zero, one := Num(Number(0, false)), Num(Number(1, false));
    var division := Bin(Div, one, zero);
    assert Eval(zero, true) == Some(0) && Eval(division, false) == None && Eval(division, true) == Some(0);
    assert Eval(Bin(Plus, one, division), true) == None;
  }
}

/** The parser and the evaluator on nodes that are allocated and freed. */
module IfCode {
  import opened Common
  import opened IfSyntax
  import opened IfGrammar
  import opened IfMeaning

  datatype Kind = EIdent | ENum | EOp | EUop | ETop

  /** struct expr: operands are in `sub`, two of an operator, one of a prefix, three of a conditional. */
  class Node {
    const kind: Kind
    const num: int
    const op: Op
    const sub: seq<Node>
    var freed: bool
    ghost const tree: Expr
    ghost const nodes: set<Node>

    constructor Ident()
      ensures fresh(nodes) && Valid() && AllLive() && tree == Expr.Ident
    {
      kind, num, op, sub, freed := EIdent, 0, Plus, [], false;
      tree, nodes := Expr.Ident, {this};
    }

    constructor Num(num: int, ghost n: Number)
      requires num == AsLong(n)
      ensures fresh(nodes) && Valid() && AllLive() && tree == Expr.Num(n)
    {
      kind, this.num, op, sub, freed := ENum, num, Plus, [], false;
      tree, nodes := Expr.Num(n), {this};
    }

    constructor Prefix(op: Op, e: Node)
      requires e.Valid() && e.AllLive()
      ensures fresh(nodes - e.nodes) && Valid() && AllLive() && tree == Un(op, e.tree) && nodes == {this} + e.nodes
    {
      kind, num, this.op, sub, freed := EUop, 0, op, [e], false;
      tree, nodes := Un(op, e.tree), {this} + e.nodes;
    }

    constructor Binary(op: Op, l: Node, r: Node)
      requires l.Valid() && r.Valid() && l.nodes !! r.nodes && l.AllLive() && r.AllLive()
      ensures fresh(nodes - l.nodes - r.nodes) && Valid() && AllLive() && tree == Bin(op, l.tree, r.tree)
      ensures nodes == {this} + l.nodes + r.nodes
    {
      kind, num, this.op, sub, freed := EOp, 0, op, [l, r], false;
      tree, nodes := Bin(op, l.tree, r.tree), {this} + l.nodes + r.nodes;
    }

    constructor Conditional(c: Node, a: Node, b: Node)
      requires c.Valid() && a.Valid() && b.Valid() && c.nodes !! a.nodes !! b.nodes
      requires c.AllLive() && a.AllLive() && b.AllLive()
      ensures fresh(nodes - c.nodes - a.nodes - b.nodes) && Valid() && AllLive() && tree == Top(c.tree, a.tree, b.tree)
      ensures nodes == {this} + c.nodes + a.nodes + b.nodes
    {
      kind, num, op, sub, freed := ETop, 0, Plus, [c, a, b], false;
      tree, nodes := Top(c.tree, a.tree, b.tree), {this} + c.nodes + a.nodes + b.nodes;
    }

    /** `tree` is what the nodes stand for, and no node is shared. */
    ghost predicate Valid()
      decreases tree
    {
      && this in nodes
      && match tree
         case Ident => kind == EIdent && nodes == {this}
         case Num(n) => kind == ENum && num == AsLong(n) && nodes == {this}
         case Un(o, e) =>
           && kind == EUop && op == o && |sub| == 1 && sub[0].tree == e && sub[0].Valid()
           && this !in sub[0].nodes && nodes == {this} + sub[0].nodes
         case Bin(o, l, r) =>
           && kind == EOp && op == o && |sub| == 2 && sub[0].tree == l && sub[1].tree == r
           && sub[0].Valid() && sub[1].Valid() && this !in sub[0].nodes + sub[1].nodes
           && sub[0].nodes !! sub[1].nodes && nodes == {this} + sub[0].nodes + sub[1].nodes
         case Top(c, a, b) =>
           && kind == ETop && |sub| == 3 && sub[0].tree == c && sub[1].tree == a && sub[2].tree == b
           && sub[0].Valid() && sub[1].Valid() && sub[2].Valid() && this !in sub[0].nodes + sub[1].nodes + sub[2].nodes
           && sub[0].nodes !! sub[1].nodes !! sub[2].nodes
           && nodes == {this} + sub[0].nodes + sub[1].nodes + sub[2].nodes
    }

    ghost predicate AllLive()
      reads nodes
    {
      forall n :: n in nodes ==> !n.freed
    }

    ghost predicate AllFreed()
      reads nodes
    {
      forall n :: n in nodes ==> n.freed
    }

    /** A node is freed only while it is not. */
    method Free()
      requires !freed
      modifies this`freed
      ensures freed
    {
      freed := true;
    }

    /** expr_eval: unless it dies, every node has been freed, once. */
    method ExprEval(hadIdent: bool, noop: bool) returns (r: Option<int>, ident: bool)
      requires Valid() && AllLive()
      modifies nodes
      ensures r == Eval(tree, noop)
      ensures r.Some? ==> AllFreed() && ident == (hadIdent || HasIdent(tree))
      decreases tree, 1
    {
      ident := hadIdent;
      Free();
      if kind == EIdent {
        r, ident := Some(0), true;
      } else if kind == ENum {
        r := Some(num);
      } else if kind == EUop {
        r, ident := sub[0].ExprEval(ident, noop);
        if r.Some? { r := if noop then Some(0) else ApplyPrefix(op, r.value); }
      } else if kind == EOp {
        r, ident := EvalOp(ident, noop);
      } else {
        r, ident := EvalTop(ident, noop);
      }
    }

    method EvalOp(hadIdent: bool, noop: bool) returns (r: Option<int>, ident: bool)
      requires Valid() && kind == EOp && sub[0].AllLive() && sub[1].AllLive()
      modifies sub[0].nodes, sub[1].nodes
      ensures r == Eval(tree, noop)
      ensures r.Some? ==> sub[0].AllFreed() && sub[1].AllFreed() && ident == (hadIdent || HasIdent(tree))
      decreases tree, 0
    {
      var a, b;
      a, ident := sub[0].ExprEval(hadIdent, noop);
      if a.None? { return None, ident; }
      b, ident := sub[1].ExprEval(ident, Decides(op, a.value));
      if b.None? { return None, ident; }
      r := if noop then Some(0) else Apply(op, a.value, b.value);
    }

    method EvalTop(hadIdent: bool, noop: bool) returns (r: Option<int>, ident: bool)
      requires Valid() && kind == ETop && sub[0].AllLive() && sub[1].AllLive() && sub[2].AllLive()
      modifies sub[0].nodes, sub[1].nodes, sub[2].nodes
      ensures r == Eval(tree, noop)
      ensures r.Some? ==> sub[0].AllFreed() && sub[1].AllFreed() && sub[2].AllFreed()
      ensures r.Some? ==> ident == (hadIdent || HasIdent(tree))
      decreases tree, 0
    {
      var v, x, y;
      v, ident := sub[0].ExprEval(hadIdent, noop);
      if v.None? { return None, ident; }
      x, ident := sub[1].ExprEval(ident, v.value == 0);
      if x.None? { return None, ident; }
      y, ident := sub[2].ExprEval(ident, v.value != 0);
      if y.None? { return None, ident; }
      r := if v.value != 0 then x else y;
    }
  }

  ghost function OperandOf(s: seq<Token>, thisPri: nat): Result {
    var p := IfGrammar.ParsePrimary(s);
    if p.Got? && NextPri(p.rest) < thisPri then IfGrammar.ParseRhs(p.w, p.rest, NextPri(p.rest)) else p
  }

  /** What one turn of the loop makes of `lhs`, and the tokens after it. */
  ghost function NextLhs(lhs: Written, s: seq<Token>): Result
    requires StartsOp(s)
  {
    if s[0].op.Question? then
      var a := IfGrammar.Parse(s[1..]);
      if a.Fail? || a.rest == [] || !a.rest[0].TColon? then Fail
      else
        var b := IfGrammar.Parse(a.rest[1..]);
        if b.Fail? then Fail else Got(WTop(lhs, a.w, b.w), b.rest)
    else
      var r := OperandOf(s[1..], Pri(s[0].op));
      if r.Fail? then Fail else Got(WBin(s[0].op, lhs, r.w), r.rest)
  }

  lemma StripTop(c: Written, a: Written, b: Written)
    ensures Strip(WTop(c, a, b)) == Top(Strip(c), Strip(a), Strip(b))
  {}

  lemma StripBin(op: Op, l: Written, r: Written)
    ensures Strip(WBin(op, l, r)) == Bin(op, Strip(l), Strip(r))
  {}

  lemma QuestionLhs(lhs: Written, s: seq<Token>, a: Result, b: Result)
    requires StartsOp(s) && s[0].op.Question? && a == IfGrammar.Parse(s[1..])
    requires a.Got? && a.rest != [] && a.rest[0].TColon? && b == IfGrammar.Parse(a.rest[1..])
    ensures NextLhs(lhs, s) == if b.Fail? then Fail else Got(WTop(lhs, a.w, b.w), b.rest)
  {}

  lemma OperatorLhs(lhs: Written, s: seq<Token>, r: Result)
    requires StartsOp(s) && !s[0].op.Question? && r == OperandOf(s[1..], Pri(s[0].op))
    ensures NextLhs(lhs, s) == if r.Fail? then Fail else Got(WBin(s[0].op, lhs, r.w), r.rest)
  {}

  lemma TakeTurn(lhs: Written, s: seq<Token>, priority: nat)
    requires StartsOp(s) && Pri(s[0].op) <= priority
    ensures var t := NextLhs(lhs, s);
            IfGrammar.ParseRhs(lhs, s, priority) == if t.Fail? then Fail else IfGrammar.ParseRhs(t.w, t.rest, priority)
  {}

  /** The tokeniser's position, and the value of the last number it has read. */
  class Parser {
    const toks: seq<Token>
    var pos: nat
    var curNum: int
    ghost var last: Number

    constructor (toks: seq<Token>)
      ensures this.toks == toks && pos == 0 && Valid()
    {
      this.toks := toks;
      pos := 0;
      curNum := if toks != [] && toks[0].TNum? then AsLong(toks[0].n) else 0;
      last := if toks != [] && toks[0].TNum? then toks[0].n else Number(0, false);
    }

    ghost predicate Valid()
      reads this
    {
      pos <= |toks| && curNum == AsLong(last) && (StartsNum(toks[pos..]) ==> last == toks[pos].n)
    }

    predicate At(t: Token)
      reads this
    {
      pos < |toks| && toks[pos] == t
    }

    function Left(): seq<Token>
      reads this
    {
      if pos <= |toks| then toks[pos..] else []
    }

    function Priority(): nat
      requires Valid()
      reads this
    {
      NextPri(toks[pos..])
    }

    /** tok_next */
    method Next()
      requires Valid() && pos < |toks|
      modifies this
      ensures Valid() && pos == old(pos) + 1 && Left() == old(Left())[1..]
      ensures last == if StartsNum(Left()) then Left()[0].n else old(last)
    {
      pos := pos + 1;
      if pos < |toks| && toks[pos].TNum? { curNum, last := AsLong(toks[pos].n), toks[pos].n; }
    }

    /** The nodes that a method returns, for the result `r` of the grammar; none if the preprocessor dies. */
    ghost predicate Returns(n: Node?, r: Result)
      reads this, if n == null then {} else n.nodes
    {
      match r
      case Fail => n == null
      case Got(w, rest) => n != null && n.Valid() && n.AllLive() && n.tree == Strip(w) && Left() == rest
    }

    method ParsePrimary() returns (n: Node?)
      requires Valid()
      modifies this
      ensures Valid() && (n != null ==> fresh(n.nodes))
      ensures Returns(n, IfGrammar.ParsePrimary(old(Left())))
      decreases |toks| - pos, 0
    {
      n := null;
      if pos == |toks| { return; }
      var t := toks[pos];
      if t.TIdent? {
        Next();
        n := new Node.Ident();
      } else if t.TNum? {
        Next();
        n := new Node.Num(curNum, last);
      } else if t.TLParen? {
        n := ParseParens();
      } else if t.TOp? && IfSyntax.Prefix(t.op) {
        Next();
        var e := ParsePrimary();
        if e != null { n := new Node.Prefix(t.op, e); }
      }
    }

    method ParseParens() returns (n: Node?)
      requires Valid() && pos < |toks| && toks[pos].TLParen?
      modifies this
      ensures Valid() && (n != null ==> fresh(n.nodes))
      ensures Returns(n, IfGrammar.ParsePrimary(old(Left())))
      decreases |toks| - pos, -1
    {
      n := null;
      Next();
      var e := Parse();
      if e == null || !At(TRParen) { return; }
      Next();
      n := e;
    }

    method Parse() returns (n: Node?)
      requires Valid()
      modifies this
      ensures Valid() && (n != null ==> fresh(n.nodes))
      ensures Returns(n, IfGrammar.Parse(old(Left())))
      decreases |toks| - pos, 2
    {
      n := ParsePrimary();
      if n != null {
        ghost var p := IfGrammar.ParsePrimary(old(Left()));
        n := ParseRhs(n, MAX_PRI, p.w);
      }
    }

    /** One turn after another: `lhs` and the position change, what the grammar makes of them does not. */
    method ParseRhs(first: Node, priority: nat, ghost w: Written) returns (n: Node?)
      requires Valid() && first.Valid() && first.AllLive() && first.tree == Strip(w)
      modifies this
      ensures Valid() && (n != null ==> fresh(n.nodes - first.nodes))
      ensures Returns(n, IfGrammar.ParseRhs(w, old(Left()), priority))
      decreases |toks| - pos, 1
    {
      var lhs: Node := first;
      ghost var v := w;
      while pos < |toks| && toks[pos].TOp? && Pri(toks[pos].op) <= priority
        invariant Valid() && old(pos) <= pos
        invariant lhs.Valid() && lhs.AllLive() && lhs.tree == Strip(v) && fresh(lhs.nodes - first.nodes)
        invariant IfGrammar.ParseRhs(v, Left(), priority) == IfGrammar.ParseRhs(w, old(Left()), priority)
        decreases |toks| - pos
      {
        var next;
        TakeTurn(v, Left(), priority);
        if toks[pos].op.Question? { next, v := QuestionTurn(lhs, v); }
        else { next, v := OperatorTurn(lhs, v); }
        if next == null { return null; }
        lhs := next;
      }
      n := lhs;
    }

    /** The special case for the ternary operator. */
    method QuestionTurn(lhs: Node, ghost v: Written) returns (n: Node?, ghost v': Written)
      requires Valid() && lhs.Valid() && lhs.AllLive() && lhs.tree == Strip(v)
      requires pos < |toks| && toks[pos].TOp?
      requires toks[pos].op.Question?
      modifies this
      ensures Valid() && (n != null ==> fresh(n.nodes - lhs.nodes) && old(pos) < pos)
      ensures n == null ==> NextLhs(v, old(Left())).Fail?
      ensures n != null ==> n.Valid() && n.AllLive() && n.tree == Strip(v') && NextLhs(v, old(Left())) == Got(v',
                Left())
      decreases |toks| - pos, 0
    {
      n, v' := null, v;
      ghost var s := Left();
      Next();
      var ifTrue, ifFalse, wa, wb := Branches(v, s);
      if ifTrue == null || ifFalse == null { return; }
      v' := WTop(v, wa, wb);
      StripTop(v, wa, wb);
      n := new Node.Conditional(lhs, ifTrue, ifFalse);
    }

    method Branches(ghost v: Written, ghost s: seq<Token>)
      returns (ifTrue: Node?, ifFalse: Node?, ghost wa: Written, ghost wb: Written)
      requires Valid() && StartsOp(s) && s[0].op.Question? && Left() == s[1..]
      modifies this
      ensures Valid()
      ensures (ifTrue == null || ifFalse == null) ==> NextLhs(v, s).Fail?
      ensures ifTrue != null && ifFalse != null ==>
                && old(pos) <= pos && fresh(ifTrue.nodes) && fresh(ifFalse.nodes) && ifTrue.nodes !! ifFalse.nodes
                && ifTrue.Valid() && ifTrue.AllLive() && ifTrue.tree == Strip(wa)
                && ifFalse.Valid() && ifFalse.AllLive() && ifFalse.tree == Strip(wb)
                && NextLhs(v, s) == Got(WTop(v, wa, wb), Left())
      decreases |toks| - pos, 3
    {
      wa, wb, ifFalse := v, v, null;
      ifTrue := Parse();
      ghost var a := IfGrammar.Parse(s[1..]);
      if ifTrue == null || !At(TColon) { return null, null, wa, wb; }
      Next();
      ifFalse := Parse();
      ghost var b := IfGrammar.Parse(a.rest[1..]);
      QuestionLhs(v, s, a, b);
      wa := a.w;
      if ifFalse != null { wb := b.w; }
    }

    method OperatorTurn(lhs: Node, ghost v: Written) returns (n: Node?, ghost v': Written)
      requires Valid() && lhs.Valid() && lhs.AllLive() && lhs.tree == Strip(v)
      requires pos < |toks| && toks[pos].TOp?
      requires !toks[pos].op.Question?
      modifies this
      ensures Valid() && (n != null ==> fresh(n.nodes - lhs.nodes) && old(pos) < pos)
      ensures n == null ==> NextLhs(v, old(Left())).Fail?
      ensures n != null ==> n.Valid() && n.AllLive() && n.tree == Strip(v') && NextLhs(v, old(Left())) == Got(v',
                Left())
      decreases |toks| - pos, 0
    {
      n, v' := null, v;
      var op := toks[pos].op;
      Next();
      var rhs, w := Operand(Pri(op));
      OperatorLhs(v, old(Left()), OperandOf(old(Left())[1..], Pri(op)));
      if rhs == null { return; }
      v' := WBin(op, v, w);
      StripBin(op, v, w);
      n := new Node.Binary(op, lhs, rhs);
    }

    /** The right operand of an operator: a primary, and what binds tighter after it. */
    method Operand(thisPri: nat) returns (n: Node?, ghost w: Written)
      requires Valid()
      modifies this
      ensures Valid() && (n != null ==> fresh(n.nodes))
      ensures Returns(n, OperandOf(old(Left()), thisPri))
      ensures n != null ==> w == OperandOf(old(Left()), thisPri).w
      decreases |toks| - pos, 2
    {
      n := ParsePrimary();
      w := WIdent;
      if n == null { return; }
      ghost var p := IfGrammar.ParsePrimary(old(Left()));
      w := p.w;
      var nextPri := Priority();
      if nextPri < thisPri {
        n := ParseRhs(n, nextPri, p.w);
        if n == null { return; }
        w := IfGrammar.ParseRhs(p.w, p.rest, nextPri).w;
      }
    }

    /** expr_parse */
    method ExprParse() returns (n: Node?)
      requires Valid() && pos == 0
      modifies this
      ensures Valid() && (n != null ==> fresh(n.nodes))
      ensures Returns(n, ParseLine(toks))
    {
      n := Parse();
      if pos < |toks| { n := null; }
    }
  }

  /** The condition of an `#if`: nothing where the preprocessor dies. */
  method Condition(toks: seq<Token>) returns (r: Option<bool>, ident: bool)
    ensures var p := ParseLine(toks);
            if p.Fail? || Eval(Strip(p.w), false).None? then r == None
            else r == Some(Eval(Strip(p.w), false).value != 0) && ident == HasIdent(Strip(p.w))
  {
    var parser := new Parser(toks);
    var n := parser.ExprParse();
    ident := false;
    if n == null { return None, false; }
    var v;
    v, ident := n.ExprEval(false, false);
    r := if v.None? then None else Some(v.value != 0);
  }
}
