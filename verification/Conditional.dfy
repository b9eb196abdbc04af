/** Conditional inclusion (src/cpp2/directive.c, src/cpp2/preproc.c): lines, and what they mean. */
module CondSyntax {
  import opened Common

  type Name = string
  /** The macro table, from names to definitions. */
  type Table = map<Name, string>
  /** An `#if` expression, and how one evaluates: None if it is malformed and the source dies on it. */
  type Expr = string
  type Eval = (Expr, Table) -> Option<bool>

  datatype Guard = If(cond: Expr) | Ifdef(name: Name) | Ifndef(name: Name)

  /** `Null` is a directive without a name; `Unknown` has one that is not known. */
  datatype Line =
    | Text(text: string)
    | Null
    | Define(name: Name, body: string)
    | Undef(name: Name)
    | Unknown
    | Opens(guard: Guard)
    | Elif(cond: Expr)
    | Else
    | Endif

  /** A structured program: plain lines and sections. */
  datatype Stmt = Plain(line: Line) | Section(guard: Guard, body: seq<Stmt>, tail: Tail)

  /** What follows the first group of a section. */
  datatype Tail = End | ElseGroup(body: seq<Stmt>) | ElifGroup(cond: Expr, body: seq<Stmt>, more: Tail)

  predicate IsPlain(l: Line) {
    l.Text? || l.Null? || l.Define? || l.Undef? || l.Unknown?
  }

  /** Plain lines are plain. */
  predicate WellFormed(b: seq<Stmt>)
    decreases b, 0
  {
    b == [] || (WellFormedStmt(b[0]) && WellFormed(b[1..]))
  }

  predicate WellFormedStmt(s: Stmt)
    decreases s, 1
  {
    match s
    case Plain(l) => IsPlain(l)
    case Section(_, body, tail) => WellFormed(body) && WellFormedTail(tail)
  }

  predicate WellFormedTail(tail: Tail)
    decreases tail, 0
  {
    tail.End? || (WellFormed(tail.body) && (tail.ElifGroup? ==> WellFormedTail(tail.more)))
  }

  /** The lines of a program, followed by `rest`. */
  function Lines(b: seq<Stmt>, rest: seq<Line>): seq<Line>
    decreases b, 0
  {
    if b == [] then rest else StmtLines(b[0], Lines(b[1..], rest))
  }

  function StmtLines(s: Stmt, rest: seq<Line>): seq<Line>
    decreases s, 1
  {
    match s
    case Plain(l) => [l] + rest
    case Section(g, body, tail) => [Opens(g)] + Lines(body, TailLines(tail, rest))
  }

  function TailLines(tail: Tail, rest: seq<Line>): seq<Line>
    decreases tail, 0
  {
    match tail
    case End => [Endif] + rest
    case ElseGroup(b) => [Else] + Lines(b, [Endif] + rest)
    case ElifGroup(c, b, more) => [Elif(c)] + Lines(b, TailLines(more, rest))
  }

  /** A line that is printed: blank, or expanded under a macro table. */
  datatype Out = Blank | Expanded(text: string, table: Table)

  function Test(g: Guard, table: Table, ev: Eval): Option<bool> {
    match g
    case If(c) => ev(c, table)
    case Ifdef(n) => Some(n in table)
    case Ifndef(n) => Some(n !in table)
  }

  /** The effect of a plain line, and what is printed for it: a directive without a name prints nothing. None if
      the source dies. */
  function Effect(l: Line, dead: bool, table: Table): Option<(Table, seq<Out>)>
    requires IsPlain(l)
  {
    if l.Null? then Some((table, []))
    else if dead then Some((table, [Blank]))
    else
      match l
      case Text(t) => Some((table, [Expanded(t, table)]))
      case Define(n, body) => Some((table[n := body], [Blank]))
      case Undef(n) => Some((table - {n}, [Blank]))
      case Unknown => None
  }
}

/** The machine of the source: one stack, one flag and one state, updated by every line. */
module CondMachine {
  import opened Common
  import opened CondSyntax

  const N_IFSTACK := 64

  datatype Chosen = NoTruth | GotTruth | LastElse

  datatype Frame = Frame(noop: bool, chosen: Chosen)

  datatype State = State(stack: seq<Frame>, noop: bool, chosen: Chosen, table: Table, out: seq<Out>)

  /** parse_should_noop */
  predicate ShouldNoop(stack: seq<Frame>, noop: bool) {
    noop || exists i :: 0 <= i < |stack| && stack[i].noop
  }

  /** if_push, after the newline that keeps the line numbers in step */
  function Push(s: State, isTrue: bool): Option<State> {
    if |s.stack| + 1 == N_IFSTACK then None
    else Some(State(s.stack + [Frame(s.noop, s.chosen)], !isTrue, if isTrue then GotTruth else NoTruth, s.table,
        s.out + [Blank]))
  }

  /** The effect of one line; None if the source dies. */
  function Step(s: State, l: Line, ev: Eval): Option<State> {
    match l
    case Opens(g) =>
      if s.noop then Push(s, false)
      else
        (match Test(g, s.table, ev)
         case None => None
         case Some(t) => Push(s, t))
    case Elif(c) =>
      if s.stack == [] then None
      else
        (match s.chosen
         case GotTruth => Some(s.(noop := true, out := s.out + [Blank]))
         case LastElse => None
         case NoTruth =>
           match ev(c, s.table)
           case None => None
           case Some(t) => Some(s.(noop := !t, chosen := if t then GotTruth else NoTruth, out := s.out + [Blank])))
    case Else =>
      if s.stack == [] || s.chosen == LastElse then None
      else Some(s.(noop := s.chosen == GotTruth, chosen := LastElse, out := s.out + [Blank]))
    case Endif =>
      if s.stack == [] then None
      else
        var top := s.stack[|s.stack| - 1];
        Some(s.(stack := s.stack[..|s.stack| - 1], noop := top.noop, chosen := top.chosen, out := s.out + [Blank]))
    case _ =>
      match Effect(l, ShouldNoop(s.stack, s.noop), s.table)
      case None => None
      case Some((table, o)) => Some(s.(table := table, out := s.out + o))
  }

  function Run(s: State, lines: seq<Line>, ev: Eval): Option<State>
    decreases |lines|
  {
    if lines == [] then Some(s)
    else
      match Step(s, lines[0], ev)
      case None => None
      case Some(t) => Run(t, lines[1..], ev)
  }

  const INITIAL := State([], false, NoTruth, map[], [])

  /** The machine itself, with the fixed array and the file-static variables of the source. */
  class Cpp {
    const ifStack: array<Frame>
    var ifIdx: nat
    var noop: bool
    var chosen: Chosen
    var table: Table
    var out: seq<Out>

    constructor ()
      ensures Valid() && fresh(ifStack) && Abs() == INITIAL
    {
      ifStack := new Frame[N_IFSTACK](_ => Frame(false, NoTruth));
      ifIdx, noop, chosen, table, out := 0, false, NoTruth, map[], [];
    }

    ghost predicate Valid()
      reads this
    {
      ifStack.Length == N_IFSTACK && ifIdx < N_IFSTACK
    }

    ghost function Abs(): State
      requires Valid()
      reads this, ifStack
    {
      State(ifStack[..ifIdx], noop, chosen, table, out)
    }

    method ParseShouldNoop() returns (r: bool)
      requires Valid()
      ensures r == ShouldNoop(Abs().stack, noop)
    {
      if noop { return true; }
      var i := 0;
      while i < ifIdx
        invariant i <= ifIdx
        invariant forall k :: 0 <= k < i ==> !ifStack[k].noop
      {
        if ifStack[i].noop {
          assert Abs().stack[i].noop;
          return true;
        }
        i := i + 1;
      }
      r := false;
    }

    method IfPush(isTrue: bool) returns (ok: bool)
      requires Valid()
      modifies this, ifStack
      ensures ok == (old(ifIdx) + 1 < N_IFSTACK)
      ensures ok ==> Valid() && Abs() == State(old(Abs()).stack + [Frame(old(noop), old(chosen))], !isTrue,
                                    if isTrue then GotTruth else NoTruth, old(table), old(out))
    {
      ifStack[ifIdx] := Frame(noop, chosen);
      ifIdx := ifIdx + 1;
      if ifIdx == N_IFSTACK { return false; }
      noop := !isTrue;
      chosen := if isTrue then GotTruth else NoTruth;
      ok := true;
    }

    method IfPop()
      requires Valid() && ifIdx > 0
      modifies this
      ensures Valid()
      ensures var s := old(Abs()); var top := s.stack[|s.stack| - 1];
              Abs() == s.(stack := s.stack[..|s.stack| - 1], noop := top.noop, chosen := top.chosen)
    {
      ifIdx := ifIdx - 1;
      noop, chosen := ifStack[ifIdx].noop, ifStack[ifIdx].chosen;
    }

    /** parse_directive and filter_macros on one line; false if the source dies. */
    method ParseLine(l: Line, ev: Eval) returns (ok: bool)
      requires Valid()
      modifies this, ifStack
      ensures ok ==> Valid() && Step(old(Abs()), l, ev) == Some(Abs())
      ensures !ok ==> Step(old(Abs()), l, ev) == None
    {
      match l
      case Opens(g) =>
        out := out + [Blank];
        var isTrue := Some(false);
        if !noop { isTrue := Test(g, table, ev); }
        if isTrue.None? { return false; }
        ok := IfPush(isTrue.value);
      case Elif(c) => ok := HandleElif(c, ev);
      case Else => ok := HandleElse(ev);
      case Endif =>
        out := out + [Blank];
        if ifIdx == 0 { return false; }
        IfPop();
        ok := true;
      case _ =>
        var dead := ParseShouldNoop();
        match Effect(l, dead, table) {
          case None => ok := false;
          case Some((t, o)) =>
            table, out := t, out + o;
            ok := true;
        }
    }

    method HandleElif(c: Expr, ev: Eval) returns (ok: bool)
      requires Valid()
      modifies this
      ensures ok ==> Valid() && Step(old(Abs()), Elif(c), ev) == Some(Abs())
      ensures !ok ==> Step(old(Abs()), Elif(c), ev) == None
    {
      out := out + [Blank];
      if ifIdx == 0 { return false; }
      ok := true;
      match chosen
      case GotTruth => noop := true;
      case NoTruth =>
        var t := ev(c, table);
        if t.None? { return false; }
        chosen := if t.value then GotTruth else NoTruth;
        noop := !t.value;
      case LastElse => ok := false;
    }

    method HandleElse(ghost ev: Eval) returns (ok: bool)
      requires Valid()
      modifies this
      ensures ok ==> Valid() && Step(old(Abs()), Else, ev) == Some(Abs())
      ensures !ok ==> Step(old(Abs()), Else, ev) == None
    {
      out := out + [Blank];
      if ifIdx == 0 { return false; }
      ok := true;
      match chosen {
        case GotTruth => noop := true;
        case NoTruth => noop := false;
        case LastElse => ok := false;
      }
      chosen := LastElse;
    }

    /** preprocess: every line in turn, then parse_end_validate. */
    method Preprocess(lines: seq<Line>, ev: Eval) returns (ok: bool)
      requires Valid() && Abs() == INITIAL
      modifies this, ifStack
      ensures ok ==> Valid() && Run(INITIAL, lines, ev) == Some(Abs()) && Abs().stack == []
      ensures !ok ==> Run(INITIAL, lines, ev).None? || Run(INITIAL, lines, ev).value.stack != []
    {
      var left := lines;
      while left != []
        invariant Valid() && Run(INITIAL, lines, ev) == Run(Abs(), left, ev)
        decreases |left|
      {
        ok := ParseLine(left[0], ev);
        if !ok { return; }
        left := left[1..];
      }
      ok := ifIdx == 0;
    }
  }
}
