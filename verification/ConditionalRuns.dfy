/** What single directives do to a run of the machine, said without the functions that the machine and the structured
    meaning share. */
module CondRuns {
  import opened Common
  import opened CondSyntax
  import opened CondMachine
  import opened CondRefinement

  lemma RunOne(s: State, l: Line, ev: Eval)
    ensures Run(s, [l], ev) == Step(s, l, ev)
  {
    assert [l][1..] == [];
  }

  /** In a group that is processed `#define` gives its name its text, `#undef` leaves its name without one, and both
      leave every other name alone; a line of text is expanded under the table as it is then, and an unknown
      directive ends the run. */
  lemma LiveLines(s: State, n: Name, body: string, ev: Eval)
    requires !Dead(s)
    ensures var r := Run(s, [Define(n, body)], ev);
            && r.Some? && r.value == s.(table := r.value.table, out := s.out + [Blank])
            && (forall m :: m in r.value.table <==> m == n || m in s.table)
            && (forall m :: m in r.value.table ==> r.value.table[m] == if m == n then body else s.table[m])
    ensures var r := Run(s, [Undef(n)], ev);
            && r.Some? && r.value == s.(table := r.value.table, out := s.out + [Blank])
            && (forall m :: m in r.value.table <==> m != n && m in s.table)
            && (forall m :: m in r.value.table ==> r.value.table[m] == s.table[m])
    ensures Run(s, [Text(body)], ev) == Some(s.(out := s.out + [Expanded(body, s.table)]))
    ensures Run(s, [Unknown], ev) == None
    ensures Run(s, [Null], ev) == Some(s)
  {
    RunOne(s, Define(n, body), ev);
    RunOne(s, Undef(n), ev);
    RunOne(s, Text(body), ev);
    RunOne(s, Unknown, ev);
    RunOne(s, Null, ev);
    assert s.out + [] == s.out;
  }

  /** In a group that is skipped none of them does anything but keep the line numbers in step. */
  lemma DeadLines(s: State, l: Line, ev: Eval)
    requires Dead(s) && IsPlain(l)
    ensures Run(s, [l], ev) == Some(if l.Null? then s else s.(out := s.out + [Blank]))
  {
    RunOne(s, l, ev);
    assert s.out + [] == s.out;
  }

  /** A state in which the line is expanded, or left out, with a blank line before and after it. */
  function Printed(s: State, text: string, yes: bool): State {
    s.(out := s.out + [Blank, if yes then Expanded(text, s.table) else Blank, Blank])
  }

  /** Whether text is processed: `#ifdef` where its name is defined, `#ifndef` where it is not, and `#if` where its
      expression is true. */
  lemma GuardDecides(s: State, n: Name, c: Expr, text: string, ev: Eval)
    requires !Dead(s) && |s.stack| < 63
    ensures Run(s, [Opens(Ifdef(n)), Text(text), Endif], ev) == Some(Printed(s, text, n in s.table))
    ensures Run(s, [Opens(Ifndef(n)), Text(text), Endif], ev) == Some(Printed(s, text, n !in s.table))
    ensures Run(s, [Opens(If(c)), Text(text), Endif], ev) ==
            match ev(c, s.table)
            case None => None
            case Some(t) => Some(Printed(s, text, t))
  {
    AloneRuns(s, Ifdef(n), text, ev);
    AloneRuns(s, Ifndef(n), text, ev);
    AloneRuns(s, If(c), text, ev);
  }

  lemma AloneRuns(s: State, g: Guard, text: string, ev: Eval)
    requires !Dead(s) && |s.stack| < 63
    ensures Run(s, [Opens(g), Text(text), Endif], ev) ==
            match Test(g, s.table, ev)
            case None => None
            case Some(t) => Some(Printed(s, text, t))
  {
    var test := Test(g, s.table, ev);
    if test.None? {
      assert Step(s, Opens(g), ev) == None;
    } else {
      var t := test.value;
      var pushed := Pushed(s, g, t, ev);
      var one := if t then Expanded(text, s.table) else Blank;
      var mid := pushed.(out := s.out + [Blank] + [one]);
      TextIn(s, pushed, t, text, one, ev);
      Closed(s, mid, one, ev);
      RunThree(s, Opens(g), pushed, Text(text), mid, Endif, Printed(s, text, t), ev);
    }
  }

  lemma Pushed(s: State, g: Guard, t: bool, ev: Eval) returns (r: State)
    requires !Dead(s) && |s.stack| < 63 && Test(g, s.table, ev) == Some(t)
    ensures Step(s, Opens(g), ev) == Some(r)
    ensures r.stack == s.stack + [Frame(s.noop, s.chosen)] && r.noop == !t
    ensures r.table == s.table && r.out == s.out + [Blank]
  {
    r := Push(s, t).value;
  }

  lemma TextIn(s: State, pushed: State, t: bool, text: string, one: Out, ev: Eval)
    requires !Dead(s) && pushed.stack == s.stack + [Frame(s.noop, s.chosen)] && pushed.noop == !t
    requires pushed.table == s.table && one == if t then Expanded(text, s.table) else Blank
    ensures Step(pushed, Text(text), ev) == Some(pushed.(out := pushed.out + [one]))
  {
    if t { StillLive(s, pushed); }
  }

  lemma Closed(s: State, mid: State, one: Out, ev: Eval)
    requires mid.stack == s.stack + [Frame(s.noop, s.chosen)] && mid.table == s.table
    requires mid.out == s.out + [Blank] + [one]
    ensures Step(mid, Endif, ev) == Some(s.(out := s.out + [Blank, one, Blank]))
  {
    assert s.out + [Blank] + [one] + [Blank] == s.out + [Blank, one, Blank];
    assert mid.stack[..|s.stack|] == s.stack;
  }

  lemma RunThree(s: State, l1: Line, s1: State, l2: Line, s2: State, l3: Line, s3: State, ev: Eval)
    requires Step(s, l1, ev) == Some(s1) && Step(s1, l2, ev) == Some(s2) && Step(s2, l3, ev) == Some(s3)
    ensures Run(s, [l1, l2, l3], ev) == Some(s3)
  {
    RunOne(s2, l3, ev);
    assert [l2, l3][1..] == [l3] && [l1, l2, l3][1..] == [l2, l3];
    assert Run(s1, [l2, l3], ev) == Some(s3);
  }

  /** A header with an include guard, which nothing in it takes back, is processed the first time only. */
  lemma IncludedOnce(s: State, n: Name, b: seq<Stmt>, ev: Eval)
    requires !Dead(s) && n !in s.table && WellFormed(b) && |s.stack| + Depth(b) < 63
    requires forall e: Expr, t: Table :: ev(e, t).Some?
    requires var m := Meaning(b, s.table[n := ""], ev); m.Ok? && n in m.table
    ensures var m := Meaning(b, s.table[n := ""], ev);
            var header := Guarded(n, b);
            Run(s, Lines([header, header], []), ev) ==
            Some(After(s, m.table, [Blank, Blank] + m.out + [Blank] + Blanks(Count(b) + 3)))
  {
    var header, m := Guarded(n, b), Meaning(b, s.table[n := ""], ev);
    GuardedIs(n, b);
    FirstTime(n, b, s.table, ev);
    SecondTime(n, b, m.table, ev);
    Twice(header, s.table, m.table, [Blank, Blank] + m.out + [Blank], Blanks(Count(b) + 3), ev);
    TotalIsQuiet([header, header], false, s.table, ev);
    LiveRun(s, [header, header], [], ev);
  }

  lemma Twice(st: Stmt, table: Table, after: Table, first: seq<Out>, second: seq<Out>, ev: Eval)
    requires WellFormedStmt(st)
    requires StmtMeaning(st, table, ev) == Ok(after, first) && StmtMeaning(st, after, ev) == Ok(after, second)
    ensures WellFormed([st, st]) && Depth([st, st]) == StmtDepth(st)
    ensures Meaning([st, st], table, ev) == Ok(after, first + second)
  {
    assert [st, st][1..] == [st] && [st][1..] == [];
    assert Meaning([], after, ev) == Ok(after, []) && second + [] == second;
    assert Meaning([st], after, ev) == Ok(after, second);
    assert Depth([st]) == Max(StmtDepth(st), Depth([])) && Depth([]) == 0;
  }

  function Guarded(n: Name, b: seq<Stmt>): Stmt {
    Section(Ifndef(n), [Plain(Define(n, ""))] + b, End)
  }

  lemma GuardedIs(n: Name, b: seq<Stmt>)
    requires WellFormed(b)
    ensures var h := Guarded(n, b);
            WellFormedStmt(h) && StmtDepth(h) == 1 + Depth(b) && Count(h.body) == 1 + Count(b)
  {
    var body := [Plain(Define(n, ""))] + b;
    assert body[0] == Plain(Define(n, "")) && body[1..] == b;
    assert StmtDepth(body[0]) == 0 && StmtCount(body[0]) == 1 && Max(0, Depth(b)) == Depth(b);
    assert Depth(body) == Max(StmtDepth(body[0]), Depth(body[1..]));
    assert TailDepth(End) == 0;
  }

  lemma FirstTime(n: Name, b: seq<Stmt>, table: Table, ev: Eval)
    requires WellFormed(b) && n !in table && WellFormedStmt(Guarded(n, b)) && Meaning(b, table[n := ""], ev).Ok?
    ensures var m := Meaning(b, table[n := ""], ev);
            StmtMeaning(Guarded(n, b), table, ev) == Ok(m.table, [Blank, Blank] + m.out + [Blank])
  {
    var body := [Plain(Define(n, ""))] + b;
    var m := Meaning(b, table[n := ""], ev);
    assert body[1..] == b;
    assert WellFormedStmt(body[0]) && StmtMeaning(body[0], table, ev) == Ok(table[n := ""], [Blank]);
    assert Meaning(body, table, ev) == Ok(m.table, [Blank] + m.out);
    assert Blanks(1) == [Blank];
    assert [Blank] + ([Blank] + m.out + [Blank]) == [Blank, Blank] + m.out + [Blank];
  }

  lemma SecondTime(n: Name, b: seq<Stmt>, table: Table, ev: Eval)
    requires n in table && WellFormedStmt(Guarded(n, b)) && Count(Guarded(n, b).body) == 1 + Count(b)
    ensures StmtMeaning(Guarded(n, b), table, ev) == Ok(table, Blanks(Count(b) + 3))
  {
    var g := Ifndef(n);
    assert Test(g, table, ev) == Some(false) && TailMeaning(End, table, ev) == Ok(table, [Blank]);
    BlanksAdd(Count(b) + 2, 1);
    assert Blanks(1) == [Blank];
  }

  /** The stack of open sections holds 63. */
  lemma {:induction false} OpensAtMost63(s: State, lines: seq<Line>, ev: Eval)
    requires |s.stack| <= 63
    requires forall k :: 0 <= k < |lines| ==> lines[k].Opens? && lines[k].guard.Ifdef?
    ensures Run(s, lines, ev).Some? <==> |s.stack| + |lines| <= 63
    decreases |lines|
  {
    if lines != [] {
      var next := Step(s, lines[0], ev);
      if next.Some? { OpensAtMost63(next.value, lines[1..], ev); }
    }
  }
}
