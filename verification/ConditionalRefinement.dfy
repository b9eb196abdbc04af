/** The flat machine refines the structured meaning of conditional inclusion (section 6.10.1 of ISO C11). */
module CondRefinement {
  import opened Common
  import opened CondSyntax
  import opened CondMachine

  // ---- The structured meaning ------------------------------------------------------------------

  /** The source dies, or the table after a program and what it prints. */
  datatype Result = Die | Ok(table: Table, out: seq<Out>)

  function Blanks(n: nat): (r: seq<Out>)
    ensures |r| == n && forall i :: 0 <= i < n ==> r[i] == Blank
  {
    if n == 0 then [] else [Blank] + Blanks(n - 1)
  }

  /** How many lines a program prints. */
  function Count(b: seq<Stmt>): nat
    decreases b, 0
  {
    if b == [] then 0 else StmtCount(b[0]) + Count(b[1..])
  }

  function StmtCount(s: Stmt): nat
    decreases s, 1
  {
    match s
    case Plain(l) => if l.Null? then 0 else 1
    case Section(_, body, tail) => 1 + Count(body) + TailCount(tail)
  }

  function TailCount(tail: Tail): nat
    decreases tail, 0
  {
    match tail
    case End => 1
    case ElseGroup(b) => 1 + Count(b) + 1
    case ElifGroup(_, b, more) => 1 + Count(b) + TailCount(more)
  }

  /** `first`, then whatever `next` does. */
  function Prepend(first: seq<Out>, next: Result): Result {
    if next.Die? then Die else Ok(next.table, first + next.out)
  }

  /** What `r` does, then `last`. */
  function Append(r: Result, last: seq<Out>): Result {
    if r.Die? then Die else Ok(r.table, r.out + last)
  }

  /** The standard's reading: in each section the first group whose condition holds is processed, the
      others print empty lines, and no condition after the one that holds is evaluated. */
  function Meaning(b: seq<Stmt>, table: Table, ev: Eval): Result
    requires WellFormed(b)
    decreases b, 0
  {
    if b == [] then Ok(table, [])
    else
      match StmtMeaning(b[0], table, ev)
      case Die => Die
      case Ok(t, o) => Prepend(o, Meaning(b[1..], t, ev))
  }

  function StmtMeaning(s: Stmt, table: Table, ev: Eval): Result
    requires WellFormedStmt(s)
    decreases s, 1
  {
    match s
    case Plain(l) =>
      (match Effect(l, false, table)
       case None => Die
       case Some((t, o)) => Ok(t, o))
    case Section(g, body, tail) =>
      match Test(g, table, ev)
      case None => Die
      case Some(true) => Prepend([Blank], Append(Meaning(body, table, ev), Blanks(TailCount(tail))))
      case Some(false) => Prepend(Blanks(1 + Count(body)), TailMeaning(tail, table, ev))
  }

  /** The rest of a section none of whose groups has been processed yet. */
  function TailMeaning(tail: Tail, table: Table, ev: Eval): Result
    requires WellFormedTail(tail)
    decreases tail, 0
  {
    match tail
    case End => Ok(table, [Blank])
    case ElseGroup(b) => Prepend([Blank], Append(Meaning(b, table, ev), [Blank]))
    case ElifGroup(c, b, more) =>
      match ev(c, table)
      case None => Die
      case Some(true) => Prepend([Blank], Append(Meaning(b, table, ev), Blanks(TailCount(more))))
      case Some(false) => Prepend(Blanks(1 + Count(b)), TailMeaning(more, table, ev))
  }

  function Max(a: nat, b: nat): nat {
    if a > b then a else b
  }

  /** How deep sections are nested. */
  function Depth(b: seq<Stmt>): nat
    decreases b, 0
  {
    if b == [] then 0 else Max(StmtDepth(b[0]), Depth(b[1..]))
  }

  function StmtDepth(s: Stmt): nat
    decreases s, 1
  {
    match s
    case Plain(_) => 0
    case Section(_, body, tail) => 1 + Max(Depth(body), TailDepth(tail))
  }

  function TailDepth(tail: Tail): nat
    decreases tail, 0
  {
    match tail
    case End => 0
    case ElseGroup(b) => Depth(b)
    case ElifGroup(_, b, more) => Max(Depth(b), TailDepth(more))
  }

  // ---- What the machine does not skip ------------------------------------------------------------

  /** The conditions that the machine evaluates inside a group it does not process: `own` is its flag for
      the innermost section only, so an `#elif` of a nested section is evaluated, and so is an `#if`
      below an `#elif` or `#else` that the machine takes for true.  The source dies if one is malformed. */
  predicate Quiet(b: seq<Stmt>, own: bool, table: Table, ev: Eval)
    requires WellFormed(b)
    decreases b, 0
  {
    b == [] || (QuietStmt(b[0], own, table, ev) && Quiet(b[1..], own, table, ev))
  }

  predicate QuietStmt(s: Stmt, own: bool, table: Table, ev: Eval)
    requires WellFormedStmt(s)
    decreases s, 1
  {
    match s
    case Plain(_) => true
    case Section(g, body, tail) =>
      var t := if own then Some(false) else Test(g, table, ev);
      t.Some? && Quiet(body, !t.value, table, ev) && QuietTail(tail, t.value, table, ev)
  }

  /** The same for the rest of a section; `chosen` says that the machine has taken a group for true. */
  predicate QuietTail(tail: Tail, chosen: bool, table: Table, ev: Eval)
    requires WellFormedTail(tail)
    decreases tail, 0
  {
    match tail
    case End => true
    case ElseGroup(b) => Quiet(b, chosen, table, ev)
    case ElifGroup(c, b, more) =>
      var t := if chosen then Some(false) else ev(c, table);
      t.Some? && Quiet(b, !t.value, table, ev) && QuietTail(more, chosen || t.value, table, ev)
  }

  /** Every group that is skipped when the program is processed is quiet. */
  predicate SkipsQuietly(b: seq<Stmt>, table: Table, ev: Eval)
    requires WellFormed(b)
    decreases b, 0
  {
    b == [] ||
    (StmtSkipsQuietly(b[0], table, ev) &&
     match StmtMeaning(b[0], table, ev)
     case Die => true
     case Ok(t, _) => SkipsQuietly(b[1..], t, ev))
  }

  predicate StmtSkipsQuietly(s: Stmt, table: Table, ev: Eval)
    requires WellFormedStmt(s)
    decreases s, 1
  {
    match s
    case Plain(_) => true
    case Section(g, body, tail) =>
      match Test(g, table, ev)
      case None => true
      case Some(true) =>
        SkipsQuietly(body, table, ev) &&
        (match Meaning(body, table, ev)
         case Die => true
         case Ok(t, _) => QuietTail(tail, true, t, ev))
      case Some(false) => Quiet(body, true, table, ev) && TailSkipsQuietly(tail, table, ev)
  }

  predicate TailSkipsQuietly(tail: Tail, table: Table, ev: Eval)
    requires WellFormedTail(tail)
    decreases tail, 0
  {
    match tail
    case End => true
    case ElseGroup(b) => SkipsQuietly(b, table, ev)
    case ElifGroup(c, b, more) =>
      match ev(c, table)
      case None => true
      case Some(true) =>
        SkipsQuietly(b, table, ev) &&
        (match Meaning(b, table, ev)
         case Die => true
         case Ok(t, _) => QuietTail(more, true, t, ev))
      case Some(false) => Quiet(b, true, table, ev) && TailSkipsQuietly(more, table, ev)
  }

  // ---- The refinement ------------------------------------------------------------------------------

  /** The state after a group that printed `out` and left `table`. */
  function After(s: State, table: Table, out: seq<Out>): State {
    s.(table := table, out := s.out + out)
  }

  /** The state once the innermost section is closed. */
  function Popped(s: State): State
    requires s.stack != []
  {
    var top := s.stack[|s.stack| - 1];
    s.(stack := s.stack[..|s.stack| - 1], noop := top.noop, chosen := top.chosen)
  }

  predicate Dead(s: State) {
    ShouldNoop(s.stack, s.noop)
  }

  /** Running on from where a group that is skipped ends, if it ends. */
  ghost function ThenSkip(ok: bool, s: State, n: nat, rest: seq<Line>, ev: Eval): Option<State> {
    if ok then Run(After(s, s.table, Blanks(n)), rest, ev) else None
  }

  lemma AfterAfter(s: State, t1: Table, o1: seq<Out>, t2: Table, o2: seq<Out>)
    ensures After(After(s, t1, o1), t2, o2) == After(s, t2, o1 + o2)
  {
    assert s.out + o1 + o2 == s.out + (o1 + o2);
  }

  lemma BlanksAdd(m: nat, n: nat)
    ensures Blanks(m) + Blanks(n) == Blanks(m + n)
  {}

  lemma SkipTwice(s: State, m: nat, n: nat)
    ensures After(After(s, s.table, Blanks(m)), s.table, Blanks(n)) == After(s, s.table, Blanks(m + n))
  {
    AfterAfter(s, s.table, Blanks(m), s.table, Blanks(n));
    BlanksAdd(m, n);
  }

  /** A program in a skipped group prints an empty line for each line that prints one and leaves the state as it
      was, unless a condition the machine evaluates there is malformed or the sections nest too deep. */
  lemma {:induction false} SkippedRun(s: State, b: seq<Stmt>, rest: seq<Line>, ev: Eval)
    requires |s.stack| < N_IFSTACK && Dead(s) && WellFormed(b)
    ensures Run(s, Lines(b, rest), ev) ==
            ThenSkip(|s.stack| + Depth(b) < N_IFSTACK && Quiet(b, s.noop, s.table, ev), s, Count(b), rest, ev)
    decreases b, 0
  {
    if b == [] {
      assert s.out + [] == s.out;
    } else {
      SkippedStmt(s, b[0], Lines(b[1..], rest), ev);
      var mid := After(s, s.table, Blanks(StmtCount(b[0])));
      SkippedRun(mid, b[1..], rest, ev);
      SkipTwice(s, StmtCount(b[0]), Count(b[1..]));
    }
  }

  lemma {:induction false} SkippedStmt(s: State, st: Stmt, rest: seq<Line>, ev: Eval)
    requires |s.stack| < N_IFSTACK && Dead(s) && WellFormedStmt(st)
    ensures Run(s, StmtLines(st, rest), ev) ==
            ThenSkip(|s.stack| + StmtDepth(st) < N_IFSTACK && QuietStmt(st, s.noop, s.table, ev), s, StmtCount(st),
                rest, ev)
    decreases st, 1
  {
    match st
    case Plain(l) =>
      assert Blanks(1) == [Blank] && Blanks(0) == [];
    case Section(g, body, tail) =>
      var t := if s.noop then Some(false) else Test(g, s.table, ev);
      if t.Some? && |s.stack| + 1 < N_IFSTACK {
        SkippedGroups(s, t.value, st, rest, ev);
        assert Step(s, Opens(g), ev) == Push(s, t.value);
      }
  }

  lemma {:induction false} SkippedGroups(s: State, t: bool, st: Stmt, rest: seq<Line>, ev: Eval)
    requires |s.stack| + 1 < N_IFSTACK && Dead(s) && st.Section? && WellFormedStmt(st)
    ensures Run(Push(s, t).value, Lines(st.body, TailLines(st.tail, rest)), ev) ==
            ThenSkip(|s.stack| + StmtDepth(st) < N_IFSTACK &&
                     Quiet(st.body, !t, s.table, ev) && QuietTail(st.tail, t, s.table, ev),
                     s, StmtCount(st), rest, ev)
    decreases st, 0
  {
    var inner := Push(s, t).value;
    StillDead(s, inner);
    SkippedRun(inner, st.body, TailLines(st.tail, rest), ev);
    SkippedTail(After(inner, s.table, Blanks(Count(st.body))), st.tail, rest, ev);
    SkippedSection(s, inner, Count(st.body), TailCount(st.tail));
    SkippedBoth(s, inner, st, |inner.stack| + Depth(st.body) < N_IFSTACK && Quiet(st.body, !t, s.table, ev),
                |inner.stack| + TailDepth(st.tail) < N_IFSTACK && QuietTail(st.tail, t, s.table, ev), rest, ev);
  }

  /** A first group and the rest of a section, both skipped. */
  lemma SkippedBoth(s: State, inner: State, st: Stmt, ok: bool, okTail: bool, rest: seq<Line>, ev: Eval)
    requires st.Section? && inner.stack != [] && inner.table == s.table
    requires var lines, mid := TailLines(st.tail, rest), After(inner, s.table, Blanks(Count(st.body)));
             && Run(inner, Lines(st.body, lines), ev) == ThenSkip(ok, inner, Count(st.body), lines, ev)
             && Run(mid, lines, ev) == ThenSkip(okTail, Popped(mid), TailCount(st.tail), rest, ev)
             && After(Popped(mid), s.table, Blanks(TailCount(st.tail))) == After(s, s.table, Blanks(StmtCount(st)))
    ensures Run(inner, Lines(st.body, TailLines(st.tail, rest)), ev) ==
            ThenSkip(ok && okTail, s, StmtCount(st), rest, ev)
  {}

  lemma StillDead(s: State, inner: State)
    requires Dead(s) && inner.stack == s.stack + [Frame(s.noop, s.chosen)]
    ensures ShouldNoop(inner.stack, false)
  {
    if s.noop {
      assert inner.stack[|s.stack|].noop;
    } else {
      var i :| 0 <= i < |s.stack| && s.stack[i].noop;
      assert inner.stack[i].noop;
    }
  }

  lemma SkippedSection(s: State, inner: State, m: nat, n: nat)
    requires inner.stack == s.stack + [Frame(s.noop, s.chosen)] && inner.table == s.table
    requires inner.out == s.out + [Blank]
    ensures After(Popped(After(inner, s.table, Blanks(m))), s.table, Blanks(n)) == After(s, s.table, Blanks(1 + m + n))
  {
    BlanksAdd(1, m);
    BlanksAdd(1 + m, n);
    assert Blanks(1) == [Blank];
    assert s.out + [Blank] + Blanks(m) + Blanks(n) == s.out + ([Blank] + Blanks(m) + Blanks(n));
    assert inner.stack[..|s.stack|] == s.stack;
  }

  /** The rest of a section that lies in a skipped group, or one of whose groups has been taken. */
  lemma {:induction false} SkippedTail(s: State, tail: Tail, rest: seq<Line>, ev: Eval)
    requires 0 < |s.stack| < N_IFSTACK && s.chosen != LastElse && WellFormedTail(tail)
    requires ShouldNoop(s.stack, false) || s.chosen == GotTruth
    ensures Run(s, TailLines(tail, rest), ev) ==
            ThenSkip(|s.stack| + TailDepth(tail) < N_IFSTACK && QuietTail(tail, s.chosen == GotTruth, s.table, ev),
                     Popped(s), TailCount(tail), rest, ev)
    decreases tail, 0
  {
    match tail
    case End => assert Blanks(1) == [Blank];
    case ElseGroup(b) => SkippedElse(s, b, rest, ev);
    case ElifGroup(c, b, more) =>
      var t := if s.chosen == GotTruth then Some(false) else ev(c, s.table);
      if t.Some? { SkippedElif(s, t.value, tail, rest, ev); }
  }

  lemma {:induction false} SkippedElif(s: State, t: bool, tail: Tail, rest: seq<Line>, ev: Eval)
    requires 0 < |s.stack| < N_IFSTACK && s.chosen != LastElse && tail.ElifGroup? && WellFormedTail(tail)
    requires ShouldNoop(s.stack, false) || s.chosen == GotTruth
    requires Some(t) == if s.chosen == GotTruth then Some(false) else ev(tail.cond, s.table)
    ensures Run(s, TailLines(tail, rest), ev) ==
            ThenSkip(|s.stack| + TailDepth(tail) < N_IFSTACK && QuietTail(tail, s.chosen == GotTruth, s.table, ev),
                     Popped(s), TailCount(tail), rest, ev)
    decreases tail, -1
  {
    var ElifGroup(c, b, more) := tail;
    var got := s.chosen == GotTruth || t;
    var inner := s.(noop := !t, chosen := if got then GotTruth else NoTruth, out := s.out + [Blank]);
    assert Step(s, Elif(c), ev) == Some(inner);
    SkippedRun(inner, b, TailLines(more, rest), ev);
    SkippedTail(After(inner, s.table, Blanks(Count(b))), more, rest, ev);
    SkippedGroup(s, inner, Count(b), TailCount(more));
  }

  lemma {:induction false} SkippedElse(s: State, b: seq<Stmt>, rest: seq<Line>, ev: Eval)
    requires 0 < |s.stack| < N_IFSTACK && s.chosen != LastElse && WellFormed(b)
    requires ShouldNoop(s.stack, false) || s.chosen == GotTruth
    ensures Run(s, TailLines(ElseGroup(b), rest), ev) ==
            ThenSkip(|s.stack| + Depth(b) < N_IFSTACK && Quiet(b, s.chosen == GotTruth, s.table, ev),
                     Popped(s), 1 + Count(b) + 1, rest, ev)
    decreases b, 1
  {
    var inner := s.(noop := s.chosen == GotTruth, chosen := LastElse, out := s.out + [Blank]);
    assert Step(s, Else, ev) == Some(inner);
    SkippedRun(inner, b, [Endif] + rest, ev);
    SkippedGroup(s, inner, Count(b), 1);
    assert Blanks(1) == [Blank];
    assert ([Endif] + rest)[1..] == rest;
  }

  lemma SkippedGroup(s: State, inner: State, m: nat, n: nat)
    requires s.stack != [] && inner.stack == s.stack && inner.table == s.table && inner.out == s.out + [Blank]
    ensures After(Popped(After(inner, s.table, Blanks(m))), s.table, Blanks(n)) == After(Popped(s), s.table,
              Blanks(1 + m + n))
  {
    BlanksAdd(1, m);
    BlanksAdd(1 + m, n);
    assert Blanks(1) == [Blank];
    assert s.out + [Blank] + Blanks(m) + Blanks(n) == s.out + ([Blank] + Blanks(m) + Blanks(n));
  }

  /** Running on from where a processed group ends, if it does. */
  ghost function Then(r: Result, s: State, rest: seq<Line>, ev: Eval): Option<State> {
    if r.Ok? then Run(After(s, r.table, r.out), rest, ev) else None
  }

  /** `r`, or death if a skipped group is not quiet or the nesting too deep. */
  function Unless(r: Result, ok: bool): Result {
    if ok then r else Die
  }

  /** A program in a group that is processed has the standard's meaning, with the same provisos. */
  lemma {:induction false} LiveRun(s: State, b: seq<Stmt>, rest: seq<Line>, ev: Eval)
    requires |s.stack| < N_IFSTACK && !Dead(s) && WellFormed(b)
    ensures Run(s, Lines(b, rest), ev) ==
            Then(Unless(Meaning(b, s.table, ev), |s.stack| + Depth(b) < N_IFSTACK && SkipsQuietly(b, s.table, ev)),
                s, rest, ev)
    decreases b, 0
  {
    if b == [] {
      assert s.out + [] == s.out;
    } else {
      LiveStmt(s, b[0], Lines(b[1..], rest), ev);
      var first := StmtMeaning(b[0], s.table, ev);
      if first.Ok? {
        var mid := After(s, first.table, first.out);
        LiveRun(mid, b[1..], rest, ev);
        var more := Meaning(b[1..], first.table, ev);
        if more.Ok? { AfterAfter(s, first.table, first.out, more.table, more.out); }
      }
    }
  }

  lemma {:induction false} LiveStmt(s: State, st: Stmt, rest: seq<Line>, ev: Eval)
    requires |s.stack| < N_IFSTACK && !Dead(s) && WellFormedStmt(st)
    ensures Run(s, StmtLines(st, rest), ev) ==
            Then(Unless(StmtMeaning(st, s.table, ev),
                        |s.stack| + StmtDepth(st) < N_IFSTACK && StmtSkipsQuietly(st, s.table, ev)), s, rest, ev)
    decreases st, 1
  {
    match st
    case Plain(_) =>
    case Section(g, _, _) =>
      var t := Test(g, s.table, ev);
      if t.Some? && |s.stack| + 1 < N_IFSTACK {
        LiveGroups(s, t.value, st, rest, ev);
        assert Step(s, Opens(g), ev) == Push(s, t.value);
      }
  }

  lemma {:induction false} LiveGroups(s: State, t: bool, st: Stmt, rest: seq<Line>, ev: Eval)
    requires |s.stack| + 1 < N_IFSTACK && !Dead(s) && st.Section? && WellFormedStmt(st)
    requires Test(st.guard, s.table, ev) == Some(t)
    ensures Run(Push(s, t).value, Lines(st.body, TailLines(st.tail, rest)), ev) ==
            Then(Unless(StmtMeaning(st, s.table, ev),
                        |s.stack| + StmtDepth(st) < N_IFSTACK && StmtSkipsQuietly(st, s.table, ev)), s, rest, ev)
    decreases st, 0
  {
    if t { TakenGroups(s, st, rest, ev); } else { PassedGroups(s, st, rest, ev); }
  }

  lemma {:induction false} TakenGroups(s: State, st: Stmt, rest: seq<Line>, ev: Eval)
    requires |s.stack| + 1 < N_IFSTACK && !Dead(s) && st.Section? && WellFormedStmt(st)
    requires Test(st.guard, s.table, ev) == Some(true)
    ensures Run(Push(s, true).value, Lines(st.body, TailLines(st.tail, rest)), ev) ==
            Then(Unless(StmtMeaning(st, s.table, ev),
                        |s.stack| + StmtDepth(st) < N_IFSTACK && StmtSkipsQuietly(st, s.table, ev)), s, rest, ev)
    decreases st, -1
  {
    var Section(_, body, tail) := st;
    var inner := Push(s, true).value;
    StillLive(s, inner);
    LiveRun(inner, body, TailLines(tail, rest), ev);
    var r := Meaning(body, s.table, ev);
    if r.Ok? {
      SkippedTail(After(inner, r.table, r.out), tail, rest, ev);
      TakenFirst(s, inner, r.table, r.out, TailCount(tail));
    }
  }

  lemma {:induction false} PassedGroups(s: State, st: Stmt, rest: seq<Line>, ev: Eval)
    requires |s.stack| + 1 < N_IFSTACK && !Dead(s) && st.Section? && WellFormedStmt(st)
    requires Test(st.guard, s.table, ev) == Some(false)
    ensures Run(Push(s, false).value, Lines(st.body, TailLines(st.tail, rest)), ev) ==
            Then(Unless(StmtMeaning(st, s.table, ev),
                        |s.stack| + StmtDepth(st) < N_IFSTACK && StmtSkipsQuietly(st, s.table, ev)), s, rest, ev)
    decreases st, -1
  {
    var Section(_, body, tail) := st;
    var inner := Push(s, false).value;
    SkippedRun(inner, body, TailLines(tail, rest), ev);
    LiveTail(After(inner, s.table, Blanks(Count(body))), tail, rest, ev);
    var r := TailMeaning(tail, s.table, ev);
    if r.Ok? { NotTakenFirst(s, inner, Count(body), r.table, r.out); }
  }

  lemma StillLive(s: State, inner: State)
    requires !Dead(s) && !inner.noop && inner.stack == s.stack + [Frame(s.noop, s.chosen)]
    ensures !Dead(inner)
  {}

  lemma TakenFirst(s: State, inner: State, table: Table, out: seq<Out>, n: nat)
    requires inner.stack == s.stack + [Frame(s.noop, s.chosen)] && inner.out == s.out + [Blank]
    ensures After(Popped(After(inner, table, out)), table, Blanks(n)) == After(s, table, [Blank] + (out + Blanks(n)))
  {
    assert s.out + [Blank] + out + Blanks(n) == s.out + ([Blank] + (out + Blanks(n)));
    assert inner.stack[..|s.stack|] == s.stack;
  }

  lemma NotTakenFirst(s: State, inner: State, m: nat, table: Table, out: seq<Out>)
    requires inner.stack == s.stack + [Frame(s.noop, s.chosen)] && inner.table == s.table
              && inner.out == s.out + [Blank]
    ensures After(Popped(After(inner, s.table, Blanks(m))), table, out) == After(s, table, Blanks(1 + m) + out)
  {
    BlanksAdd(1, m);
    assert Blanks(1) == [Blank];
    assert s.out + [Blank] + Blanks(m) + out == s.out + ([Blank] + Blanks(m) + out);
    assert inner.stack[..|s.stack|] == s.stack;
  }

  /** The rest of a live section none of whose groups has been taken. */
  lemma {:induction false} LiveTail(s: State, tail: Tail, rest: seq<Line>, ev: Eval)
    requires 0 < |s.stack| < N_IFSTACK && s.chosen == NoTruth && WellFormedTail(tail)
    requires !ShouldNoop(s.stack, false)
    ensures Run(s, TailLines(tail, rest), ev) ==
            Then(Unless(TailMeaning(tail, s.table, ev),
                        |s.stack| + TailDepth(tail) < N_IFSTACK && TailSkipsQuietly(tail, s.table, ev)), Popped(s),
                            rest, ev)
    decreases tail, 0
  {
    match tail
    case End =>
    case ElseGroup(_) => LiveElse(s, tail, rest, ev);
    case ElifGroup(c, b, more) =>
      var t := ev(c, s.table);
      if t.Some? { LiveElif(s, t.value, tail, rest, ev); }
  }

  lemma LiveElse(s: State, tail: Tail, rest: seq<Line>, ev: Eval)
    requires 0 < |s.stack| < N_IFSTACK && s.chosen == NoTruth && tail.ElseGroup? && WellFormedTail(tail)
    requires !ShouldNoop(s.stack, false)
    ensures Run(s, TailLines(tail, rest), ev) ==
            Then(Unless(TailMeaning(tail, s.table, ev),
                        |s.stack| + TailDepth(tail) < N_IFSTACK && TailSkipsQuietly(tail, s.table, ev)), Popped(s),
                            rest, ev)
    decreases tail, -1
  {
    var b := tail.body;
    var inner := s.(noop := false, chosen := LastElse, out := s.out + [Blank]);
    assert Step(s, Else, ev) == Some(inner);
    LiveRun(inner, b, [Endif] + rest, ev);
    var r := Meaning(b, s.table, ev);
    if r.Ok? { TakenLater(s, inner, r.table, r.out, 1); }
    assert Blanks(1) == [Blank];
  }

  lemma {:induction false} LiveElif(s: State, t: bool, tail: Tail, rest: seq<Line>, ev: Eval)
    requires 0 < |s.stack| < N_IFSTACK && s.chosen == NoTruth && tail.ElifGroup? && WellFormedTail(tail)
    requires !ShouldNoop(s.stack, false) && ev(tail.cond, s.table) == Some(t)
    ensures Run(s, TailLines(tail, rest), ev) ==
            Then(Unless(TailMeaning(tail, s.table, ev),
                        |s.stack| + TailDepth(tail) < N_IFSTACK && TailSkipsQuietly(tail, s.table, ev)), Popped(s),
                            rest, ev)
    decreases tail, -1
  {
    var ElifGroup(c, b, more) := tail;
    var inner := s.(noop := !t, chosen := if t then GotTruth else NoTruth, out := s.out + [Blank]);
    assert Step(s, Elif(c), ev) == Some(inner);
    if t {
      LiveRun(inner, b, TailLines(more, rest), ev);
      var r := Meaning(b, s.table, ev);
      if r.Ok? {
        SkippedTail(After(inner, r.table, r.out), more, rest, ev);
        TakenLater(s, inner, r.table, r.out, TailCount(more));
      }
    } else {
      SkippedRun(inner, b, TailLines(more, rest), ev);
      LiveTail(After(inner, s.table, Blanks(Count(b))), more, rest, ev);
      var r := TailMeaning(more, s.table, ev);
      if r.Ok? { NotTakenYet(s, inner, Count(b), r.table, r.out); }
    }
  }

  lemma TakenLater(s: State, inner: State, table: Table, out: seq<Out>, n: nat)
    requires s.stack != [] && inner.stack == s.stack && inner.out == s.out + [Blank]
    ensures After(Popped(After(inner, table, out)), table, Blanks(n)) == After(Popped(s), table,
              [Blank] + (out + Blanks(n)))
  {
    assert s.out + [Blank] + out + Blanks(n) == s.out + ([Blank] + (out + Blanks(n)));
  }

  lemma NotTakenYet(s: State, inner: State, m: nat, table: Table, out: seq<Out>)
    requires s.stack != [] && inner.stack == s.stack && inner.table == s.table && inner.out == s.out + [Blank]
    ensures After(Popped(After(inner, s.table, Blanks(m))), table, out) == After(Popped(s), table, Blanks(1 + m) + out)
  {
    BlanksAdd(1, m);
    assert Blanks(1) == [Blank];
    assert s.out + [Blank] + Blanks(m) + out == s.out + ([Blank] + Blanks(m) + out);
  }

  // ---- Main results ----------------------------------------------------------------------------------

  /** The machine accepts a well-nested program exactly when the standard gives it a meaning, no section
      is nested deeper than 63, and no malformed condition is met in a skipped group; it then prints what
      the standard says, defines what the standard defines, and ends with every section closed. */
  lemma MachineRefinesMeaning(b: seq<Stmt>, ev: Eval)
    requires WellFormed(b)
    ensures var m := Meaning(b, map[], ev);
            Run(INITIAL, Lines(b, []), ev) ==
            if m.Ok? && Depth(b) < N_IFSTACK && SkipsQuietly(b, map[], ev)
            then Some(State([], false, NoTruth, m.table, m.out)) else None
  {
    LiveRun(INITIAL, b, [], ev);
    var m := Meaning(b, map[], ev);
    if m.Ok? {
      assert INITIAL.out + m.out == m.out;
    }
  }

  /** When conditions always evaluate, nothing in a skipped group can matter. */
  lemma {:induction false} TotalIsQuiet(b: seq<Stmt>, own: bool, table: Table, ev: Eval)
    requires WellFormed(b) && forall e: Expr, t: Table :: ev(e, t).Some?
    ensures Quiet(b, own, table, ev) && SkipsQuietly(b, table, ev)
    decreases b, 0
  {
    if b != [] {
      if b[0].Section? {
        var Section(g, body, tail) := b[0];
        TotalIsQuiet(body, true, table, ev);
        TotalIsQuiet(body, false, table, ev);
        TotalTailIsQuiet(tail, true, table, ev);
        TotalTailIsQuiet(tail, false, table, ev);
        var m := Meaning(body, table, ev);
        if m.Ok? { TotalTailIsQuiet(tail, true, m.table, ev); }
        assert StmtSkipsQuietly(b[0], table, ev);
      }
      TotalIsQuiet(b[1..], own, table, ev);
      var first := StmtMeaning(b[0], table, ev);
      if first.Ok? { TotalIsQuiet(b[1..], own, first.table, ev); }
    }
  }

  lemma {:induction false} TotalTailIsQuiet(tail: Tail, chosen: bool, table: Table, ev: Eval)
    requires WellFormedTail(tail) && forall e: Expr, t: Table :: ev(e, t).Some?
    ensures QuietTail(tail, chosen, table, ev) && TailSkipsQuietly(tail, table, ev)
    decreases tail, 0
  {
    if !tail.End? {
      TotalIsQuiet(tail.body, true, table, ev);
      TotalIsQuiet(tail.body, false, table, ev);
      if tail.ElifGroup? {
        TotalTailIsQuiet(tail.more, true, table, ev);
        TotalTailIsQuiet(tail.more, false, table, ev);
        var m := Meaning(tail.body, table, ev);
        if m.Ok? { TotalTailIsQuiet(tail.more, true, m.table, ev); }
      }
    }
  }

  /** With conditions that always evaluate, the machine and the standard agree on every program nested at
      most 63 deep. */
  lemma MachineMeetsStandard(b: seq<Stmt>, ev: Eval)
    requires WellFormed(b) && Depth(b) < N_IFSTACK
    requires forall e: Expr, t: Table :: ev(e, t).Some?
    ensures var m := Meaning(b, map[], ev);
            Run(INITIAL, Lines(b, []), ev) == if m.Ok? then Some(State([], false, NoTruth, m.table, m.out)) else None
  {
    TotalIsQuiet(b, false, map[], ev);
    MachineRefinesMeaning(b, ev);
  }

  /** A malformed `#elif` kills the source inside a group the standard skips. */
  lemma SkippedElifIsEvaluated(bad: Expr, ev: Eval)
    requires ev(bad, map[]) == None
    ensures var nested := Section(Ifdef("A"), [], ElifGroup(bad, [], End));
            var b := [Section(Ifdef("A"), [nested], End)];
            WellFormed(b) && Meaning(b, map[], ev) == Ok(map[], Blanks(5)) && Run(INITIAL, Lines(b, []), ev) == None
  {
    var nested := Section(Ifdef("A"), [], ElifGroup(bad, [], End));
    var s := Section(Ifdef("A"), [nested], End);
    assert [nested][1..] == [] && [s][1..] == [];
    assert WellFormedTail(nested.tail) && TailCount(nested.tail) == 2;
    assert WellFormedStmt(nested) && StmtCount(nested) == 3;
    assert WellFormed([nested]) && Count([nested]) == 3;
    var group := [nested];
    assert group[0] == nested && !QuietStmt(nested, true, map[], ev);
    assert !Quiet(group, true, map[], ev);
    assert StmtMeaning(s, map[], ev) == Ok(map[], Blanks(4) + [Blank]);
    assert Blanks(4) + [Blank] == Blanks(5) == Blanks(5) + [];
    MachineRefinesMeaning([s], ev);
  }

  /** Directives without a name, for which nothing is printed. */
  function Nulls(lines: seq<Line>): nat {
    if lines == [] then 0 else (if lines[0].Null? then 1 else 0) + Nulls(lines[1..])
  }

  /** Each line of a program prints exactly one line but for directives without a name, which print none. So line
      numbers stay in step exactly where there are no such directives. */
  lemma OneLineOutPerLineIn(b: seq<Stmt>, table: Table, ev: Eval)
    requires WellFormed(b)
    ensures Meaning(b, table, ev).Ok? ==> |Meaning(b, table, ev).out| + Nulls(Lines(b, [])) == |Lines(b, [])|
  {
    LineTotal(b, []);
    OutTotal(b, table, ev);
  }

  lemma {:induction false} LineTotal(b: seq<Stmt>, rest: seq<Line>)
    ensures |Lines(b, rest)| - Nulls(Lines(b, rest)) == Count(b) + |rest| - Nulls(rest)
    decreases b, 0
  {
    if b != [] {
      LineTotal(b[1..], rest);
      var more := Lines(b[1..], rest);
      match b[0]
      case Plain(l) => Counted(l, more);
      case Section(g, body, tail) =>
        TailTotal(tail, more);
        LineTotal(body, TailLines(tail, more));
        Counted(Opens(g), Lines(body, TailLines(tail, more)));
    }
  }

  lemma Counted(l: Line, rest: seq<Line>)
    ensures Nulls([l] + rest) == (if l.Null? then 1 else 0) + Nulls(rest)
  {
    assert ([l] + rest)[1..] == rest;
  }

  lemma {:induction false} TailTotal(tail: Tail, rest: seq<Line>)
    ensures |TailLines(tail, rest)| - Nulls(TailLines(tail, rest)) == TailCount(tail) + |rest| - Nulls(rest)
    decreases tail, 0
  {
    match tail
    case End => Counted(Endif, rest);
    case ElseGroup(b) =>
      Counted(Endif, rest);
      LineTotal(b, [Endif] + rest);
      Counted(Else, Lines(b, [Endif] + rest));
    case ElifGroup(c, b, more) =>
      TailTotal(more, rest);
      LineTotal(b, TailLines(more, rest));
      Counted(Elif(c), Lines(b, TailLines(more, rest)));
  }

  lemma {:induction false} OutTotal(b: seq<Stmt>, table: Table, ev: Eval)
    requires WellFormed(b)
    ensures Meaning(b, table, ev).Ok? ==> |Meaning(b, table, ev).out| == Count(b)
    decreases b, 0
  {
    if b != [] {
      if b[0].Section? {
        OutTotal(b[0].body, table, ev);
        TailOutTotal(b[0].tail, table, ev);
      }
      var first := StmtMeaning(b[0], table, ev);
      if first.Ok? { OutTotal(b[1..], first.table, ev); }
    }
  }

  lemma {:induction false} TailOutTotal(tail: Tail, table: Table, ev: Eval)
    requires WellFormedTail(tail)
    ensures TailMeaning(tail, table, ev).Ok? ==> |TailMeaning(tail, table, ev).out| == TailCount(tail)
    decreases tail, 0
  {
    if !tail.End? {
      OutTotal(tail.body, table, ev);
      if tail.ElifGroup? { TailOutTotal(tail.more, table, ev); }
    }
  }
}
