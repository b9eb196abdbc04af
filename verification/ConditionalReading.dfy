/** Every sequence of lines that the machine accepts is a well-nested program. */
module CondReading {
  import opened Common
  import opened CondSyntax
  import opened CondMachine
  import opened CondRefinement

  predicate EndsGroup(l: Line) {
    l.Elif? || l.Else? || l.Endif?
  }

  /** The states of a machine before and after statements: only the table and the output may differ. */
  predicate SameNesting(s: State, t: State) {
    s.stack == t.stack && s.noop == t.noop && s.chosen == t.chosen
  }

  /** The state after the `#endif` of the innermost section. */
  predicate IsPopped(s: State, t: State) {
    && s.stack != []
    && var top := s.stack[|s.stack| - 1];
       t.stack == s.stack[..|s.stack| - 1] && t.noop == top.noop && t.chosen == top.chosen
  }

  /** The statements up to the next line that ends a group, if no more conditions are open in the end than in
      `s`. */
  lemma {:induction false} ReadBlock(s: State, lines: seq<Line>, ev: Eval)
    returns (b: seq<Stmt>, rest: seq<Line>, t: State)
    requires Run(s, lines, ev).Some? && |Run(s, lines, ev).value.stack| <= |s.stack|
    ensures WellFormed(b) && lines == Lines(b, rest) && (rest != [] ==> EndsGroup(rest[0]))
    ensures SameNesting(s, t) && |rest| <= |lines| && Run(t, rest, ev) == Run(s, lines, ev)
    decreases |lines|, 0
  {
    if lines == [] || EndsGroup(lines[0]) { return [], lines, s; }
    var l := lines[0];
    assert [l] + lines[1..] == lines;
    var next := Step(s, l, ev).value;
    if l.Opens? {
      var body, more, mid := ReadBlock(next, lines[1..], ev);
      var tail, after, out := ReadTail(mid, more, ev);
      assert s.stack == mid.stack[..|mid.stack| - 1];
      b, rest, t := ReadBlock(out, after, ev);
      assert ([Section(l.guard, body, tail)] + b)[1..] == b;
      b := [Section(l.guard, body, tail)] + b;
    } else {
      b, rest, t := ReadBlock(next, lines[1..], ev);
      assert ([Plain(l)] + b)[1..] == b;
      b := [Plain(l)] + b;
    }
  }

  /** The groups of a section from such a line on, if its condition is closed in the end. */
  lemma {:induction false} ReadTail(s: State, lines: seq<Line>, ev: Eval)
    returns (tail: Tail, rest: seq<Line>, t: State)
    requires s.stack != [] && (lines != [] ==> EndsGroup(lines[0]))
    requires Run(s, lines, ev).Some? && |Run(s, lines, ev).value.stack| < |s.stack|
    ensures WellFormedTail(tail) && lines == TailLines(tail, rest) && (s.chosen == LastElse ==> tail.End?)
    ensures IsPopped(s, t) && |rest| < |lines| && Run(t, rest, ev) == Run(s, lines, ev)
    decreases |lines|, 1
  {
    var l := lines[0];
    assert [l] + lines[1..] == lines;
    var next := Step(s, l, ev).value;
    if l.Endif? { return End, lines[1..], next; }
    var body, more, mid := ReadBlock(next, lines[1..], ev);
    tail, rest, t := ReadTail(mid, more, ev);
    if l.Else? {
      tail := ElseGroup(body);
    } else {
      tail := ElifGroup(l.cond, body, tail);
    }
  }

  /** Whatever lines the machine accepts, with every condition closed, are the lines of a well-nested program:
      no stray `#elif`, `#else` or `#endif` is accepted, nor anything but `#endif` after an `#else`. */
  lemma AcceptedIsWellNested(lines: seq<Line>, ev: Eval) returns (b: seq<Stmt>)
    requires Run(INITIAL, lines, ev).Some? && Run(INITIAL, lines, ev).value.stack == []
    ensures WellFormed(b) && lines == Lines(b, [])
  {
    var rest, t;
    b, rest, t := ReadBlock(INITIAL, lines, ev);
  }

  /** The programs that have a meaning and that the machine can follow. */
  ghost predicate Acceptable(b: seq<Stmt>, ev: Eval) {
    WellFormed(b) && Meaning(b, map[], ev).Ok? && Depth(b) < N_IFSTACK && SkipsQuietly(b, map[], ev)
  }

  /** The machine accepts exactly the lines of such programs. */
  lemma AcceptedIff(lines: seq<Line>, ev: Eval)
    ensures (Run(INITIAL, lines, ev).Some? && Run(INITIAL, lines, ev).value.stack == [])
            <==> exists b :: Acceptable(b, ev) && lines == Lines(b, [])
  {
    if Run(INITIAL, lines, ev).Some? && Run(INITIAL, lines, ev).value.stack == [] {
      var b := AcceptedIsWellNested(lines, ev);
      MachineRefinesMeaning(b, ev);
      assert Acceptable(b, ev);
    }
    if exists b :: Acceptable(b, ev) && lines == Lines(b, []) {
      var b :| Acceptable(b, ev) && lines == Lines(b, []);
      MachineRefinesMeaning(b, ev);
    }
  }
}
