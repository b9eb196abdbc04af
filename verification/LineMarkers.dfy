/**
  Line markers: the include stack that the preprocessor keeps (src/cpp2/preproc.c), how it joins continued lines,
  the markers it prints, and the stack the compiler keeps from them (src/cc1/tokenise.c).
*/
module LineMarkers {
  import opened Common

  type Name = string

  /** An entry of either stack. */
  datatype Entry = Entry(name: Name, line: int, sysh: bool)

  /** A line `# 1 "file" 1 3`: the numbers after the name say what it is for. */
  datatype Marker = Marker(line: int, name: Name, flags: seq<nat>)

  const FILE_STACK_N := 64
  const FNAME_STACK_N := 32

  /** The numbers printed for a set of flags, lowest first. */
  function FlagNumbers(sof: bool, rtf: bool, sysh: bool): seq<nat> {
    (if sof then [1] else []) + (if rtf then [2] else []) + (if sysh then [3] else [])
  }

  lemma FlagsReadBack(sof: bool, rtf: bool, sysh: bool)
    ensures var flags := FlagNumbers(sof, rtf, sysh);
            (1 in flags <==> sof) && (2 in flags <==> rtf) && (3 in flags <==> sysh)
  {
    var a, b, c: seq<nat> := if sof then [1] else [], if rtf then [2] else [], if sysh then [3] else [];
    assert FlagNumbers(sof, rtf, sysh) == (a + b) + c;
  }

  // ---- The preprocessor ----------------------------------------------------------------------------

  /** file_stack up to file_stack_idx, and current_line; how many lines of the one being joined have been read,
      all but the last ending in a backslash; and n_nls, the blank lines still to be printed for a joined one. */
  datatype Cpp = Cpp(files: seq<Entry>, line: int, joined: nat, pending: nat)

  /** What happens: a line that goes on in the next is read; one that ends there is read, and printed or not; a
      blank line is printed in place of one that was joined to another; a file is entered, or ends. */
  datatype Event = Continued | Text | Silent | Blank | Include(name: Name, sysh: bool) | EndOfFile

  function Last<T>(s: seq<T>): T
    requires s != []
  {
    s[|s| - 1]
  }

  function WithLast(s: seq<Entry>, e: Entry): seq<Entry>
    requires s != []
  {
    s[|s| - 1 := e]
  }

  function TopMarker(files: seq<Entry>, sof: bool): Marker
    requires files != []
  {
    Marker(Last(files).line, Last(files).name, FlagNumbers(sof, !sof, Last(files).sysh))
  }

  /** preproc_push, below the limit */
  function Push(c: Cpp, name: Name, sysh: bool): Cpp {
    var saved := if c.files == [] then [] else WithLast(c.files, Last(c.files).(line := c.line));
    c.(files := saved + [Entry(name, 1, sysh)], line := 1)
  }

  /** preproc_pop */
  function Pop(c: Cpp): Cpp
    requires |c.files| > 1
  {
    var files := c.files[..|c.files| - 1];
    c.(files := files, line := Last(files).line)
  }

  /** Whether an event can come next: blank lines are printed before anything else is read. */
  predicate Comes(c: Cpp, e: Event) {
    match e
    case Include(_, _) => |c.files| < FILE_STACK_N && c.joined == 0
    case EndOfFile => |c.files| > 1 && c.pending == 0
    case Blank => c.pending > 0
    case _ => c.pending == 0
  }

  function NextCpp(c: Cpp, e: Event): Cpp
    requires Comes(c, e)
  {
    match e
    case Include(name, sysh) => Push(c, name, sysh)
    case EndOfFile => Pop(c)
    case Continued => c.(line := c.line + 1, joined := c.joined + 1)
    case Blank => c.(pending := c.pending - 1)
    case _ => c.(line := c.line + 1, joined := 0, pending := c.joined)
  }

  predicate AllCome(c: Cpp, h: seq<Event>)
    decreases |h|
  {
    h == [] || (Comes(c, h[0]) && AllCome(NextCpp(c, h[0]), h[1..]))
  }

  function RunCpp(c: Cpp, h: seq<Event>): Cpp
    requires AllCome(c, h)
    decreases |h|
  {
    if h == [] then c else RunCpp(NextCpp(c, h[0]), h[1..])
  }

  lemma {:induction false} RunOn(c: Cpp, h: seq<Event>, more: seq<Event>)
    requires AllCome(c, h) && AllCome(RunCpp(c, h), more)
    ensures AllCome(c, h + more) && RunCpp(c, h + more) == RunCpp(RunCpp(c, h), more)
    decreases |h|
  {
    if h == [] {
      assert h + more == more;
    } else {
      RunOn(NextCpp(c, h[0]), h[1..], more);
      assert (h + more)[1..] == h[1..] + more;
    }
  }

  lemma RunOne(c: Cpp, h: seq<Event>, e: Event)
    requires AllCome(c, h) && Comes(RunCpp(c, h), e)
    ensures AllCome(c, h + [e]) && RunCpp(c, h + [e]) == NextCpp(RunCpp(c, h), e)
  {
    var last := RunCpp(c, h);
    assert [e][1..] == [];
    assert AllCome(NextCpp(last, e), []);
    assert AllCome(last, [e]) && RunCpp(last, [e]) == NextCpp(last, e);
    RunOn(c, h, [e]);
  }

  /** How many lines are left. */
  function Total(inputs: seq<seq<bool>>): nat {
    if inputs == [] then 0 else |Last(inputs)| + Total(inputs[..|inputs| - 1])
  }

  lemma Shorter(inputs: seq<seq<bool>>)
    requires inputs != [] && Last(inputs) != []
    ensures Total(inputs[|inputs| - 1 := Last(inputs)[1..]]) == Total(inputs) - 1
  {
    var after := inputs[|inputs| - 1 := Last(inputs)[1..]];
    assert after[..|after| - 1] == inputs[..|inputs| - 1];
  }

  class Preprocessor {
    var files: seq<Entry>
    var currentLine: int
    var nNls: nat
    /** What is left of each file: whether each of its lines ends in a backslash. */
    var inputs: seq<seq<bool>>

    constructor ()
      ensures Now() == Cpp([], 0, 0, 0) && Valid()
    {
      files, currentLine, nNls, inputs := [], 0, 0, [];
    }

    predicate Valid()
      reads this
    {
      |inputs| == |files|
    }

    /** Between lines. */
    function Now(): Cpp
      reads this
    {
      Cpp(files, currentLine, 0, nNls)
    }

    /** Nothing is returned where the preprocessor gives up: "too many includes". */
    method PreprocPush(name: Name, sysh: bool, input: seq<bool>) returns (m: Option<Marker>)
      requires Valid()
      modifies this
      ensures m.Some? <==> |old(files)| < 64
      ensures m.Some? ==> Valid() && Now() == Push(old(Now()), name, sysh) && m.value == TopMarker(files, true)
      ensures m.Some? ==> inputs == old(inputs) + [input]
    {
      if files != [] { files := WithLast(files, Last(files).(line := currentLine)); }
      if |files| >= FILE_STACK_N { return None; }
      currentLine := 1;
      files := files + [Entry(name, currentLine, sysh)];
      inputs := inputs + [input];
      m := Some(EmitLineInfoTop(true));
    }

    method PreprocPop() returns (m: Marker)
      requires Valid() && |files| > 1
      modifies this
      ensures Valid() && Now() == Pop(old(Now())) && m == TopMarker(files, false)
      ensures inputs == old(inputs)[..|old(inputs)| - 1]
    {
      files := files[..|files| - 1];
      inputs := inputs[..|inputs| - 1];
      currentLine := Last(files).line;
      m := EmitLineInfoTop(false);
    }

    function EmitLineInfoTop(sof: bool): Marker
      reads this
      requires files != []
    {
      TopMarker(files, sof)
    }

    /** read_line: files that are at their ends are left first. Whether the line goes on in the next, or nothing
        at the end of the outermost file. */
    method ReadLine(ghost joined: nat) returns (continued: Option<bool>, ghost ends: seq<Event>)
      requires Valid() && files != [] && nNls == 0
      modifies this
      ensures Valid() && files != [] && nNls == 0
      ensures continued.Some? ==> Total(inputs) < old(Total(inputs))
      ensures continued.Some? ==>
                var before := Cpp(old(files), old(currentLine), joined, 0);
                && (forall e :: e in ends ==> e.EndOfFile?) && AllCome(before, ends)
                && Cpp(files, currentLine, joined, 0) == RunCpp(before, ends).(line := RunCpp(before, ends).line + 1)
    {
      ends := [];
      ghost var before := Cpp(files, currentLine, joined, 0);
      while Last(inputs) == []
        invariant Valid() && files != [] && nNls == 0 && Total(inputs) == old(Total(inputs))
        invariant (forall e :: e in ends ==> e.EndOfFile?) && AllCome(before, ends)
        invariant RunCpp(before, ends) == Cpp(files, currentLine, joined, 0)
        decreases |files|
      {
        if |files| == 1 { return None, ends; }
        ghost var was := Cpp(files, currentLine, joined, 0);
        var _ := PreprocPop();
        RunOne(before, ends, EndOfFile);
        ends := ends + [EndOfFile];
      }
      var last := |inputs| - 1;
      continued := Some(inputs[last][0]);
      Shorter(inputs);
      inputs := inputs[last := inputs[last][1..]];
      currentLine := currentLine + 1;
    }

    /** splice_lines: a blank line that is pending, or a line with those that it goes on in; `h` is what happens
        meanwhile. Backslashes before the end of the outermost file end everything. */
    method SpliceLines(ghost joined: nat) returns (line: bool, eof: bool, ghost h: seq<Event>)
      requires Valid() && files != [] && (nNls > 0 ==> joined == 0)
      modifies this
      ensures Valid() && files != [] && (!line ==> eof)
      ensures !eof ==>
                var before := Cpp(old(files), old(currentLine), joined, old(nNls));
                && h != [] && Last(h) == (if old(nNls) > 0 then Blank else Text) && AllCome(before, h)
                && RunCpp(before, h) == Cpp(files, currentLine, 0, joined + nNls)
      decreases Total(inputs)
    {
      ghost var before := Cpp(files, currentLine, joined, nNls);
      if nNls > 0 {
        nNls := nNls - 1;
        h := [Blank];
        RunOne(before, [], Blank);
        assert [] + [Blank] == h;
        return true, false, h;
      }
      var continued;
      continued, h := ReadLine(joined);
      if continued.None? { return false, true, h; }
      if continued.value {
        ghost var more;
        RunOne(before, h, Continued);
        line, eof, more := SpliceLines(joined + 1);
        if line {
          nNls := nNls + 1;
          if !eof { RunOn(before, h + [Continued], more); }
          h := h + [Continued] + more;
        } else {
          eof := true;
        }
        line := true;
      } else {
        RunOne(before, h, Text);
        h := h + [Text];
        line, eof := true, false;
      }
    }
  }

  // ---- The compiler ----------------------------------------------------------------------------------

  /** current_fname_stack, current_fname, in_sysh, and the line of the last line read. */
  datatype Cc = Cc(stack: seq<Entry>, name: Name, sysh: bool, line: int)

  /** push_fname: when the stack is full only the current name and flag change. */
  function PushFname(c: Cc, name: Name, line: int, sysh: bool): Cc {
    c.(name := name, sysh := sysh,
       stack := if |c.stack| < FNAME_STACK_N then c.stack + [Entry(name, line, sysh)] else c.stack)
  }

  /** Calls of pop_fname until `n` entries are left. */
  function PopTo(c: Cc, n: nat): Cc
    requires 0 < n <= |c.stack|
  {
    if n == |c.stack| then c
    else c.(stack := c.stack[..n], name := c.stack[n - 1].name, sysh := c.stack[n - 1].sysh)
  }

  /** update_stack */
  function Update(c: Cc, line: int, sysh: bool): Cc
    requires c.stack != []
  {
    c.(stack := WithLast(c.stack, Last(c.stack).(line := line, sysh := sysh)), sysh := sysh)
  }

  /** How many entries reach up to the topmost of some name, zero if there is none. */
  function UpToName(stack: seq<Entry>, name: Name): (n: nat)
    ensures n <= |stack|
    ensures n > 0 ==> stack[n - 1].name == name
    ensures forall j :: n <= j < |stack| ==> stack[j].name != name
  {
    if stack == [] then 0
    else if Last(stack).name == name then |stack|
    else UpToName(stack[..|stack| - 1], name)
  }

  /** The first half of handle_line_file_directive: pushing and popping. */
  function Move(c: Cc, m: Marker): Cc {
    if 1 in m.flags || (2 !in m.flags && (c.stack == [] || Last(c.stack).name != m.name)) then
      PushFname(c, m.name, m.line, 3 in m.flags)
    else if 2 in m.flags then
      var n := UpToName(c.stack, m.name);
      if n > 0 then PopTo(c, n) else c
    else c
  }

  /** The second half: `top` is the number of entries up to what was the top before, zero if that has been
      popped or never was. */
  function Adjust(c: Cc, m: Marker, top: nat): Cc
    requires top <= |c.stack|
  {
    if 1 in m.flags || top == 0 then c
    else if 2 !in m.flags && 3 !in m.flags && top != 1 && c.stack[0].line == m.line && c.stack[0].name == m.name then
      PopTo(c, 1)
    else if c.stack[top - 1].name == m.name then Update(c, m.line, 3 in m.flags)
    else c
  }

  /** handle_line_file_directive */
  function Handle(c: Cc, m: Marker): Cc {
    var moved := Move(c, m);
    Adjust(moved, m, if |c.stack| <= |moved.stack| then |c.stack| else 0)
  }

  /** parse_line_directive: the next line read has the number of the marker. */
  function Directive(c: Cc, m: Marker): Cc {
    Handle(c.(line := m.line - 1), m)
  }

  class Tokeniser {
    var stack: seq<Entry>
    var currentFname: Name
    var inSysh: bool
    var line: int

    /** The name that compilation starts with is pushed at once. */
    constructor (name: Name)
      ensures Now() == Cc([Entry(name, 1, false)], name, false, 0)
    {
      stack, currentFname, inSysh, line := [Entry(name, 1, false)], name, false, 0;
    }

    function Now(): Cc
      reads this
    {
      Cc(stack, currentFname, inSysh, line)
    }

    method UpdateStack(lno: int, sysh: bool)
      requires stack != []
      modifies this`stack, this`inSysh
      ensures Now() == Update(old(Now()), lno, sysh)
    {
      stack := WithLast(stack, Last(stack).(line := lno, sysh := sysh));
      inSysh := sysh;
    }

    method PushName(name: Name, lno: int, sysh: bool)
      modifies this
      ensures Now() == PushFname(old(Now()), name, lno, sysh)
      ensures stack == if |old(stack)| < 32 then old(stack) + [Entry(name, lno, sysh)] else old(stack)
    {
      currentFname, inSysh := name, sysh;
      if |stack| < FNAME_STACK_N {
        stack := stack + [Entry(name, lno, sysh)];
        UpdateStack(lno, inSysh);
        assert stack == old(stack) + [Entry(name, lno, sysh)];
      }
    }

    method PopName()
      requires |stack| > 1
      modifies this
      ensures Now() == PopTo(old(Now()), |old(stack)| - 1)
    {
      stack := stack[..|stack| - 1];
      currentFname, inSysh := Last(stack).name, Last(stack).sysh;
    }

    method PopNames(n: nat)
      requires n < |stack|
      modifies this
      ensures Now() == PopTo(old(Now()), |old(stack)| - n)
    {
      var left := n;
      ghost var before := Now();
      while left > 0
        invariant 0 <= left <= n
        invariant |stack| == |before.stack| - (n - left) && Now() == PopTo(before, |stack|)
      {
        PopName();
        assert stack == before.stack[..|stack|];
        left := left - 1;
      }
    }

    /** The search starts at the top. */
    method FindName(name: Name) returns (i: nat)
      ensures i == UpToName(stack, name)
    {
      i := |stack|;
      while i > 0 && stack[i - 1].name != name
        invariant 0 <= i <= |stack|
        invariant UpToName(stack, name) == UpToName(stack[..i], name)
      {
        assert stack[..i][..i - 1] == stack[..i - 1];
        i := i - 1;
      }
    }

    method HandleLineFileDirective(name: Name, lno: int, flags: seq<nat>)
      modifies this
      ensures Now() == Handle(old(Now()), Marker(lno, name, flags))
    {
      var sof, rtf, sysh := 1 in flags, 2 in flags, 3 in flags;
      var top := |stack|;
      if sof || (!rtf && (top == 0 || Last(stack).name != name)) {
        PushName(name, lno, sysh);
      } else if rtf {
        var i := FindName(name);
        if i > 0 { PopNames(|stack| - i); }
        if top > |stack| { top := 0; }
      }
      if !sof && top > 0 {
        if !rtf && !sysh && top != 1 && stack[0].line == lno && stack[0].name == name {
          PopNames(|stack| - 1);
        } else if stack[top - 1].name == name {
          UpdateStack(lno, sysh);
        }
      }
    }

    method ParseLineDirective(m: Marker)
      modifies this
      ensures Now() == Directive(old(Now()), m)
    {
      line := m.line - 1;
      HandleLineFileDirective(m.name, m.line, m.flags);
      assert m == Marker(m.line, m.name, m.flags);
    }

    /** An ordinary line is read. */
    method ReadLine()
      modifies this
      ensures Now() == Line(old(Now()))
    {
      line := line + 1;
      if |stack| > 0 { stack := WithLast(stack, Last(stack).(line := line)); }
    }
  }

  /** `entry` on top, if there is room for it; it is the current file in any case. */
  predicate Entered(c: Cc, r: Cc, entry: Entry) {
    && r.name == entry.name && r.sysh == entry.sysh && r.line == c.line
    && r.stack == if |c.stack| < 32 then c.stack + [entry] else c.stack
  }

  /** The lowest `n` entries are left, and the topmost of them is the current file. */
  predicate LeftAt(c: Cc, r: Cc, n: nat) {
    && 0 < n <= |c.stack| && r.stack == c.stack[..n] && r.line == c.line
    && r.name == c.stack[n - 1].name && r.sysh == c.stack[n - 1].sysh
  }

  /** The top entry is at another line and has another flag. */
  predicate Moved(c: Cc, r: Cc, line: int, sysh: bool) {
    && c.stack != [] && |r.stack| == |c.stack| && r.stack[..|c.stack| - 1] == c.stack[..|c.stack| - 1]
    && Last(r.stack) == Entry(Last(c.stack).name, line, sysh) && r.name == c.name && r.sysh == sysh && r.line == c.line
  }

  /** What a marker does. With flag 1 a file is entered. With flag 2 the topmost file of that name is returned to, and
      nothing happens without one. With neither, the first file is returned to if the marker is just for where it
      stands, and for no system header; otherwise a line number for the current file, or a file that is entered. */
  lemma MarkerMeans(c: Cc, m: Marker)
    ensures var r := Handle(c, m);
            var entry := Entry(m.name, m.line, 3 in m.flags);
            var current := c.stack != [] && Last(c.stack).name == m.name;
            if 1 in m.flags then Entered(c, r, entry)
            else if 2 in m.flags then
              if current then Moved(c, r, m.line, entry.sysh)
              else if exists n :: Topmost(c.stack, m.name, n) then
                exists n :: Topmost(c.stack, m.name, n) && LeftAt(c, r, n)
              else r == c
            else if |c.stack| > 1 && 3 !in m.flags && c.stack[0].name == m.name && c.stack[0].line == m.line then
              LeftAt(c, r, 1)
            else if current then Moved(c, r, m.line, entry.sysh)
            else Entered(c, r, entry)
  {
    var n := UpToName(c.stack, m.name);
    if n > 0 { assert Topmost(c.stack, m.name, n); }
  }

  /** The `n`-th entry is of that name, and none above it is. */
  predicate Topmost(stack: seq<Entry>, name: Name, n: nat) {
    0 < n <= |stack| && stack[n - 1].name == name && forall j :: n <= j < |stack| ==> stack[j].name != name
  }

  function Line(c: Cc): Cc {
    var next := c.line + 1;
    c.(line := next, stack := if c.stack == [] then [] else WithLast(c.stack, Last(c.stack).(line := next)))
  }
}

/** The two stacks against each other, over whole histories of includes. */
module MarkerProtocol {
  import opened LineMarkers

  datatype Both = Both(cpp: Cpp, cc: Cc)

  /** What must hold for an event to happen: includes stay within both limits, and the outermost file's end
      is not a return. */
  predicate Possible(b: Both, e: Event) {
    Comes(b.cpp, e) && (e.Include? ==> |b.cc.stack| < FNAME_STACK_N)
  }

  /** The compiler reads what is printed: a line, or the marker of a file that is entered or returned to. */
  function Next(b: Both, e: Event): Both
    requires Possible(b, e)
  {
    var cpp := NextCpp(b.cpp, e);
    Both(cpp, match e
              case Continued => b.cc
              case Silent => b.cc
              case Text => Line(b.cc)
              case Blank => Line(b.cc)
              case _ => Directive(b.cc, TopMarker(cpp.files, e.Include?)))
  }

  predicate AllPossible(b: Both, h: seq<Event>)
    decreases |h|
  {
    h == [] || (Possible(b, h[0]) && AllPossible(Next(b, h[0]), h[1..]))
  }

  function Run(b: Both, h: seq<Event>): Both
    requires AllPossible(b, h)
    decreases |h|
  {
    if h == [] then b else Run(Next(b, h[0]), h[1..])
  }

  /** The compiler starts with an entry of its own, and the preprocessor with the file to be compiled. */
  function Start(initial: Name, file: Name): Both {
    var cpp := Push(Cpp([], 0, 0, 0), file, false);
    Both(cpp, Directive(Cc([Entry(initial, 1, false)], initial, false, 0), TopMarker(cpp.files, true)))
  }

  // ---- What agrees whatever is included ----------------------------------------------------------------

  /** The compiler's entries are those of the preprocessor, each perhaps with others of the same name below
      it: entry `i` of `ps` stands on those of `cs` that end before `ends[i]`. */
  ghost predicate Stands(cs: seq<Entry>, ps: seq<Entry>, ends: seq<nat>) {
    && |ends| == |ps| && ps != [] && ends[|ps| - 1] == |cs|
    && forall i :: 0 <= i < |ps| ==> Segment(cs, ps, ends, i)
  }

  function From(ends: seq<nat>, i: nat): nat
    requires i <= |ends|
  {
    if i == 0 then 0 else ends[i - 1]
  }

  ghost predicate Segment(cs: seq<Entry>, ps: seq<Entry>, ends: seq<nat>, i: nat)
    requires i < |ps| == |ends|
  {
    && From(ends, i) < ends[i] <= |cs|
    && cs[ends[i] - 1].sysh == ps[i].sysh
    && forall j :: From(ends, i) <= j < ends[i] ==> cs[j].name == ps[i].name
  }

  /** Name and flag agree, and the compiler's stack stands for the preprocessor's. */
  ghost predicate Agree(b: Both, ends: seq<nat>) {
    && b.cpp.files != [] && |b.cc.stack| > 1
    && b.cc.name == Last(b.cpp.files).name && b.cc.sysh == Last(b.cpp.files).sysh
    && Stands(b.cc.stack[1..], b.cpp.files, ends)
  }

  /** Stands does not depend on line numbers. */
  ghost predicate SameFiles(a: seq<Entry>, b: seq<Entry>) {
    |a| == |b| && forall i :: 0 <= i < |a| ==> a[i].name == b[i].name && a[i].sysh == b[i].sysh
  }

  lemma StandsForSame(cs: seq<Entry>, cs': seq<Entry>, ps: seq<Entry>, ps': seq<Entry>, ends: seq<nat>)
    requires Stands(cs, ps, ends) && SameFiles(cs, cs') && SameFiles(ps, ps')
    ensures Stands(cs', ps', ends)
  {
    forall i | 0 <= i < |ps'| ensures Segment(cs', ps', ends, i) {
      assert Segment(cs, ps, ends, i);
    }
  }

  lemma StandsPush(cs: seq<Entry>, ps: seq<Entry>, ends: seq<nat>, c: Entry, p: Entry)
    requires Stands(cs, ps, ends) && c.name == p.name && c.sysh == p.sysh
    ensures Stands(cs + [c], ps + [p], ends + [|cs| + 1])
  {
    var ends' := ends + [|cs| + 1];
    forall i | 0 <= i < |ps + [p]| ensures Segment(cs + [c], ps + [p], ends', i) {
      if i < |ps| {
        assert Segment(cs, ps, ends, i);
        assert From(ends', i) == From(ends, i);
      }
    }
  }

  /** A return to a file of another name drops all entries of the file that ended. */
  lemma StandsPopOther(cs: seq<Entry>, ps: seq<Entry>, ends: seq<nat>)
    requires |ps| > 1 && Stands(cs, ps, ends) && ps[|ps| - 1].name != ps[|ps| - 2].name
    ensures var n := ends[|ps| - 2];
            && UpToName(cs, ps[|ps| - 2].name) == n && 0 < n < |cs|
            && Stands(cs[..n], ps[..|ps| - 1], ends[..|ps| - 1])
  {
    var last, n, name := |ps| - 1, ends[|ps| - 2], ps[|ps| - 2].name;
    assert Segment(cs, ps, ends, last) && Segment(cs, ps, ends, last - 1);
    assert forall j :: n <= j < |cs| ==> cs[j].name == ps[last].name;
    UpToNameIs(cs, name, n);
    StandsBelow(cs, ps, ends);
  }

  lemma StandsBelow(cs: seq<Entry>, ps: seq<Entry>, ends: seq<nat>)
    requires |ps| > 1 && Stands(cs, ps, ends)
    ensures ends[|ps| - 2] <= |cs| && Stands(cs[..ends[|ps| - 2]], ps[..|ps| - 1], ends[..|ps| - 1])
  {
    var last, n := |ps| - 1, ends[|ps| - 2];
    assert Segment(cs, ps, ends, last);
    forall i | 0 <= i < last ensures Segment(cs[..n], ps[..last], ends[..last], i) {
      assert Segment(cs, ps, ends, i);
      EndsAscend(cs, ps, ends, i, last - 1);
      assert From(ends[..last], i) == From(ends, i);
    }
  }

  lemma UpToNameIs(s: seq<Entry>, name: Name, n: nat)
    requires 0 < n <= |s| && s[n - 1].name == name && forall j :: n <= j < |s| ==> s[j].name != name
    ensures UpToName(s, name) == n
  {
    var m := UpToName(s, name);
  }

  lemma {:induction false} EndsAscend(cs: seq<Entry>, ps: seq<Entry>, ends: seq<nat>, i: nat, j: nat)
    requires Stands(cs, ps, ends) && i <= j < |ps|
    ensures ends[i] <= ends[j]
    decreases j
  {
    if i < j {
      assert Segment(cs, ps, ends, j);
      EndsAscend(cs, ps, ends, i, j - 1);
    }
  }

  /** A return to a file of the same name drops none; the topmost takes over the flag. */
  lemma StandsPopSame(cs: seq<Entry>, ps: seq<Entry>, ends: seq<nat>, c: Entry)
    requires |ps| > 1 && Stands(cs, ps, ends) && ps[|ps| - 1].name == ps[|ps| - 2].name
    requires c.name == ps[|ps| - 2].name && c.sysh == ps[|ps| - 2].sysh
    ensures cs != [] && UpToName(cs, ps[|ps| - 2].name) == |cs|
    ensures Stands(WithLast(cs, c), ps[..|ps| - 1], ends[..|ps| - 1][|ps| - 2 := |cs|])
  {
    var below, ends' := ps[..|ps| - 1], ends[..|ps| - 1][|ps| - 2 := |cs|];
    var last := |ps| - 1;
    assert Segment(cs, ps, ends, last) && Segment(cs, ps, ends, last - 1);
    var cs' := WithLast(cs, c);
    UpToNameIs(cs, ps[last - 1].name, |cs|);
    forall i | 0 <= i < last ensures Segment(cs', below, ends', i) {
      assert Segment(cs, ps, ends, i);
      assert From(ends', i) == From(ends, i);
      if i < last - 1 { EndsAscend(cs, ps, ends, i, last - 1); }
    }
  }

  lemma UpToNameAbove(s: seq<Entry>, name: Name)
    requires s != [] && UpToName(s[1..], name) > 0
    ensures UpToName(s, name) == UpToName(s[1..], name) + 1
  {
    var n := UpToName(s[1..], name);
    assert s[1..][n - 1] == s[n];
    forall j | n + 1 <= j < |s| ensures s[j].name != name {
      assert s[j] == s[1..][j - 1];
    }
    UpToNameIs(s, name, n + 1);
  }

  lemma MarkerFlags(files: seq<Entry>, sof: bool)
    requires files != []
    ensures var m := TopMarker(files, sof);
            (1 in m.flags <==> sof) && (2 in m.flags <==> !sof) && (3 in m.flags <==> Last(files).sysh)
  {
    FlagsReadBack(sof, !sof, Last(files).sysh);
  }

  lemma IncludeAgrees(b: Both, e: Event, ends: seq<nat>)
    requires Agree(b, ends) && Possible(b, e) && e.Include?
    ensures Agree(Next(b, e), ends + [|b.cc.stack|])
  {
    var cpp := NextCpp(b.cpp, e);
    MarkerFlags(cpp.files, true);
    var saved := WithLast(b.cpp.files, Last(b.cpp.files).(line := b.cpp.line));
    StandsForSame(b.cc.stack[1..], b.cc.stack[1..], b.cpp.files, saved, ends);
    var c := Entry(e.name, 1, e.sysh);
    StandsPush(b.cc.stack[1..], saved, ends, c, c);
    assert (b.cc.stack + [c])[1..] == b.cc.stack[1..] + [c];
  }

  lemma EndAgrees(b: Both, ends: seq<nat>) returns (ends': seq<nat>)
    requires Agree(b, ends) && Possible(b, EndOfFile)
    ensures Agree(Next(b, EndOfFile), ends')
  {
    var ps, n := b.cpp.files, |b.cpp.files|;
    if ps[n - 1].name == ps[n - 2].name {
      SameEndAgrees(b, ends);
      ends' := ends[..n - 1][n - 2 := |b.cc.stack[1..]|];
    } else {
      OtherEndAgrees(b, ends);
      ends' := ends[..n - 1];
    }
  }

  /** The marker for a return to the file below the top one. */
  lemma ReturnMarker(c: Cpp)
    requires |c.files| > 1
    ensures var m, to := TopMarker(Pop(c).files, false), c.files[|c.files| - 2];
            && m.name == to.name && m.line == to.line && Pop(c).line == to.line && Last(Pop(c).files) == to
            && 1 !in m.flags && 2 in m.flags && (3 in m.flags <==> to.sysh)
  {
    MarkerFlags(Pop(c).files, false);
  }

  /** The compiler's handling of such a marker. */
  lemma HandleReturn(c: Cc, m: Marker, n: nat)
    requires c.stack != [] && 1 !in m.flags && 2 in m.flags && n == UpToName(c.stack, m.name) > 0
    ensures n < |c.stack| ==> Handle(c, m) == PopTo(c, n)
    ensures n == |c.stack| ==> Handle(c, m) == Update(c, m.line, 3 in m.flags)
  {}

  lemma SameEndAgrees(b: Both, ends: seq<nat>)
    requires Agree(b, ends) && Possible(b, EndOfFile)
    requires b.cpp.files[|b.cpp.files| - 1].name == b.cpp.files[|b.cpp.files| - 2].name
    ensures var n := |b.cpp.files|; Agree(Next(b, EndOfFile), ends[..n - 1][n - 2 := |b.cc.stack[1..]|])
  {
    var ps, stack := b.cpp.files, b.cc.stack;
    var cs, m, to := stack[1..], TopMarker(Pop(b.cpp).files, false), ps[|ps| - 2];
    ReturnMarker(b.cpp);
    assert Last(cs) == Last(stack) && Segment(cs, ps, ends, |ps| - 1);
    var c := Last(stack).(line := m.line, sysh := to.sysh);
    StandsPopSame(cs, ps, ends, c);
    UpToNameAbove(stack, m.name);
    HandleReturn(b.cc.(line := m.line - 1), m, |stack|);
    assert WithLast(stack, c)[1..] == WithLast(cs, c);
  }

  lemma OtherEndAgrees(b: Both, ends: seq<nat>)
    requires Agree(b, ends) && Possible(b, EndOfFile)
    requires b.cpp.files[|b.cpp.files| - 1].name != b.cpp.files[|b.cpp.files| - 2].name
    ensures Agree(Next(b, EndOfFile), ends[..|b.cpp.files| - 1])
  {
    var ps, stack := b.cpp.files, b.cc.stack;
    var cs, m := stack[1..], TopMarker(Pop(b.cpp).files, false);
    ReturnMarker(b.cpp);
    StandsPopOther(cs, ps, ends);
    var n := UpToName(cs, m.name);
    UpToNameAbove(stack, m.name);
    HandleReturn(b.cc.(line := m.line - 1), m, n + 1);
    assert stack[..n + 1][1..] == cs[..n];
    assert stack[n] == cs[n - 1] && Segment(cs, ps, ends, |ps| - 2);
  }

  lemma LineAgrees(b: Both, e: Event, ends: seq<nat>)
    requires Agree(b, ends) && Possible(b, e) && !e.Include? && !e.EndOfFile?
    ensures Agree(Next(b, e), ends)
  {
    StandsForSame(b.cc.stack[1..], Next(b, e).cc.stack[1..], b.cpp.files, b.cpp.files, ends);
  }

  lemma StartAgrees(initial: Name, file: Name)
    ensures Agree(Start(initial, file), [1]) && InStep(Start(initial, file)) && Ahead(Start(initial, file)) == 0
  {
    var cpp := Push(Cpp([], 0, 0, 0), file, false);
    MarkerFlags(cpp.files, true);
    var b := Start(initial, file);
    assert b.cc.stack == [Entry(initial, 1, false), Entry(file, 1, false)];
    assert b.cc.stack[1..] == [Entry(file, 1, false)];
    assert Segment(b.cc.stack[1..], b.cpp.files, [1], 0);
  }

  lemma {:induction false} RunAgrees(b: Both, h: seq<Event>, ends: seq<nat>) returns (ends': seq<nat>)
    requires Agree(b, ends) && AllPossible(b, h)
    ensures Agree(Run(b, h), ends')
    decreases |h|
  {
    if h == [] { return ends; }
    var mid := ends;
    if h[0].Include? {
      IncludeAgrees(b, h[0], ends);
      mid := ends + [|b.cc.stack|];
    } else if h[0].EndOfFile? {
      mid := EndAgrees(b, ends);
    } else {
      LineAgrees(b, h[0], ends);
    }
    ends' := RunAgrees(Next(b, h[0]), h[1..], mid);
  }

  /** Whatever files include, themselves among them, the compiler's current name and its system-header flag are
      those of the preprocessor. */
  lemma CurrentFileAgrees(initial: Name, file: Name, h: seq<Event>)
    requires AllPossible(Start(initial, file), h)
    ensures var b := Run(Start(initial, file), h);
            && b.cpp.files != []
            && b.cc.name == Last(b.cpp.files).name && b.cc.sysh == Last(b.cpp.files).sysh
  {
    StartAgrees(initial, file);
    var _ := RunAgrees(Start(initial, file), h, [1]);
  }

  // ---- When line numbers agree ------------------------------------------------------------------------

  /** By how much the compiler's number for the next line is ahead: of the lines that have been read, those that
      are still to be printed count as printed. */
  function Ahead(b: Both): int {
    b.cc.line + 1 + b.cpp.joined + b.cpp.pending - b.cpp.line
  }

  /** What an event makes of it: a marker starts afresh, but lines that are printed after it belong before it. */
  function AheadAfter(c: Cpp, e: Event, ahead: int): int {
    match e
    case Include(_, _) => c.pending
    case EndOfFile => c.joined
    case Silent => ahead - 1
    case _ => ahead
  }

  lemma HandleKeepsLine(c: Cc, m: Marker)
    ensures Directive(c, m).line == m.line - 1
  {}

  lemma AheadStep(b: Both, e: Event)
    requires Possible(b, e)
    ensures Ahead(Next(b, e)) == AheadAfter(b.cpp, e, Ahead(b))
  {
    if e.Include? || e.EndOfFile? { HandleKeepsLine(b.cc, TopMarker(NextCpp(b.cpp, e).files, e.Include?)); }
  }

  function AheadAtEnd(c: Cpp, h: seq<Event>, ahead: int): int
    requires AllCome(c, h)
    decreases |h|
  {
    if h == [] then ahead else AheadAtEnd(NextCpp(c, h[0]), h[1..], AheadAfter(c, h[0], ahead))
  }

  lemma {:induction false} PossibleComes(b: Both, h: seq<Event>)
    requires AllPossible(b, h)
    ensures AllCome(b.cpp, h)
    decreases |h|
  {
    if h != [] { PossibleComes(Next(b, h[0]), h[1..]); }
  }

  /** By how much the compiler's line number is off after any history. */
  lemma {:induction false} LineIsAheadBy(b: Both, h: seq<Event>)
    requires AllPossible(b, h)
    ensures AllCome(b.cpp, h) && Ahead(Run(b, h)) == AheadAtEnd(b.cpp, h, Ahead(b))
    decreases |h|
  {
    PossibleComes(b, h);
    if h != [] {
      AheadStep(b, h[0]);
      LineIsAheadBy(Next(b, h[0]), h[1..]);
    }
  }

  ghost predicate LinesAgreeThroughout(b: Both, h: seq<Event>)
    requires AllPossible(b, h)
    decreases |h|
  {
    Ahead(b) == 0 && (h == [] || LinesAgreeThroughout(Next(b, h[0]), h[1..]))
  }

  /** A file is entered while blank lines are pending, one ends within a line that goes on, or a line is read and
      not printed. */
  predicate Disturbs(c: Cpp, e: Event) {
    match e
    case Include(_, _) => c.pending > 0
    case EndOfFile => c.joined > 0
    case Silent => true
    case _ => false
  }

  predicate Undisturbed(c: Cpp, h: seq<Event>)
    requires AllCome(c, h)
    decreases |h|
  {
    h == [] || (!Disturbs(c, h[0]) && Undisturbed(NextCpp(c, h[0]), h[1..]))
  }

  /** The compiler numbers every line as the preprocessor does exactly then. */
  lemma {:induction false} LinesAgreeIff(b: Both, h: seq<Event>)
    requires AllPossible(b, h) && Ahead(b) == 0
    ensures AllCome(b.cpp, h) && (LinesAgreeThroughout(b, h) <==> Undisturbed(b.cpp, h))
    decreases |h|
  {
    PossibleComes(b, h);
    if h != [] {
      AheadStep(b, h[0]);
      if Ahead(Next(b, h[0])) == 0 { LinesAgreeIff(Next(b, h[0]), h[1..]); }
    }
  }

  /** An `#include` that is continued over two lines: the second of them is printed in the file it enters, so that
      every line of that file is numbered one too high. */
  lemma ContinuedInclude(initial: Name, file: Name, name: Name)
    ensures var h := [Continued, Text, Include(name, false), Blank];
            AllPossible(Start(initial, file), h) && Ahead(Run(Start(initial, file), h)) == 1
  {
    var b0 := Start(initial, file);
    StartAgrees(initial, file);
    var b1 := Next(b0, Continued);
    var b2 := Next(b1, Text);
    var b3 := Next(b2, Include(name, false));
    var h3, h2: seq<Event> := [Blank], [Include(name, false), Blank];
    var h1, h: seq<Event> := [Text, Include(name, false), Blank], [Continued, Text, Include(name, false), Blank];
    assert h[1..] == h1 && h1[1..] == h2 && h2[1..] == h3 && h3[1..] == [];
    AheadStep(b2, Include(name, false));
    AheadStep(b3, Blank);
    var b4 := Next(b3, Blank);
    assert AllPossible(b4, []) && Run(b4, []) == b4;
    assert AllPossible(b3, h3) && Run(b3, h3) == b4;
    assert AllPossible(b2, h2) && Run(b2, h2) == b4;
    assert AllPossible(b1, h1) && Run(b1, h1) == b4;
  }

  // ---- Line numbers are those of the files -----------------------------------------------------------

  /** A file: ordinary lines, and `#include` lines with what they include. */
  datatype Part = Ordinary | Includes(name: Name, sysh: bool, parts: seq<Part>)

  /** What happens while it is read. */
  function Happens(parts: seq<Part>): seq<Event>
    decreases parts, 0
  {
    if parts == [] then [] else PartHappens(parts[0]) + Happens(parts[1..])
  }

  function PartHappens(p: Part): seq<Event>
    decreases p, 1
  {
    match p
    case Ordinary => [Text]
    case Includes(name, sysh, parts) => [Text, Include(name, sysh)] + Happens(parts) + [EndOfFile]
  }

  function Nesting(parts: seq<Part>): nat
    decreases parts, 0
  {
    if parts == [] then 0
    else
      var first := if parts[0].Includes? then 1 + Nesting(parts[0].parts) else 0;
      var more := Nesting(parts[1..]);
      if first > more then first else more
  }

  /** Between two lines of a file. */
  predicate Between(c: Cpp) {
    c.files != [] && c.joined == 0 && c.pending == 0
  }

  /** `n` lines of the current file further on. */
  predicate LinesOn(c: Cpp, r: Cpp, n: nat) {
    && Between(c) && Between(r) && |r.files| == |c.files| && r.line == c.line + n
    && r.files[..|r.files| - 1] == c.files[..|c.files| - 1]
    && Last(r.files).name == Last(c.files).name && Last(r.files).sysh == Last(c.files).sysh
  }

  /** Whatever is included on the way, to any depth within the limit: once some lines of a file have been read, the
      preprocessor is as many lines further on in that file. */
  lemma {:induction false} LinesOfFile(c: Cpp, parts: seq<Part>)
    requires Between(c) && |c.files| + Nesting(parts) <= 64
    ensures AllCome(c, Happens(parts)) && LinesOn(c, RunCpp(c, Happens(parts)), |parts|)
    decreases parts, 0
  {
    if parts != [] {
      LinesOfPart(c, parts[0]);
      var mid := RunCpp(c, PartHappens(parts[0]));
      LinesOfFile(mid, parts[1..]);
      RunOn(c, PartHappens(parts[0]), Happens(parts[1..]));
    }
  }

  lemma {:induction false} LinesOfPart(c: Cpp, p: Part)
    requires Between(c) && |c.files| + (if p.Includes? then 1 + Nesting(p.parts) else 0) <= 64
    ensures AllCome(c, PartHappens(p)) && LinesOn(c, RunCpp(c, PartHappens(p)), 1)
    decreases p, 1
  {
    RunOne(c, [], Text);
    assert [] + [Text] == [Text];
    if p.Includes? {
      var read := NextCpp(c, Text);
      var e, inner := Include(p.name, p.sysh), Happens(p.parts);
      RunOne(c, [Text], e);
      assert [Text] + [e] == [Text, e];
      var entered := NextCpp(read, e);
      LinesOfFile(entered, p.parts);
      RunOn(c, [Text, e], inner);
      var last := RunCpp(entered, inner);
      LinesBack(read, entered, last);
      RunOne(c, [Text, e] + inner, EndOfFile);
    }
  }

  lemma LinesBack(read: Cpp, entered: Cpp, last: Cpp)
    requires Between(read) && Between(last) && |last.files| == |entered.files| == |read.files| + 1
    requires entered.files[..|read.files|] == WithLast(read.files, Last(read.files).(line := read.line))
    requires last.files[..|read.files|] == entered.files[..|read.files|]
    ensures Comes(last, EndOfFile) && LinesOn(read, NextCpp(last, EndOfFile), 0)
  {}

  function ReadLines(c: Cc, n: nat): Cc {
    if n == 0 then c else Line(ReadLines(c, n - 1))
  }

  /** And the compiler, once it is told of a file that is entered, gives the `n`-th line that is read the number `n`. */
  lemma {:induction false} LinesFromOne(c: Cpp, cc: Cc, name: Name, sysh: bool, n: nat)
    ensures ReadLines(Directive(cc, TopMarker(Push(c, name, sysh).files, true)), n).line == n
  {
    if n > 0 { LinesFromOne(c, cc, name, sysh, n - 1); }
  }

  // ---- When the whole stacks agree -------------------------------------------------------------------

  /** Above its initial entry the compiler's stack has the preprocessor's files. */
  ghost predicate InStep(b: Both) {
    && b.cpp.files != [] && b.cc.stack != []
    && SameFiles(b.cc.stack[1..], b.cpp.files)
  }

  ghost predicate InStepThroughout(b: Both, h: seq<Event>)
    requires AllPossible(b, h)
    decreases |h|
  {
    InStep(b) && (h == [] || InStepThroughout(Next(b, h[0]), h[1..]))
  }

  /** A file ends that was included by one of the same name. */
  predicate ReturnsToItself(c: Cpp, h: seq<Event>)
    requires AllCome(c, h)
    decreases |h|
  {
    h != [] &&
    ((h[0].EndOfFile? && c.files[|c.files| - 1].name == c.files[|c.files| - 2].name)
     || ReturnsToItself(NextCpp(c, h[0]), h[1..]))
  }

  lemma InStepInclude(b: Both, e: Event)
    requires InStep(b) && Possible(b, e) && !e.EndOfFile?
    ensures InStep(Next(b, e))
  {
    var stack, after := b.cc.stack, Next(b, e);
    if e.Include? {
      MarkerFlags(after.cpp.files, true);
      assert after.cc.stack[1..] == stack[1..] + [Entry(e.name, 1, e.sysh)];
    }
  }

  lemma InStepReturn(b: Both)
    requires InStep(b) && Possible(b, EndOfFile)
    requires b.cpp.files[|b.cpp.files| - 1].name != b.cpp.files[|b.cpp.files| - 2].name
    ensures InStep(Next(b, EndOfFile))
  {
    var stack, after, n := b.cc.stack, Next(b, EndOfFile), |b.cpp.files|;
    MarkerFlags(after.cpp.files, false);
    assert stack[n] == stack[1..][n - 1] && stack[n - 1] == stack[1..][n - 2];
    UpToNameIs(stack, b.cpp.files[n - 2].name, n);
    assert after.cc.stack == stack[..n];
    assert after.cc.stack[1..] == stack[1..][..n - 1];
  }

  lemma OutOfStep(b: Both)
    requires InStep(b) && Possible(b, EndOfFile)
    requires b.cpp.files[|b.cpp.files| - 1].name == b.cpp.files[|b.cpp.files| - 2].name
    ensures !InStep(Next(b, EndOfFile))
  {
    var stack, after, n := b.cc.stack, Next(b, EndOfFile), |b.cpp.files|;
    MarkerFlags(after.cpp.files, false);
    assert stack[n] == stack[1..][n - 1];
    UpToNameIs(stack, b.cpp.files[n - 2].name, n + 1);
    assert |after.cc.stack| == n + 1;
  }

  /** The stacks are in step after every push and pop, above the compiler's initial entry, exactly when no
      file ends that was included by one of the same name: the search for the name to return to starts at
      the file that has ended. */
  lemma {:induction false} StacksInStep(b: Both, h: seq<Event>)
    requires InStep(b) && AllPossible(b, h)
    ensures AllCome(b.cpp, h) && (InStepThroughout(b, h) <==> !ReturnsToItself(b.cpp, h))
    decreases |h|
  {
    PossibleComes(b, h);
    if h != [] {
      var n := |b.cpp.files|;
      if !h[0].EndOfFile? { InStepInclude(b, h[0]); }
      else if b.cpp.files[n - 1].name == b.cpp.files[n - 2].name { OutOfStep(b); }
      else { InStepReturn(b); }
      if InStep(Next(b, h[0])) { StacksInStep(Next(b, h[0]), h[1..]); }
    }
  }
}
