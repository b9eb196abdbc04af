/**
  Macro expansion (src/cpp2/eval.c, src/cpp2/snapshot.c): the blue counts that stop a macro from being
  expanded inside itself (section 6.10.3.4 of ISO C11).

  Text is abstract: what the scanner meets is given as a tree of hits, the macro names it finds and what
  each turns into.  The results hold for every such tree.
*/
module MacroPaint {

  /** A macro name found in a line, what its replacement does, and the hits of the line scanned again. */
  datatype Hit = Hit(m: nat, action: Action, rescan: seq<Hit>)

  /** An object-like macro; a function-like one without arguments; an invocation, with the hits in each
      argument that is expanded before it is put in. */
  datatype Action = Object | NotInvoked | Invoked(args: Args)

  /** The expanded arguments of an invocation, in order. */
  datatype Args = NoArgs | Arg(hits: seq<Hit>, more: Args)

  /** For each macro, how often it is being expanded, and how often it has been used; and which macros have been
      expanded, in the order in which their expansions began. */
  datatype State = State(blue: seq<int>, used: seq<int>, entered: seq<nat>)

  predicate Known(hits: seq<Hit>, n: nat)
    decreases hits, 0
  {
    hits == [] || (KnownHit(hits[0], n) && Known(hits[1..], n))
  }

  predicate KnownHit(h: Hit, n: nat)
    decreases h, 1
  {
    h.m < n && Known(h.rescan, n) && (h.action.Invoked? ==> KnownArgs(h.action.args, n))
  }

  predicate KnownArgs(args: Args, n: nat)
    decreases args, 0
  {
    args.NoArgs? || (Known(args.hits, n) && KnownArgs(args.more, n))
  }

  predicate Sized(s: State, n: nat) {
    |s.blue| == |s.used| == n
  }

  /** snapshot_alter_blue: change the count of every macro whose use count differs between two snapshots. */
  function AlterBlue(blue: seq<int>, pre: seq<int>, post: seq<int>, change: int): (r: seq<int>)
    requires |blue| == |pre| == |post|
    ensures |r| == |blue|
    ensures forall i :: 0 <= i < |r| ==> r[i] == blue[i] + if post[i] != pre[i] then change else 0
  {
    seq(|blue|, i requires 0 <= i < |blue| => blue[i] + if post[i] != pre[i] then change else 0)
  }

  /** What eval_macro does first: the macro is used, and painted. */
  function Enter(s: State, m: nat): State
    requires m < |s.blue| == |s.used|
  {
    State(s.blue[m := s.blue[m] + 1], s.used[m := s.used[m] + 1], s.entered + [m])
  }

  /** eval_expand_macros over the hits of a line */
  function Expand(s: State, hits: seq<Hit>): (r: State)
    requires |s.blue| == |s.used| && Known(hits, |s.blue|)
    ensures Sized(r, |s.blue|)
    decreases hits, 0
  {
    if hits == [] then s else Expand(EvalMacro(s, hits[0]), hits[1..])
  }

  /** eval_macro: a macro that is being expanded is left alone. */
  function EvalMacro(s: State, h: Hit): (r: State)
    requires |s.blue| == |s.used| && KnownHit(h, |s.blue|)
    ensures Sized(r, |s.blue|)
    decreases h, 3
  {
    if s.blue[h.m] != 0 then s
    else
      var r := DoubleEval(Enter(s, h.m), h);
      r.(blue := r.blue[h.m := r.blue[h.m] - 1])
  }

  /** eval_macro_double_eval: what has been used is painted while the line is scanned again. */
  function DoubleEval(s: State, h: Hit): (r: State)
    requires |s.blue| == |s.used| && KnownHit(h, |s.blue|)
    ensures Sized(r, |s.blue|)
    decreases h, 2
  {
    var t := Replace(s, h);
    var r := Expand(t.(blue := AlterBlue(t.blue, s.used, t.used, 1)), h.rescan);
    r.(blue := AlterBlue(r.blue, s.used, t.used, -1))
  }

  /** eval_macro_r: a name that is not invoked takes its use back. */
  function Replace(s: State, h: Hit): (r: State)
    requires |s.blue| == |s.used| && KnownHit(h, |s.blue|)
    ensures Sized(r, |s.blue|)
    decreases h, 1
  {
    match h.action
    case Object => s
    case NotInvoked => s.(used := s.used[h.m := s.used[h.m] - 1])
    case Invoked(args) => ExpandArgs(s, args)
  }

  /** eval_func_macro: each argument is expanded, and the use counts are put back after it. */
  function ExpandArgs(s: State, args: Args): (r: State)
    requires |s.blue| == |s.used| && KnownArgs(args, |s.blue|)
    ensures Sized(r, |s.blue|)
    decreases args, 0
  {
    if args.NoArgs? then s else ExpandArgs(Expand(s, args.hits).(used := s.used), args.more)
  }

  // ---- The paint is taken off again --------------------------------------------------------------

  /** After any expansion, every macro's blue count is what it was before. */
  lemma {:induction false} BlueIsRestored(s: State, hits: seq<Hit>)
    requires |s.blue| == |s.used| && Known(hits, |s.blue|)
    ensures Expand(s, hits).blue == s.blue
    decreases hits, 0
  {
    if hits != [] {
      BlueIsRestoredBy(s, hits[0]);
      BlueIsRestored(EvalMacro(s, hits[0]), hits[1..]);
    }
  }

  lemma {:induction false} BlueIsRestoredBy(s: State, h: Hit)
    requires |s.blue| == |s.used| && KnownHit(h, |s.blue|)
    ensures EvalMacro(s, h).blue == s.blue
    decreases h, 3
  {
    if s.blue[h.m] == 0 {
      var s1 := Enter(s, h.m);
      ReplaceKeepsBlue(s1, h);
      var s2 := Replace(s1, h);
      var s3 := s2.(blue := AlterBlue(s2.blue, s1.used, s2.used, 1));
      BlueIsRestored(s3, h.rescan);
      assert AlterBlue(s3.blue, s1.used, s2.used, -1) == s1.blue;
    }
  }

  lemma {:induction false} ReplaceKeepsBlue(s: State, h: Hit)
    requires |s.blue| == |s.used| && KnownHit(h, |s.blue|)
    ensures Replace(s, h).blue == s.blue
    decreases h, 1
  {
    if h.action.Invoked? { ArgsKeepBlue(s, h.action.args); }
  }

  lemma {:induction false} ArgsKeepBlue(s: State, args: Args)
    requires |s.blue| == |s.used| && KnownArgs(args, |s.blue|)
    ensures ExpandArgs(s, args).blue == s.blue && ExpandArgs(s, args).used == s.used
    decreases args, 0
  {
    if args.Arg? {
      BlueIsRestored(s, args.hits);
      ArgsKeepBlue(Expand(s, args.hits).(used := s.used), args.more);
    }
  }

  /** The snapshot around a replacement paints a macro only for a name that was not invoked, and then only
      that macro itself: what arguments used has been put back. */
  lemma OnlyNonInvocationsPaint(s: State, h: Hit)
    requires |s.blue| == |s.used| && KnownHit(h, |s.blue|)
    ensures forall i :: 0 <= i < |s.used| ==>
              (Replace(s, h).used[i] != s.used[i] <==> i == h.m && h.action.NotInvoked?)
  {
    if h.action.Invoked? { ArgsKeepBlue(s, h.action.args); }
  }

  // ---- Which macros are expanded -------------------------------------------------------------------

  /** The macros that are being expanded are those with paint on them. */
  ghost predicate PaintedExactly(s: State, active: set<nat>) {
    forall i :: 0 <= i < |s.blue| ==> s.blue[i] >= 0 && (s.blue[i] > 0 <==> i in active)
  }

  /** The macros that are expanded for some hits, in order, while those of `active` are: any other, then those in
      its arguments, and then those found when the line is scanned again, both while it is active too. */
  function Trace(hits: seq<Hit>, active: set<nat>): seq<nat>
    decreases hits, 0
  {
    if hits == [] then [] else TraceHit(hits[0], active) + Trace(hits[1..], active)
  }

  function TraceHit(h: Hit, active: set<nat>): seq<nat>
    decreases h, 1
  {
    if h.m in active then []
    else
      [h.m] + (if h.action.Invoked? then TraceArgs(h.action.args, active + {h.m}) else [])
        + Trace(h.rescan, active + {h.m})
  }

  function TraceArgs(args: Args, active: set<nat>): seq<nat>
    decreases args, 0
  {
    if args.NoArgs? then [] else Trace(args.hits, active) + TraceArgs(args.more, active)
  }

  /** How often the macro `m` is counted as used: once for each time it is expanded, except in the arguments of
      another, and except for a name that is not invoked. */
  function Uses(hits: seq<Hit>, active: set<nat>, m: nat): nat
    decreases hits, 0
  {
    if hits == [] then 0 else UsesOf(hits[0], active, m) + Uses(hits[1..], active, m)
  }

  function UsesOf(h: Hit, active: set<nat>, m: nat): nat
    decreases h, 1
  {
    if h.m in active then 0
    else (if m == h.m && !h.action.NotInvoked? then 1 else 0) + Uses(h.rescan, active + {h.m}, m)
  }

  /** What expanding some hits comes to. */
  ghost predicate Follows(s: State, r: State, trace: seq<nat>, hits: seq<Hit>, active: set<nat>) {
    && r.entered == s.entered + trace && r.blue == s.blue && |r.used| == |s.used|
    && forall m :: 0 <= m < |s.used| ==> r.used[m] == s.used[m] + Uses(hits, active, m)
  }

  /** Exactly the macros that are not being expanded already are expanded, their arguments before the line is
      scanned again. */
  lemma {:induction false} ExpandsInactive(s: State, hits: seq<Hit>, active: set<nat>)
    requires |s.blue| == |s.used| && Known(hits, |s.blue|) && PaintedExactly(s, active)
    ensures Follows(s, Expand(s, hits), Trace(hits, active), hits, active)
    decreases hits, 0
  {
    if hits != [] {
      var t := EvalMacro(s, hits[0]);
      EntersInactive(s, hits[0], active);
      ExpandsInactive(t, hits[1..], active);
      FollowsOn(s, t, Expand(t, hits[1..]), hits, active);
    } else {
      assert s.entered + [] == s.entered;
    }
  }

  /** What expanding one hit comes to. */
  ghost predicate FollowsOne(s: State, r: State, h: Hit, active: set<nat>) {
    && r.entered == s.entered + TraceHit(h, active) && r.blue == s.blue && |r.used| == |s.used|
    && forall m :: 0 <= m < |s.used| ==> r.used[m] == s.used[m] + UsesOf(h, active, m)
  }

  lemma FollowsOn(s: State, t: State, r: State, hits: seq<Hit>, active: set<nat>)
    requires hits != [] && FollowsOne(s, t, hits[0], active)
    requires Follows(t, r, Trace(hits[1..], active), hits[1..], active)
    ensures Follows(s, r, Trace(hits, active), hits, active)
  {
    JoinedTraces(s.entered, TraceHit(hits[0], active), Trace(hits[1..], active));
  }

  lemma JoinedTraces(a: seq<nat>, b: seq<nat>, c: seq<nat>)
    ensures a + b + c == a + (b + c)
  {}

  lemma {:induction false} EntersInactive(s: State, h: Hit, active: set<nat>)
    requires |s.blue| == |s.used| && KnownHit(h, |s.blue|) && PaintedExactly(s, active)
    ensures FollowsOne(s, EvalMacro(s, h), h, active)
    decreases h, 3
  {
    BlueIsRestoredBy(s, h);
    if h.m in active {
      assert s.entered + [] == s.entered;
    } else {
      EntersOther(s, h, active);
    }
  }

  lemma {:induction false} EntersOther(s: State, h: Hit, active: set<nat>)
    requires |s.blue| == |s.used| && KnownHit(h, |s.blue|) && PaintedExactly(s, active) && h.m !in active
    ensures FollowsOne(s, EvalMacro(s, h), h, active)
    decreases h, 1
  {
    BlueIsRestoredBy(s, h);
    var now, s1 := active + {h.m}, Enter(s, h.m);
    var s2 := Replace(s1, h);
    var s3 := s2.(blue := AlterBlue(s2.blue, s1.used, s2.used, 1));
    assert PaintedExactly(s1, now);
    ReplaceTraced(s1, h, now);
    OnlyNonInvocationsPaint(s1, h);
    ReplaceKeepsBlue(s1, h);
    assert PaintedExactly(s3, now);
    ExpandsInactive(s3, h.rescan, now);
    var args := if h.action.Invoked? then TraceArgs(h.action.args, now) else [];
    JoinedTraces(s.entered, [h.m], args);
    JoinedTraces(s.entered, [h.m] + args, Trace(h.rescan, now));
  }

  lemma {:induction false} ReplaceTraced(s: State, h: Hit, active: set<nat>)
    requires |s.blue| == |s.used| && KnownHit(h, |s.blue|) && PaintedExactly(s, active)
    ensures Replace(s, h).entered ==
            s.entered + if h.action.Invoked? then TraceArgs(h.action.args, active) else []
    ensures forall m :: 0 <= m < |s.used| ==>
              Replace(s, h).used[m] == s.used[m] - if m == h.m && h.action.NotInvoked? then 1 else 0
    decreases h, 0
  {
    assert s.entered + [] == s.entered;
    if h.action.Invoked? {
      ArgsTraced(s, h.action.args, active);
      ArgsKeepBlue(s, h.action.args);
    }
  }

  lemma {:induction false} ArgsTraced(s: State, args: Args, active: set<nat>)
    requires |s.blue| == |s.used| && KnownArgs(args, |s.blue|) && PaintedExactly(s, active)
    ensures ExpandArgs(s, args).entered == s.entered + TraceArgs(args, active)
    decreases args, 0
  {
    if args.Arg? {
      ExpandsInactive(s, args.hits, active);
      BlueIsRestored(s, args.hits);
      ArgsTraced(Expand(s, args.hits).(used := s.used), args.more, active);
      assert s.entered + Trace(args.hits, active) + TraceArgs(args.more, active) ==
             s.entered + TraceArgs(args, active);
    } else {
      assert s.entered + [] == s.entered;
    }
  }

  /** With `#define f f`, the name is expanded once and left alone when the line is scanned again. */
  lemma NotInsideItself()
    ensures var hits := [Hit(0, Object, [Hit(0, Object, [])])];
            && Known(hits, 1) && Trace(hits, {}) == [0]
            && Expand(State([0], [0], []), hits) == State([0], [1], [0])
  {
    var inner := Hit(0, Object, []);
    var hits, s := [Hit(0, Object, [inner])], State([0], [0], []);
    assert [inner][1..] == [] && hits[1..] == [];
    assert KnownHit(inner, 1) && Known([inner], 1) && KnownHit(hits[0], 1);
    assert PaintedExactly(s, {});
    ExpandsInactive(s, hits, {});
    TracedOnce(inner, hits);
  }

  lemma TracedOnce(inner: Hit, hits: seq<Hit>)
    requires inner == Hit(0, Object, []) && hits == [Hit(0, Object, [inner])]
    ensures Trace(hits, {}) == [0] && Uses(hits, {}, 0) == 1
  {
    var active := {} + {0};
    assert [inner][1..] == [] && hits[1..] == [];
    assert TraceHit(inner, active) == [] && UsesOf(inner, active, 0) == 0;
    assert Trace([], active) == [] && Uses([], active, 0) == 0;
    assert Trace([inner], active) == [] && Uses([inner], active, 0) == 0;
    assert TraceHit(hits[0], {}) == [0] && UsesOf(hits[0], {}, 0) == 1;
    assert Trace([], {}) == [] && Uses([], {}, 0) == 0;
  }

  // ---- Recursion is bounded ------------------------------------------------------------------------

  /** No macro that is being expanded (`active`, outermost first) is entered again. */
  predicate NoReentry(s: State, hits: seq<Hit>, active: seq<nat>)
    requires |s.blue| == |s.used| && Known(hits, |s.blue|)
    decreases hits, 0
  {
    hits == [] || (NoReentryHit(s, hits[0], active) && NoReentry(EvalMacro(s, hits[0]), hits[1..], active))
  }

  predicate NoReentryHit(s: State, h: Hit, active: seq<nat>)
    requires |s.blue| == |s.used| && KnownHit(h, |s.blue|)
    decreases h, 1
  {
    EvalMacro(s, h).entered == s.entered ||
    var s1 := Enter(s, h.m);
    var s2 := Replace(s1, h);
    var s3 := s2.(blue := AlterBlue(s2.blue, s1.used, s2.used, 1));
    && h.m !in active
    && (h.action.Invoked? ==> NoReentryArgs(s1, h.action.args, active + [h.m]))
    && NoReentry(s3, h.rescan, active + [h.m])
  }

  predicate NoReentryArgs(s: State, args: Args, active: seq<nat>)
    requires |s.blue| == |s.used| && KnownArgs(args, |s.blue|)
    decreases args, 0
  {
    args.NoArgs? || (NoReentry(s, args.hits, active) && NoReentryArgs(Expand(s, args.hits).(used := s.used),
        args.more, active))
  }

  /** How many expansions are nested inside each other. */
  function Depth(s: State, hits: seq<Hit>): nat
    requires |s.blue| == |s.used| && Known(hits, |s.blue|)
    decreases hits, 0
  {
    if hits == [] then 0 else Max(DepthOf(s, hits[0]), Depth(EvalMacro(s, hits[0]), hits[1..]))
  }

  function DepthOf(s: State, h: Hit): nat
    requires |s.blue| == |s.used| && KnownHit(h, |s.blue|)
    decreases h, 1
  {
    if EvalMacro(s, h).entered == s.entered then 0
    else
      var s1 := Enter(s, h.m);
      var s2 := Replace(s1, h);
      var s3 := s2.(blue := AlterBlue(s2.blue, s1.used, s2.used, 1));
      1 + Max(if h.action.Invoked? then DepthOfArgs(s1, h.action.args) else 0, Depth(s3, h.rescan))
  }

  function DepthOfArgs(s: State, args: Args): nat
    requires |s.blue| == |s.used| && KnownArgs(args, |s.blue|)
    decreases args, 0
  {
    if args.NoArgs? then 0
    else Max(Depth(s, args.hits), DepthOfArgs(Expand(s, args.hits).(used := s.used), args.more))
  }

  function Max(a: nat, b: nat): nat {
    if a > b then a else b
  }

  /** The macros being expanded are distinct and painted, and no count is negative. */
  predicate Painted(s: State, active: seq<nat>) {
    && (forall i :: 0 <= i < |s.blue| ==> s.blue[i] >= 0)
    && (forall i :: 0 <= i < |active| ==> active[i] < |s.blue| && s.blue[active[i]] > 0)
    && (forall i, j :: 0 <= i < j < |active| ==> active[i] != active[j])
  }

  /** The macros on the call stack are pairwise distinct, so recursion is never deeper than the number of
      macros. */
  lemma {:induction false} RecursionIsBounded(s: State, hits: seq<Hit>, active: seq<nat>)
    requires |s.blue| == |s.used| && Known(hits, |s.blue|) && Painted(s, active)
    ensures NoReentry(s, hits, active)
    ensures |active| + Depth(s, hits) <= |s.blue|
    decreases hits, 0
  {
    AtMostAll(active, |s.blue|);
    if hits != [] {
      HitIsBounded(s, hits[0], active);
      BlueIsRestoredBy(s, hits[0]);
      RecursionIsBounded(EvalMacro(s, hits[0]), hits[1..], active);
    }
  }

  lemma EnteredIffUnpainted(s: State, h: Hit)
    requires |s.blue| == |s.used| && KnownHit(h, |s.blue|) && Painted(s, [])
    ensures EvalMacro(s, h).entered != s.entered <==> s.blue[h.m] == 0
  {
    var active := set i | 0 <= i < |s.blue| && s.blue[i] > 0;
    EntersInactive(s, h, active);
    assert |EvalMacro(s, h).entered| == |s.entered| + |TraceHit(h, active)|;
  }

  lemma {:induction false} HitIsBounded(s: State, h: Hit, active: seq<nat>)
    requires |s.blue| == |s.used| && KnownHit(h, |s.blue|) && Painted(s, active)
    ensures NoReentryHit(s, h, active)
    ensures |active| + DepthOf(s, h) <= |s.blue|
    decreases h, 1
  {
    AtMostAll(active, |s.blue|);
    EnteredIffUnpainted(s, h);
    if s.blue[h.m] == 0 {
      var s1 := Enter(s, h.m);
      var s2 := Replace(s1, h);
      var s3 := s2.(blue := AlterBlue(s2.blue, s1.used, s2.used, 1));
      ReplaceKeepsBlue(s1, h);
      assert Painted(s1, active + [h.m]) && Painted(s3, active + [h.m]);
      if h.action.Invoked? { ArgsAreBounded(s1, h.action.args, active + [h.m]); }
      RecursionIsBounded(s3, h.rescan, active + [h.m]);
    }
  }

  lemma {:induction false} ArgsAreBounded(s: State, args: Args, active: seq<nat>)
    requires |s.blue| == |s.used| && KnownArgs(args, |s.blue|) && Painted(s, active)
    ensures NoReentryArgs(s, args, active)
    ensures |active| + DepthOfArgs(s, args) <= |s.blue|
    decreases args, 0
  {
    AtMostAll(active, |s.blue|);
    if args.Arg? {
      RecursionIsBounded(s, args.hits, active);
      BlueIsRestored(s, args.hits);
      ArgsAreBounded(Expand(s, args.hits).(used := s.used), args.more, active);
    }
  }

  /** Distinct numbers below `n` are at most `n` many. */
  lemma {:induction false} AtMostAll(active: seq<nat>, n: nat)
    requires forall i :: 0 <= i < |active| ==> active[i] < n
    requires forall i, j :: 0 <= i < j < |active| ==> active[i] != active[j]
    ensures |active| <= n
    decreases n
  {
    assert active == [] || 0 <= active[0] < n;
    if n > 0 {
      var top := n - 1;
      if k :| 0 <= k < |active| && active[k] == top {
        AtMostAll(active[..k] + active[k + 1..], top);
      } else {
        AtMostAll(active, top);
      }
    }
  }

  // ---- The counters as the source keeps them -------------------------------------------------------

  class Macros {
    /** The fields `blue` and `use_cnt` of each macro. */
    const blue: array<int>
    const used: array<int>
    var entered: seq<nat>

    constructor (n: nat)
      ensures Valid() && fresh(blue) && fresh(used) && blue.Length == n
      ensures Painted(Abs(), [])
    {
      blue, used, entered := new int[n](_ => 0), new int[n](_ => 0), [];
    }

    ghost predicate Valid() {
      blue.Length == used.Length && blue != used
    }

    ghost function Abs(): (s: State)
      requires Valid()
      reads this, blue, used
      ensures Sized(s, blue.Length)
    {
      State(blue[..], used[..], entered)
    }

    /** snapshot_take_1 */
    method Snapshot() returns (p: array<int>)
      requires Valid()
      ensures fresh(p) && p[..] == used[..]
    {
      p := new int[used.Length];
      var i := 0;
      while i < used.Length
        invariant i <= used.Length && p[..i] == used[..i]
      {
        p[i] := used[i];
        i := i + 1;
      }
    }

    /** snapshot_restore_used */
    method RestoreUsed(pre: array<int>)
      requires Valid() && pre.Length == used.Length && pre != used && pre != blue
      modifies used
      ensures used[..] == pre[..]
    {
      var i := 0;
      while i < used.Length
        invariant i <= used.Length && used[..i] == pre[..i]
      {
        used[i] := pre[i];
        i := i + 1;
      }
    }

    /** snapshot_alter_blue */
    method AlterBlueUsed(pre: array<int>, post: array<int>, change: int)
      requires Valid() && pre.Length == post.Length == blue.Length && pre != blue && post != blue
      modifies blue
      ensures blue[..] == AlterBlue(old(blue[..]), pre[..], post[..], change)
    {
      var i := 0;
      while i < blue.Length
        invariant i <= blue.Length
        invariant forall k :: 0 <= k < blue.Length ==>
          blue[k] == old(blue[k]) + if k < i && post[k] != pre[k] then change else 0
      {
        if post[i] != pre[i] { blue[i] := blue[i] + change; }
        i := i + 1;
      }
    }

    /** eval_expand_macros */
    method EvalExpandMacros(hits: seq<Hit>)
      requires Valid() && Known(hits, blue.Length)
      modifies blue, used, this`entered
      ensures Abs() == Expand(old(Abs()), hits)
      ensures blue[..] == old(blue[..])
      decreases hits, 0
    {
      BlueIsRestored(Abs(), hits);
      if hits != [] {
        EvalOneMacro(hits[0]);
        EvalExpandMacros(hits[1..]);
      }
    }

    /** eval_macro */
    method EvalOneMacro(h: Hit)
      requires Valid() && KnownHit(h, blue.Length)
      modifies blue, used, this`entered
      ensures Abs() == EvalMacro(old(Abs()), h)
      decreases h, 3
    {
      if blue[h.m] != 0 { return; }
      Begin(h.m);
      EvalDouble(h);
      End(h.m);
    }

    /** eval_macro_double_eval */
    method EvalDouble(h: Hit)
      requires Valid() && KnownHit(h, blue.Length)
      modifies blue, used, this`entered
      ensures Abs() == DoubleEval(old(Abs()), h)
      decreases h, 2
    {
      var pre := Snapshot();
      EvalReplace(h);
      var post := Snapshot();
      AlterBlueUsed(pre, post, 1);
      EvalExpandMacros(h.rescan);
      AlterBlueUsed(pre, post, -1);
    }

    /** The macro is used, and painted while it is expanded. */
    method Begin(m: nat)
      requires Valid() && m < blue.Length
      modifies blue, used, this`entered
      ensures Abs() == Enter(old(Abs()), m)
    {
      used[m] := used[m] + 1;
      blue[m] := blue[m] + 1;
      entered := entered + [m];
      assert blue[..] == old(blue[..])[m := old(blue[m]) + 1] && used[..] == old(used[..])[m := old(used[m]) + 1];
    }

    method End(m: nat)
      requires Valid() && m < blue.Length
      modifies blue
      ensures Abs() == old(Abs()).(blue := old(blue[..])[m := old(blue[m]) - 1])
    {
      blue[m] := blue[m] - 1;
      assert blue[..] == old(blue[..])[m := old(blue[m]) - 1];
    }

    /** eval_macro_r and eval_func_macro */
    method EvalReplace(h: Hit)
      requires Valid() && KnownHit(h, blue.Length)
      modifies blue, used, this`entered
      ensures Abs() == Replace(old(Abs()), h)
      decreases h, 1
    {
      match h.action
      case Object =>
      case NotInvoked =>
        used[h.m] := used[h.m] - 1;
        assert Abs().used == old(Abs()).used[h.m := old(Abs()).used[h.m] - 1];
      case Invoked(args) => EvalArgs(args);
    }

    method EvalArgs(args: Args)
      requires Valid() && KnownArgs(args, blue.Length)
      modifies blue, used, this`entered
      ensures Abs() == ExpandArgs(old(Abs()), args)
      decreases args, 0
    {
      if args.Arg? {
        var snap := Snapshot();
        EvalExpandMacros(args.hits);
        RestoreUsed(snap);
        EvalArgs(args.more);
      }
    }
  }
}
