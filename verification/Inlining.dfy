/**
  Inlining of calls (src/cc1/inline.c): argument bindings kept in per-symbol slots and in one map, saved
  and restored around every inlined body.
*/
module InlineSyntax {
  import opened Common

  type Sym = nat
  type Val = nat
  type Label = nat

  const INLINE_DEPTH_MAX := 5

  /** An argument: its parameter, its value, and the stack space it is spilled to if it has to be (a
      parameter that is written, a temporary that cannot persist, a volatile parameter). */
  datatype Arg = Arg(sym: Sym, val: Val, spill: Option<Val>)

  /** What generating a body does, as far as inlining is concerned: read a parameter, return a value,
      use a label, or reach a call that may be inlined in its turn. */
  datatype Act = Read(sym: Sym) | Return(val: Option<Val>) | UseLabel(name: Label)
      | Call(args: seq<Arg>, body: seq<Act>)

  /** What a read of a parameter yields. */
  datatype Seen = Nothing | Value(val: Val) | Loaded(space: Val)

  /** The observable effects: what reads yield, calls that are not inlined, and the values an inlined body
      returned, which its call merges. */
  datatype Event = Saw(sym: Sym, what: Seen) | TooDeep | Merged(rets: seq<Val>)

  predicate DistinctSyms(args: seq<Arg>) {
    forall i, j :: 0 <= i < j < |args| ==> args[i].sym != args[j].sym
  }

  predicate WellFormed(acts: seq<Act>)
    decreases acts, 0
  {
    acts == [] || (WellFormedAct(acts[0]) && WellFormed(acts[1..]))
  }

  predicate WellFormedAct(a: Act)
    decreases a, 1
  {
    a.Call? ==> DistinctSyms(a.args) && WellFormed(a.body)
  }

  /** A return may give no value. */
  function Given(v: Option<Val>): seq<Val> {
    if v.Some? then [v.value] else []
  }

  /** The values that a body itself returns, without those of calls inlined in it. */
  function Returns(acts: seq<Act>): seq<Val> {
    if acts == [] then [] else (if acts[0].Return? then Given(acts[0].val) else []) + Returns(acts[1..])
  }

  /** The labels that a body itself uses. */
  function Labels(acts: seq<Act>): set<Label> {
    if acts == [] then {} else (if acts[0].UseLabel? then {acts[0].name} else {}) + Labels(acts[1..])
  }

  // ---- The meaning: arguments are bound for the body of their call -------------------------------

  type Env = map<Sym, Seen>

  function Bind(env: Env, args: seq<Arg>): Env
    decreases |args|
  {
    if args == [] then env
    else Bind(env[args[0].sym := if args[0].spill.Some? then Loaded(args[0].spill.value) else Value(args[0].val)],
        args[1..])
  }

  function Meaning(acts: seq<Act>, env: Env, depth: nat): seq<Event>
    decreases acts, 0
  {
    if acts == [] then [] else ActMeaning(acts[0], env, depth) + Meaning(acts[1..], env, depth)
  }

  function ActMeaning(a: Act, env: Env, depth: nat): seq<Event>
    decreases a, 1
  {
    match a
    case Read(s) => [Saw(s, if s in env then env[s] else Nothing)]
    case Call(args, body) =>
      if depth >= INLINE_DEPTH_MAX then [TooDeep]
      else Meaning(body, Bind(env, args), depth + 1) + [Merged(Returns(body))]
    case _ => []
  }
}

/** Slots and map as values: what saving and restoring one argument does to them. */
module InlineSlots {
  import opened Common
  import opened InlineSyntax

  /** `outval` holds the slots that are not null; `inlined` is sym_inline_map. */
  datatype Slots = Slots(outval: map<Sym, Val>, inlined: map<Sym, Val>)

  /** struct inline_sym_map */
  datatype Pushed = Pushed(outval: Option<Val>, mapVal: Option<Val>)

  function Get(m: map<Sym, Val>, s: Sym): Option<Val> {
    if s in m then Some(m[s]) else None
  }

  function Set(m: map<Sym, Val>, s: Sym, v: Option<Val>): map<Sym, Val> {
    if v.Some? then m[s := v.value] else m - {s}
  }

  /** One turn of the loop of inline_sym_map_save */
  function Save(sl: Slots, a: Arg): (Slots, Pushed) {
    if a.spill.Some? then
      (sl.(outval := Set(sl.outval, a.sym, a.spill)), Pushed(Get(sl.outval, a.sym), None))
    else
      (Slots(Set(sl.outval, a.sym, None), sl.inlined[a.sym := a.val]),
       Pushed(Get(sl.outval, a.sym), Get(sl.inlined, a.sym)))
  }

  /** Whether the assertion in the loop of inline_sym_map_restore holds. */
  predicate RestoreOk(sl: Slots, s: Sym, p: Pushed) {
    s in sl.outval ==> p.mapVal.None?
  }

  /** One turn of the loop of inline_sym_map_restore */
  function Restore(sl: Slots, s: Sym, p: Pushed): Slots {
    var inlined := if s in sl.outval then sl.inlined else Set(sl.inlined, s, p.mapVal);
    Slots(Set(sl.outval, s, p.outval), inlined)
  }

  /** The slots after saving the arguments from `i` on. */
  function SaveFrom(sl: Slots, args: seq<Arg>, i: nat): Slots
    requires i <= |args|
    decreases |args| - i
  {
    if i == |args| then sl else SaveFrom(Save(sl, args[i]).0, args, i + 1)
  }

  /** What the slots hold for one symbol. */
  predicate SameAt(a: Slots, b: Slots, s: Sym) {
    Get(a.outval, s) == Get(b.outval, s) && Get(a.inlined, s) == Get(b.inlined, s)
  }

  lemma {:induction false} SaveFromAt(sl: Slots, args: seq<Arg>, i: nat, s: Sym)
    requires i <= |args| && DistinctSyms(args)
    ensures (forall j :: i <= j < |args| ==> args[j].sym != s) ==> SameAt(SaveFrom(sl, args, i), sl, s)
    ensures forall j :: i <= j < |args| && args[j].sym == s ==>
              SameAt(SaveFrom(sl, args, i), Save(sl, args[j]).0, s)
    decreases |args| - i
  {
    if i < |args| {
      var next := Save(sl, args[i]).0;
      SaveFromAt(next, args, i + 1, s);
      forall j | i <= j < |args| && args[j].sym == s ensures SameAt(SaveFrom(sl, args, i), Save(sl, args[j]).0, s) {
        if j > i {
          assert SameAt(next, sl, s);
          assert SameAt(Save(next, args[j]).0, Save(sl, args[j]).0, s);
        }
      }
    }
  }

  /** Restoring an argument undoes saving it, and the assertion on the way holds. */
  lemma RestoreUndoesSave(sl: Slots, a: Arg)
    ensures var (saved, p) := Save(sl, a);
            RestoreOk(saved, a.sym, p) && Restore(saved, a.sym, p) == sl
  {
    var (saved, p) := Save(sl, a);
    var r := Restore(saved, a.sym, p);
    assert r.outval == sl.outval;
    assert r.inlined == sl.inlined;
  }

  /** out_new_sym_val: the map first, the slot only if the map has nothing. */
  function ReadSym(sl: Slots, s: Sym): Seen {
    if s in sl.inlined then Value(sl.inlined[s]) else if s in sl.outval then Loaded(sl.outval[s]) else Nothing
  }

  /** The events of a body over given slots. */
  function Events(acts: seq<Act>, sl: Slots, depth: nat): seq<Event>
    decreases acts, 0
  {
    if acts == [] then [] else ActEvents(acts[0], sl, depth) + Events(acts[1..], sl, depth)
  }

  function ActEvents(a: Act, sl: Slots, depth: nat): seq<Event>
    decreases a, 1
  {
    match a
    case Read(s) => [Saw(s, ReadSym(sl, s))]
    case Call(args, body) =>
      if depth >= INLINE_DEPTH_MAX then [TooDeep]
      else Events(body, SaveFrom(sl, args, 0), depth + 1) + [Merged(Returns(body))]
    case _ => []
  }

  // ---- Against the meaning -------------------------------------------------------------------------

  /** The slots hold the bindings of `env`, and the map holds the symbols of `direct`: those that some
      enclosing inlining has bound without spilling. */
  ghost predicate Hold(sl: Slots, env: Env, direct: set<Sym>) {
    && sl.inlined.Keys == direct
    && (forall s :: s in env ==> !env[s].Nothing? && (env[s].Value? ==> s in direct && sl.inlined[s] == env[s].val))
    && (forall s :: s in env && env[s].Loaded? ==> s in sl.outval && sl.outval[s] == env[s].space)
    && (forall s :: s in sl.inlined || s in sl.outval ==> s in env)
  }

  function Direct(direct: set<Sym>, args: seq<Arg>): set<Sym>
    decreases |args|
  {
    if args == [] then direct else Direct(if args[0].spill.Some? then direct else direct + {args[0].sym}, args[1..])
  }

  /** Some body reads a parameter that is spilled while an enclosing inlining has bound the same symbol
      without spilling it: saving a spilled argument leaves the other's value in the map, and reads look
      there first. */
  predicate Clash(acts: seq<Act>, env: Env, direct: set<Sym>, depth: nat)
    decreases acts, 0
  {
    acts != [] && (ClashAct(acts[0], env, direct, depth) || Clash(acts[1..], env, direct, depth))
  }

  predicate ClashAct(a: Act, env: Env, direct: set<Sym>, depth: nat)
    decreases a, 1
  {
    match a
    case Read(s) => s in direct && s in env && env[s].Loaded?
    case Call(args, body) => depth < INLINE_DEPTH_MAX && Clash(body, Bind(env, args), Direct(direct, args), depth + 1)
    case _ => false
  }

  lemma {:induction false} SaveHolds(sl: Slots, env: Env, direct: set<Sym>, args: seq<Arg>, i: nat)
    requires Hold(sl, env, direct) && i <= |args|
    ensures Hold(SaveFrom(sl, args, i), Bind(env, args[i..]), Direct(direct, args[i..]))
    decreases |args| - i
  {
    if i < |args| {
      var a := args[i];
      var env' := env[a.sym := if a.spill.Some? then Loaded(a.spill.value) else Value(a.val)];
      var direct' := if a.spill.Some? then direct else direct + {a.sym};
      SaveHolds(Save(sl, a).0, env', direct', args, i + 1);
      assert args[i..][1..] == args[i + 1..];
    } else {
      assert args[i..] == [];
    }
  }

  lemma {:induction false} EventCount(acts: seq<Act>, sl: Slots, env: Env, depth: nat)
    ensures |Events(acts, sl, depth)| == |Meaning(acts, env, depth)|
    decreases acts, 0
  {
    if acts != [] {
      ActEventCount(acts[0], sl, env, depth);
      EventCount(acts[1..], sl, env, depth);
    }
  }

  lemma {:induction false} ActEventCount(a: Act, sl: Slots, env: Env, depth: nat)
    ensures |ActEvents(a, sl, depth)| == |ActMeaning(a, env, depth)|
    decreases a, 1
  {
    if a.Call? { EventCount(a.body, SaveFrom(sl, a.args, 0), Bind(env, a.args), depth + 1); }
  }

  /** Generated code sees the innermost binding of every parameter it reads, for every tree of nested and
      recursive inlinings, exactly when no such clash occurs in it. */
  lemma {:induction false} ReadsSeeInnermost(acts: seq<Act>, sl: Slots, env: Env, direct: set<Sym>, depth: nat)
    requires Hold(sl, env, direct)
    ensures Events(acts, sl, depth) == Meaning(acts, env, depth) <==> !Clash(acts, env, direct, depth)
    decreases acts, 0
  {
    if acts != [] {
      ActReadsSeeInnermost(acts[0], sl, env, direct, depth);
      ReadsSeeInnermost(acts[1..], sl, env, direct, depth);
      ActEventCount(acts[0], sl, env, depth);
      SplitEqual(ActEvents(acts[0], sl, depth), Events(acts[1..], sl, depth),
                 ActMeaning(acts[0], env, depth), Meaning(acts[1..], env, depth));
    }
  }

  lemma SplitEqual(a: seq<Event>, b: seq<Event>, c: seq<Event>, d: seq<Event>)
    requires |a| == |c|
    ensures a + b == c + d <==> a == c && b == d
  {
    assert (a + b)[..|a|] == a && (a + b)[|a|..] == b;
    assert (c + d)[..|c|] == c && (c + d)[|c|..] == d;
  }

  lemma {:induction false} ActReadsSeeInnermost(a: Act, sl: Slots, env: Env, direct: set<Sym>, depth: nat)
    requires Hold(sl, env, direct)
    ensures ActEvents(a, sl, depth) == ActMeaning(a, env, depth) <==> !ClashAct(a, env, direct, depth)
    decreases a, 1
  {
    match a
    case Read(s) =>
    case Call(args, body) =>
      if depth < INLINE_DEPTH_MAX {
        SaveHolds(sl, env, direct, args, 0);
        assert args[0..] == args;
        var sl', env' := SaveFrom(sl, args, 0), Bind(env, args);
        ReadsSeeInnermost(body, sl', env', Direct(direct, args), depth + 1);
        EventCount(body, sl', env', depth + 1);
        SplitEqual(Events(body, sl', depth + 1), [Merged(Returns(body))],
                   Meaning(body, env', depth + 1), [Merged(Returns(body))]);
      }
    case _ =>
  }

  // ---- What is merged, and how deep inlining goes --------------------------------------------------

  /** The values that an inlining merges are those that the returns of the body itself give, in their order. */
  lemma {:induction false} OwnReturns(a: seq<Act>, x: Act, b: seq<Act>)
    ensures Returns([]) == []
    ensures Returns(a + [x] + b) ==
            Returns(a) + (if x.Return? && x.val.Some? then [x.val.value] else []) + Returns(b)
  {
    var all := a + [x] + b;
    if a == [] {
      assert all[0] == x && all[1..] == b;
    } else {
      assert all[0] == a[0] && all[1..] == a[1..] + [x] + b;
      OwnReturns(a[1..], x, b);
      var own := if a[0].Return? then Given(a[0].val) else [];
      assert Returns(a) == own + Returns(a[1..]) && Returns(all) == own + Returns(a[1..] + [x] + b);
    }
  }

  lemma {:induction false} OwnLabels(acts: seq<Act>, l: Label)
    ensures l in Labels(acts) <==> UseLabel(l) in acts
  {
    if acts != [] {
      OwnLabels(acts[1..], l);
      assert acts == [acts[0]] + acts[1..];
    }
  }

  /** `n` calls, each in the body of the one before. */
  function Nested(n: nat): seq<Act> {
    if n == 0 then [] else [Call([], Nested(n - 1))]
  }

  /** Five calls are inlined inside each other, and the sixth is not. */
  lemma {:induction false} FiveDeep(n: nat, sl: Slots, depth: nat)
    requires depth <= 5
    ensures TooDeep in Events(Nested(n), sl, depth) <==> depth + n > 5
    decreases n
  {
    if n > 0 {
      var call := Nested(n)[0];
      OneAct(call, sl, map[], depth);
      if depth < 5 {
        FiveDeep(n - 1, sl, depth + 1);
        assert SaveFrom(sl, [], 0) == sl;
        var inner := Events(Nested(n - 1), sl, depth + 1);
        assert TooDeep in inner + [Merged(Returns(call.body))] <==> TooDeep in inner;
      }
    }
  }

  lemma OneAct(a: Act, sl: Slots, env: Env, depth: nat)
    ensures Events([a], sl, depth) == ActEvents(a, sl, depth)
    ensures Meaning([a], env, depth) == ActMeaning(a, env, depth)
  {
    assert [a][1..] == [];
  }

  /** The recursive call `f(temporary)` inlined in `f(1)`: the inner body reads the outer argument. */
  lemma SpilledParameterReadsOuterArgument()
    ensures var inner := Call([Arg(7, 2, Some(100))], [Read(7)]);
            var outer := Call([Arg(7, 1, None)], [inner]);
            && Events([outer], Slots(map[], map[]), 0) == [Saw(7, Value(1)), Merged([]), Merged([])]
            && Meaning([outer], map[], 0) == [Saw(7, Loaded(100)), Merged([]), Merged([])]
  {
    var sl: Slots, env: Env := Slots(map[], map[]), map[];
    var inner := Call([Arg(7, 2, Some(100))], [Read(7)]);
    var outer := Call([Arg(7, 1, None)], [inner]);
    var sl1, env1 := SaveFrom(sl, outer.args, 0), Bind(env, outer.args);
    assert SaveFrom(Save(sl, outer.args[0]).0, outer.args, 1) == Save(sl, outer.args[0]).0;
    assert outer.args[1..] == [] && inner.args[1..] == [];
    var sl2, env2 := SaveFrom(sl1, inner.args, 0), Bind(env1, inner.args);
    assert SaveFrom(Save(sl1, inner.args[0]).0, inner.args, 1) == Save(sl1, inner.args[0]).0;
    OneAct(Read(7), sl2, env2, 2);
    OneAct(inner, sl1, env1, 1);
    OneAct(outer, sl, env, 0);
    assert Returns([Read(7)]) == [] && Returns([inner]) == [];
  }
}

/** The generator's state, and inlining on it. */
module InlineMachine {
  import opened Common
  import opened InlineSyntax
  import opened InlineSlots

  class Generator {
    /** the slots of symbols that are not null, and sym_inline_map */
    var outval: map<Sym, Val>
    var inlined: map<Sym, Val>
    /** label_to_blk, null until a label is used */
    var labels: Option<map<Label, nat>>
    /** struct cc1_inline */
    var phi: Option<nat>
    var rets: seq<Val>
    var depth: nat
    /** how many blocks have been made, and what was generated */
    var blocks: nat
    var code: seq<Event>

    constructor ()
      ensures Valid() && State() == Slots(map[], map[]) && labels == None && phi == None
      ensures rets == [] && depth == 0 && code == []
    {
      outval, inlined, labels := map[], map[], None;
      phi, rets, depth, blocks, code := None, [], 0, 0, [];
    }

    function State(): Slots
      reads this
    {
      Slots(outval, inlined)
    }

    function LabelMap(): map<Label, nat>
      reads this
    {
      if labels.Some? then labels.value else map[]
    }

    /** Blocks of labels exist, and inside an inlined body there is a block to return to. */
    ghost predicate Valid()
      reads this
    {
      && depth <= INLINE_DEPTH_MAX
      && (depth > 0 ==> phi.Some?)
      && Fits(LabelMap(), blocks)
    }

    method VarsPush() returns (savedPhi: Option<nat>, savedRets: seq<Val>, savedLabels: Option<map<Label, nat>>)
      modifies this`phi, this`rets, this`labels
      ensures savedPhi == old(phi) && savedRets == old(rets) && savedLabels == old(labels)
      ensures phi == None && rets == [] && labels == None
    {
      savedPhi, savedRets, savedLabels := phi, rets, labels;
      phi, rets, labels := None, [], None;
    }

    method VarsPop(savedPhi: Option<nat>, savedRets: seq<Val>, savedLabels: Option<map<Label, nat>>)
      modifies this`phi, this`rets, this`labels
      ensures phi == savedPhi && rets == savedRets && labels == savedLabels
    {
      phi, rets, labels := savedPhi, savedRets, savedLabels;
    }

    /** Returns what each argument's slot and map entry were. */
    method SymMapSave(args: seq<Arg>) returns (pushed: seq<Pushed>)
      requires DistinctSyms(args)
      modifies this`outval, this`inlined
      ensures |pushed| == |args|
      ensures forall j :: 0 <= j < |args| ==> pushed[j] == Save(old(State()), args[j]).1
      ensures State() == SaveFrom(old(State()), args, 0)
    {
      pushed := [];
      var i := 0;
      ghost var before := State();
      while i < |args|
        invariant 0 <= i <= |args| && |pushed| == i
        invariant forall j :: 0 <= j < i ==> pushed[j] == Save(before, args[j]).1
        invariant forall j :: i <= j < |args| ==> SameAt(State(), before, args[j].sym)
        invariant SaveFrom(State(), args, i) == SaveFrom(before, args, 0)
      {
        var a := args[i];
        var was := Get(outval, a.sym);
        if a.spill.Some? {
          outval := outval[a.sym := a.spill.value];
          pushed := pushed + [Pushed(was, None)];
        } else {
          var wasSet := Get(inlined, a.sym);
          inlined := inlined[a.sym := a.val];
          outval := outval - {a.sym};
          pushed := pushed + [Pushed(was, wasSet)];
        }
        i := i + 1;
      }
    }

    method SymMapRestore(args: seq<Arg>, pushed: seq<Pushed>, ghost before: Slots)
      requires DistinctSyms(args) && |pushed| == |args|
      requires forall j :: 0 <= j < |args| ==> pushed[j] == Save(before, args[j]).1
      requires State() == SaveFrom(before, args, 0)
      modifies this`outval, this`inlined
      ensures State() == before
    {
      var i := 0;
      ghost var saved := State();
      while i < |args|
        invariant 0 <= i <= |args|
        invariant RestoredUpTo(State(), before, saved, args, i)
      {
        var s, p := args[i].sym, pushed[i];
        ghost var mid := State();
        RestoreStep(mid, before, args, i);
        assert RestoreOk(mid, s, p);
        if s in outval {
          // the lvalue case
          assert p.mapVal.None?;
        } else if p.mapVal.Some? {
          inlined := inlined[s := p.mapVal.value];
        } else {
          inlined := inlined - {s};
        }
        outval := Set(outval, s, p.outval);
        assert State() == Restore(mid, s, p);
        i := i + 1;
      }
      RestoredAll(State(), before, args);
    }

    /** inline_ret_add */
    method RetAdd(v: Option<Val>)
      requires phi.Some?
      modifies this`rets
      ensures rets == old(rets) + Given(v)
    {
      if v.Some? { rets := rets + [v.value]; }
    }

    /** label_getblk: the same block for a label throughout its context, and a new one in every other. */
    method LabelGetblk(l: Label) returns (blk: nat)
      requires Valid()
      modifies this`labels, this`blocks
      ensures Valid() && blocks >= old(blocks)
      ensures Grown(old(LabelMap()), LabelMap(), {l}, old(blocks))
      ensures labels.Some? && l in LabelMap() && LabelMap()[l] == blk
      ensures LabelMap() == old(LabelMap())[l := blk]
      ensures if l in old(LabelMap()) then blk == old(LabelMap())[l] else blk >= old(blocks)
    {
      if labels.None? { labels := Some(map[]); }
      if l in labels.value { return labels.value[l]; }
      blk := blocks;
      blocks := blocks + 1;
      labels := Some(labels.value[l := blk]);
    }

    /** Generates a body: everything but the labels it uses itself and the values it returns itself is
        as before. */
    method Gen(acts: seq<Act>)
      requires Valid() && WellFormed(acts)
      modifies this
      ensures Valid() && depth == old(depth) && phi == old(phi) && blocks >= old(blocks)
      ensures State() == old(State())
      ensures rets == old(rets) + if depth > 0 then Returns(acts) else []
      ensures code == old(code) + Events(acts, State(), depth)
      ensures Grown(old(LabelMap()), LabelMap(), Labels(acts), old(blocks))
      ensures Labels(acts) == {} ==> labels == old(labels)
      decreases acts, 0
    {
      if acts == [] { return; }
      ghost var code0, rets0, labels0, blocks0 := code, rets, LabelMap(), blocks;
      GenAct(acts[0]);
      ghost var labels1, blocks1 := LabelMap(), blocks;
      Gen(acts[1..]);
      GrownTwice(labels0, labels1, LabelMap(), blocks0, blocks1,
                 if acts[0].UseLabel? then {acts[0].name} else {}, Labels(acts[1..]));
      Joined(code0, ActEvents(acts[0], State(), depth), Events(acts[1..], State(), depth));
      Joined(rets0, if acts[0].Return? then Given(acts[0].val) else [], Returns(acts[1..]));
    }

    method GenAct(a: Act)
      requires Valid() && WellFormedAct(a)
      modifies this
      ensures Valid() && depth == old(depth) && phi == old(phi) && blocks >= old(blocks)
      ensures State() == old(State())
      ensures rets == old(rets) + if depth > 0 && a.Return? then Given(a.val) else []
      ensures code == old(code) + ActEvents(a, State(), depth)
      ensures Grown(old(LabelMap()), LabelMap(), if a.UseLabel? then {a.name} else {}, old(blocks))
      ensures !a.UseLabel? ==> labels == old(labels)
      decreases a, 1
    {
      if a.Read? {
        code := code + [Saw(a.sym, ReadSym(State(), a.sym))];
      } else if a.Return? {
        if depth > 0 { RetAdd(a.val); }
      } else if a.UseLabel? {
        var _ := LabelGetblk(a.name);
      } else {
        InlineFuncTryGen(a.args, a.body);
      }
    }

    /** inline_func_try_gen: after an inlining, slots, maps, labels, the record of returns and the depth are
        what they were before it. */
    method InlineFuncTryGen(args: seq<Arg>, body: seq<Act>)
      requires Valid() && DistinctSyms(args) && WellFormed(body)
      modifies this
      ensures Valid() && blocks >= old(blocks)
      ensures State() == old(State()) && labels == old(labels)
      ensures phi == old(phi) && rets == old(rets) && depth == old(depth)
      ensures code == old(code) + ActEvents(Call(args, body), State(), depth)
      decreases body, 2
    {
      if depth >= INLINE_DEPTH_MAX {
        code := code + [TooDeep];
        return;
      }
      depth := depth + 1;
      GenInlineFunc(args, body);
      depth := depth - 1;
    }

    method GenInlineFunc(args: seq<Arg>, body: seq<Act>)
      requires 0 < depth <= INLINE_DEPTH_MAX && DistinctSyms(args) && WellFormed(body)
      requires Fits(LabelMap(), blocks)
      modifies this
      ensures blocks >= old(blocks)
      ensures State() == old(State()) && labels == old(labels)
      ensures phi == old(phi) && rets == old(rets) && depth == old(depth)
      ensures code == old(code) + (Events(body, SaveFrom(State(), args, 0), depth) + [Merged(Returns(body))])
      decreases body, 1
    {
      ghost var before := State();
      var savedPhi, savedRets, savedLabels := VarsPush();
      phi := Some(blocks);
      blocks := blocks + 1;
      var pushed := SymMapSave(args);
      Gen(body);
      assert rets == Returns(body);
      Joined(old(code), Events(body, State(), depth), [Merged(rets)]);
      SymMapRestore(args, pushed, before);
      code := code + [Merged(rets)];
      VarsPop(savedPhi, savedRets, savedLabels);
    }
  }

  /** Every block of a label map has been made. */
  ghost predicate Fits(m: map<Label, nat>, blocks: nat) {
    forall l :: l in m ==> m[l] < blocks
  }

  /** `m` has been extended by the labels of `used`, giving new ones blocks from `lo` on. */
  ghost predicate Grown(m: map<Label, nat>, m': map<Label, nat>, used: set<Label>, lo: nat) {
    && m'.Keys == m.Keys + used
    && forall l :: l in m' ==> if l in m then m'[l] == m[l] else m'[l] >= lo
  }

  lemma GrownTwice(m: map<Label, nat>, m1: map<Label, nat>, m2: map<Label, nat>, lo: nat, lo1: nat, used: set<Label>,
      used1: set<Label>)
    requires Grown(m, m1, used, lo) && Grown(m1, m2, used1, lo1) && lo <= lo1
    ensures Grown(m, m2, used + used1, lo)
  {}

  lemma Joined<T>(a: seq<T>, b: seq<T>, c: seq<T>)
    ensures (a + b) + c == a + (b + c)
  {}

  ghost predicate Among(args: seq<Arg>, n: nat, s: Sym)
    requires n <= |args|
  {
    exists j :: 0 <= j < n && args[j].sym == s
  }

  lemma SameEverywhere(a: Slots, b: Slots)
    requires forall s: Sym :: SameAt(a, b, s)
    ensures a == b
  {
    forall s: Sym ensures s in a.outval <==> s in b.outval { assert SameAt(a, b, s); }
    forall s: Sym ensures s in a.inlined <==> s in b.inlined { assert SameAt(a, b, s); }
    forall s: Sym | s in a.outval ensures a.outval[s] == b.outval[s] { assert SameAt(a, b, s); }
    forall s: Sym | s in a.inlined ensures a.inlined[s] == b.inlined[s] { assert SameAt(a, b, s); }
    assert a.outval == b.outval && a.inlined == b.inlined;
  }

  /** The first `n` arguments are as `before`, everything else is as `saved`. */
  ghost predicate RestoredUpTo(cur: Slots, before: Slots, saved: Slots, args: seq<Arg>, n: nat)
    requires n <= |args|
  {
    forall s: Sym :: RestoredAt(cur, before, saved, args, n, s)
  }

  ghost predicate RestoredAt(cur: Slots, before: Slots, saved: Slots, args: seq<Arg>, n: nat, s: Sym)
    requires n <= |args|
  {
    SameAt(cur, if Among(args, n, s) then before else saved, s)
  }

  lemma RestoredAll(cur: Slots, before: Slots, args: seq<Arg>)
    requires DistinctSyms(args) && RestoredUpTo(cur, before, SaveFrom(before, args, 0), args, |args|)
    ensures cur == before
  {
    var saved := SaveFrom(before, args, 0);
    forall s: Sym ensures SameAt(cur, before, s) {
      assert RestoredAt(cur, before, saved, args, |args|, s);
      if !Among(args, |args|, s) {
        SaveFromAt(before, args, 0, s);
      }
    }
    SameEverywhere(cur, before);
  }

  /** When its turn comes, an argument's slot and map entry are as they were saved, so that the assertion
      of the restoring loop holds and both get their old values back. */
  lemma RestoreStep(cur: Slots, before: Slots, args: seq<Arg>, i: nat)
    requires i < |args| && DistinctSyms(args)
    requires RestoredUpTo(cur, before, SaveFrom(before, args, 0), args, i)
    ensures var (s, p) := (args[i].sym, Save(before, args[i]).1);
            && RestoreOk(cur, s, p)
            && RestoredUpTo(Restore(cur, s, p), before, SaveFrom(before, args, 0), args, i + 1)
  {
    var saved, now := SaveFrom(before, args, 0), Save(before, args[i]).0;
    var (s, p) := (args[i].sym, Save(before, args[i]).1);
    assert !Among(args, i, s);
    assert RestoredAt(cur, before, saved, args, i, s);
    SaveFromAt(before, args, 0, s);
    RestoreUndoesSave(before, args[i]);
    assert SameAt(saved, now, s) && SameAt(cur, now, s);
    assert SameAt(Restore(cur, s, p), Restore(now, s, p), s);
    var next, n := Restore(cur, s, p), i + 1;
    forall t: Sym
      ensures RestoredAt(next, before, saved, args, n, t)
    {
      assert Among(args, i + 1, t) <==> Among(args, i, t) || t == s;
      assert RestoredAt(cur, before, saved, args, i, t);
    }
  }
}
