/** Lists without designators: braces around a scalar, and that the normalisation of src/cc1/decl_init.c that knows
    no designators gives what the one with designators gives, so what the list says. */
module InitReading {
  import opened Common
  import opened InitSyntax
  import opened InitOrder
  import opened DesigSyntax
  import opened DesigScalars
  import opened DesigOrder

  // ---- Braces around a scalar ------------------------------------------------------------------------------

  /** `core` in braces, one pair for each level from the outermost in; a level's own items follow what it is around. */
  function Nest(levels: seq<seq<Init>>, core: Init): Init {
    if levels == [] then core else Brace([Nest(levels[1..], core)] + levels[0])
  }

  predicate IsCore(x: Init) {
    x.Expr? || x.items == []
  }

  /** Every initialiser is an expression or `{}` in so many braces. */
  lemma {:induction false} EveryNest(x: Init) returns (levels: seq<seq<Init>>, core: Init)
    ensures x == Nest(levels, core) && IsCore(core)
    decreases x
  {
    levels, core := [], x;
    if !IsCore(x) {
      var inner;
      inner, core := EveryNest(x.items[0]);
      levels := [x.items[1..]] + inner;
      assert levels[1..] == inner && x.items == [x.items[0]] + x.items[1..];
    }
  }

  /** A scalar in any number of braces has the value of the first expression inside, zero if there is none. Excess
      is reported exactly if some pair of braces holds more. */
  lemma {:induction false} BracedScalar(levels: seq<seq<Init>>, core: Init, rest: seq<Init>)
    requires IsCore(core)
    ensures BraceUp(Scalar, [Nest(levels, core)] + rest) ==
            Result(Value(if core.Expr? then core.v else 0), rest, exists k :: 0 <= k < |levels| && levels[k] != [])
    decreases levels
  {
    if levels != [] {
      BracedScalar(levels[1..], core, levels[0]);
      assert forall k :: 1 <= k < |levels| ==> levels[k] == levels[1..][k - 1];
      assert ([Nest(levels, core)] + rest)[1..] == rest;
      var sub := [Nest(levels[1..], core)] + levels[0];
      assert |sub| > 1 <==> levels[0] != [];
    } else {
      assert ([core] + rest)[1..] == rest;
    }
  }

  // ---- The same list in both forms -------------------------------------------------------------------------

  function ItemOf(x: Init): Item {
    match x
    case Expr(v) => Single(v)
    case Brace(items) => Braced(Entries(items))
  }

  function Entries(items: seq<Init>): (r: seq<Entry>)
    ensures |r| == |items| && forall k :: 0 <= k < |items| ==> r[k].desig == []
  {
    if items == [] then [] else [Entry([], ItemOf(items[0]))] + Entries(items[1..])
  }

  lemma {:induction false} EntriesFrom(items: seq<Init>, k: nat)
    requires k <= |items|
    ensures Entries(items)[k..] == Entries(items[k..])
  {
    if k > 0 {
      EntriesFrom(items[1..], k - 1);
      assert items[1..][k - 1..] == items[k..];
      assert Entries(items)[k..] == Entries(items)[1..][k - 1..];
    }
  }

  /** What is left of `items` once the first `n` are taken. */
  ghost predicate Goes(items: seq<Init>, n: nat, rest: seq<Init>) {
    n <= |items| && rest == items[n..]
  }

  lemma {:induction false} RunOfAll(es: seq<Entry>)
    requires es != [] && forall k :: 0 <= k < |es| ==> es[k].desig == []
    ensures RunLength(es) == |es|
  {
    if |es| > 1 { RunOfAll(es[1..]); }
  }

  ghost predicate SameObject(t: Type, items: seq<Init>, n: nat)
    requires items != []
  {
    var r := BraceUp(t, items);
    Goes(items, n, r.rest) && Normalise(t, Missing, [], Entries(items)) == Done(r.tree, n, [])
  }

  ghost predicate SameLoop(t: Type, subs: seq<Tree>, i: nat, items: seq<Init>, n: nat)
    requires !t.Scalar? && i <= Count(t)
  {
    var r := BraceUpSubs(t, i, items);
    Goes(items, n, r.rest) && Loop(t, subs, i, [], Entries(items)) == DoneAll(subs + r.subs, n, [])
  }

  /** Both normalisations give the same tree and take the same items. */
  lemma {:induction false} SameTree(t: Type, items: seq<Init>) returns (n: nat)
    requires items != []
    ensures var r := BraceUp(t, items);
            Goes(items, n, r.rest) && Normalise(t, Missing, [], Entries(items)) == Done(r.tree, n, [])
    decreases Size(items), t, 1
  {
    n := 1;
    if !t.Scalar? && items[0].Expr? {
      n := SameSubs(t, [], 0, items);
      SameRun(t, items, n);
    } else if items[0].Brace? && items[0].items != [] {
      if t.Scalar? {
        var m := SameTree(Scalar, items[0].items);
        SameBracedScalar(items, m);
      } else {
        var m := SameSubs(t, [], 0, items[0].items);
        SameBraced(t, items, m);
      }
    }
  }

  lemma SameBracedScalar(items: seq<Init>, m: nat)
    requires items != [] && items[0].Brace? && items[0].items != [] && SameObject(Scalar, items[0].items, m)
    ensures SameObject(Scalar, items, 1)
  {
    assert Entries(items)[0] == Entry([], Braced(Entries(items[0].items)));
  }

  lemma SameBraced(t: Type, items: seq<Init>, m: nat)
    requires items != [] && items[0].Brace? && items[0].items != []
    requires !t.Scalar? && SameLoop(t, [], 0, items[0].items, m)
    ensures SameObject(t, items, 1)
  {
    assert Entries(items)[0] == Entry([], Braced(Entries(items[0].items)));
    var r := BraceUpSubs(t, 0, items[0].items);
    assert [] + r.subs == r.subs;
  }

  lemma SameRun(t: Type, items: seq<Init>, n: nat)
    requires items != [] && items[0].Expr? && !t.Scalar? && SameLoop(t, [], 0, items, n)
    ensures SameObject(t, items, n)
  {
    var es := Entries(items);
    assert ItemOf(items[0]) == Single(items[0].v) && es[0] == Entry([], ItemOf(items[0]));
    RunOfAll(es);
    assert es[..|es|] == es;
    var r := BraceUpSubs(t, 0, items);
    assert [] + r.subs == r.subs;
  }

  lemma {:induction false} SameSubs(t: Type, subs: seq<Tree>, i: nat, items: seq<Init>) returns (n: nat)
    requires !t.Scalar? && i <= Count(t) && |subs| == i
    ensures SameLoop(t, subs, i, items, n)
    decreases Size(items), t, 0, Count(t) - i
  {
    if items == [] || i == Count(t) {
      n := 0;
      assert subs + [] == subs && items[0..] == items;
    } else {
      var first := BraceUp(Sub(t, i), items);
      var here := SameTree(Sub(t, i), items);
      var there := SameSubs(t, subs + [first.tree], i + 1, first.rest);
      var all, more := subs + [first.tree], BraceUpSubs(t, i + 1, first.rest);
      LoopOn(t, subs, i, items, first, here, all, i + 1);
      SameTurn(items, subs, first, here, all, Loop(t, all, i + 1, [], Entries(first.rest)), more, there,
               Loop(t, subs, i, [], Entries(items)), BraceUpSubs(t, i, items));
      n := here + there;
    }
  }

  /** A turn of both loops, and then what more there is to take. */
  lemma SameTurn(items: seq<Init>, subs: seq<Tree>, first: Result, here: nat, all: seq<Tree>, loop: Outcomes,
                 more: Results, there: nat, whole: Outcomes, both: Results)
    requires Goes(items, here, first.rest) && Goes(first.rest, there, more.rest)
    requires loop == DoneAll(all + more.subs, there, []) && whole == Continued(here, loop)
    requires all == subs + [first.tree] && both.subs == [first.tree] + more.subs && both.rest == more.rest
    ensures Goes(items, here + there, both.rest) && whole == DoneAll(subs + both.subs, here + there, [])
  {
    assert all + more.subs == subs + both.subs;
  }

  lemma LoopOn(t: Type, subs: seq<Tree>, i: nat, items: seq<Init>, first: Result, here: nat, all: seq<Tree>, next: nat)
    requires !t.Scalar? && i < Count(t) && |subs| == i && items != [] && next == i + 1
    requires Normalise(Sub(t, i), Missing, [], Entries(items)) == Done(first.tree, here, [])
    requires Goes(items, here, first.rest) && all == subs + [first.tree]
    ensures Loop(t, subs, i, [], Entries(items)) == Continued(here, Loop(t, all, next, [], Entries(first.rest)))
  {
    EntriesFrom(items, here);
    PaddedNext(subs, i, first.tree, all);
    NextTurn(t, subs, i, Entries(items), Done(first.tree, here, []), next);
  }

  lemma PaddedNext(subs: seq<Tree>, i: nat, x: Tree, all: seq<Tree>)
    requires |subs| == i && all == subs + [x]
    ensures At(subs, i) == Missing && Padded(subs, i, x) == all
  {}

  /** The scalars of an object initialised by a list in braces are those that the list says, one after another. */
  lemma BracedIsRead(t: Type, list: seq<Init>)
    requires NonEmpty(t)
    ensures ListValue(t, Entries(list), false) == Some(Scalars(t, BraceUp(t, [Brace(list)]).tree))
  {
    var items := [Brace(list)];
    var n := SameTree(t, items);
    assert Entries(items) == [Entry([], Braced(Entries(list)))];
    ObjectIsRead(t, Missing, Entry([], Braced(Entries(list))));
  }

  /** So are those of the part of an object that a list without braces initialises, and what it leaves. */
  lemma BareIsRead(t: Type, items: seq<Init>)
    requires !t.Scalar? && NonEmpty(t) && items != [] && items[0].Expr?
    ensures var r := BraceUp(t, items);
            |r.rest| <= |items| &&
            Read(t, Zeros(ScalarCount(t)), 0, [], Entries(items), false)
              == Reading(Scalars(t, r.tree), |items| - |r.rest|)
  {
    var r := BraceUp(t, items);
    var es := Entries(items);
    var n := SameSubs(t, [], 0, items);
    MissingIsZero(t);
    assert Scalars(t, Members([])) == Scalars(t, Missing);
    ListIsRead(t, [], 0, [], es, Loop(t, [], 0, [], es), Read(t, Scalars(t, Members([])), 0, [], es, false));
    assert [] + BraceUpSubs(t, 0, items).subs == BraceUpSubs(t, 0, items).subs;
  }
}
