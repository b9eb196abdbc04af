/** Braced items behind designators. */
module DesigBraces {
  import opened InitSyntax
  import opened InitOrder
  import opened DesigSyntax
  import opened DesigScalars

  /** A braced item is an object of its own: it takes none of the items after it. */
  lemma BracedAlone(t: Type, cur: Tree, p: seq<Desig>, e: Entry, es: seq<Entry>)
    requires e.item.Braced?
    ensures var alone, r := Normalise(t, cur, p, [e]), Normalise(t, cur, p, [e] + es);
            if alone.Die? then r.Die?
            else alone == Done(alone.tree, 1, []) && r == Done(alone.tree, 1, DesigAt(es, 0))
  {
    assert ([e] + es)[0] == e && ([e] + es)[..1] == [e] && [e][..1] == [e];
    assert DesigAt([e] + es, 1) == DesigAt(es, 0);
  }

  /** After it, the loop goes on with the sub-object after the one that the first designator names. */
  lemma AfterBrace(t: Type, subs: seq<Tree>, i: nat, p: seq<Desig>, e: Entry, es: seq<Entry>)
    requires !t.Scalar? && i <= Count(t) && p != [] && Matches(t, p[0]) && e.item.Braced?
    ensures var first := Normalise(Sub(t, p[0].i), At(subs, p[0].i), p[1..], [e]);
            Loop(t, subs, i, p, [e] + es) ==
            if first.Die? then DieAll
            else Continued(1, Loop(t, Padded(subs, p[0].i, first.tree), p[0].i + 1, DesigAt(es, 0), es))
  {
    var j, all := p[0].i, [e] + es;
    assert all[1..] == es;
    BracedAlone(Sub(t, j), At(subs, j), p[1..], e, es);
    DesignatedTurn(t, subs, i, p, all, j, Normalise(Sub(t, j), At(subs, j), p[1..], all), j + 1);
  }

  /** Designators that lead to the last sub-object at every level. */
  predicate Trailing(t: Type, p: seq<Desig>)
    requires Valid(t, p)
    decreases |p|
  {
    p == [] || (p[0].i + 1 == Count(t) && Trailing(Sub(t, p[0].i), p[1..]))
  }

  lemma {:induction false} TrailingEnds(t: Type, p: seq<Desig>)
    requires Valid(t, p) && NonEmpty(t)
    ensures Offset(t, p) + ScalarCount(Designated(t, p)) <= ScalarCount(t)
    ensures Offset(t, p) + ScalarCount(Designated(t, p)) == ScalarCount(t) <==> Trailing(t, p)
    decreases |p|
  {
    if p != [] {
      var j := p[0].i;
      TrailingEnds(Sub(t, j), p[1..]);
      Total(t, j);
      Total(t, j + 1);
      if j + 1 < Count(t) {
        OffsetInside(Sub(t, j + 1), []);
        assert ScalarsFrom(t, j + 1) > 0;
      }
    }
  }

  /** Initialisation should go on after the designated sub-object itself. It does exactly where that is the last
      part of what the first designator names; otherwise the parts after it are passed over. */
  lemma GoesOnAfterDesignatedIff(t: Type, p: seq<Desig>)
    requires p != [] && Valid(t, p) && NonEmpty(t)
    ensures Before(t, p[0].i + 1) >= Offset(t, p) + ScalarCount(Designated(t, p))
    ensures Before(t, p[0].i + 1) == Offset(t, p) + ScalarCount(Designated(t, p)) <==>
            Trailing(Sub(t, p[0].i), p[1..])
  {
    TrailingEnds(Sub(t, p[0].i), p[1..]);
  }

  lemma {:induction false} ScalarForgets(a: Tree, b: Tree, p: seq<Desig>, es: seq<Entry>)
    requires es != []
    ensures Normalise(Scalar, a, p, es) == Normalise(Scalar, b, p, es)
    decreases es
  {
    if p == [] && es[0].item.Braced? && es[0].item.entries != [] {
      var sub := es[0].item.entries;
      ScalarForgets(a, b, sub[0].desig, sub);
    }
  }

  /** `all'` is `all` with `own` written at `from`. */
  ghost predicate Overwrites(all: seq<int>, from: int, own: seq<int>, all': seq<int>) {
    && |all'| == |all| && Holds(all', from, own)
    && forall k :: 0 <= k < |all| && !(from <= k < from + |own|) ==> all'[k] == all[k]
  }

  /** A designated list that is not empty replaces the designated sub-object, whatever it held, by what it makes
      of a new one, and nothing else. */
  lemma {:induction false} BraceReplaces(t: Type, cur: Tree, p: seq<Desig>, e: Entry)
    requires Valid(t, p) && e.item.Braced? && e.item.entries != []
    ensures var r, own := Normalise(t, cur, p, [e]), Normalise(Designated(t, p), Missing, [], [e]);
            if own.Die? then r.Die?
            else r.Done? && r.taken == 1 && r.left == []
                 && Overwrites(Scalars(t, cur), Offset(t, p), Scalars(Designated(t, p), own.tree), Scalars(t, r.tree))
    decreases |p|
  {
    if p == [] {
      OwnBrace(t, cur, e);
    } else {
      var j := p[0].i;
      var was := At(SubsOf(cur), j);
      BraceReplaces(Sub(t, j), was, p[1..], e);
      InnerBrace(t, cur, p, e);
      var first := Normalise(Sub(t, j), was, p[1..], [e]);
      var own := Normalise(Designated(t, p), Missing, [], [e]);
      if own.Done? { OverwritesInside(t, cur, p, first.tree, Scalars(Designated(t, p), own.tree)); }
    }
  }

  lemma InnerBrace(t: Type, cur: Tree, p: seq<Desig>, e: Entry)
    requires Valid(t, p) && p != [] && e.item.Braced? && e.item.entries != []
    ensures var j, r := p[0].i, Normalise(t, cur, p, [e]);
            var first := Normalise(Sub(t, j), At(SubsOf(cur), j), p[1..], [e]);
            r == if first.Die? then Die else Done(Members(Padded(SubsOf(cur), j, first.tree)), 1, [])
  {
    assert [e][..1] == [e] && [e] + [] == [e];
    AfterBrace(t, SubsOf(cur), 0, p, e, []);
  }

  lemma OverwritesInside(t: Type, cur: Tree, p: seq<Desig>, x: Tree, own: seq<int>)
    requires Valid(t, p) && p != []
    requires var u := Sub(t, p[0].i);
             Overwrites(Scalars(u, At(SubsOf(cur), p[0].i)), Offset(u, p[1..]), own, Scalars(u, x))
    ensures Overwrites(Scalars(t, cur), Offset(t, p), own, Scalars(t, Members(Padded(SubsOf(cur), p[0].i, x))))
  {
    var j := p[0].i;
    Part(t, SubsOf(cur), j, x);
    assert Scalars(t, cur) == Scalars(t, Members(SubsOf(cur)));
    OverwritesPart(Scalars(t, cur), Before(t, j), Scalars(Sub(t, j), At(SubsOf(cur), j)), Scalars(Sub(t, j), x),
                   Scalars(t, Members(Padded(SubsOf(cur), j, x))), Offset(Sub(t, j), p[1..]), own);
  }

  lemma OverwritesPart(all: seq<int>, from: int, part: seq<int>, part': seq<int>, all': seq<int>, at: int,
                       own: seq<int>)
    requires Replaces(all, from, part, part', all') && Overwrites(part, at, own, part')
    ensures Overwrites(all, from + at, own, all')
  {
    forall k | 0 <= k < |all| && !(from + at <= k < from + at + |own|) ensures all'[k] == all[k] {
      if from <= k < from + |part| { assert all'[k] == part'[k - from] && all[k] == part[k - from]; }
    }
  }

  lemma OwnBrace(t: Type, cur: Tree, e: Entry)
    requires e.item.Braced? && e.item.entries != []
    ensures var r, own := Normalise(t, cur, [], [e]), Normalise(t, Missing, [], [e]);
            r == own && (own.Done? ==> own == Done(own.tree, 1, [])
                                       && Overwrites(Scalars(t, cur), 0, Scalars(t, own.tree), Scalars(t, own.tree)))
  {
    var own := Normalise(t, Missing, [], [e]);
    if t.Scalar? { ScalarForgets(cur, Missing, [], [e]); }
    ScalarsLength(t, cur);
    if own.Done? { ScalarsLength(t, own.tree); }
  }

  /** An empty list clears the whole aggregate in which it is met, whatever designators are still to follow:
      `.a.b = {}` clears all of `a`. */
  lemma EmptyBraceClears(t: Type, cur: Tree, p: seq<Desig>, e: Entry)
    requires !t.Scalar? && e.item == Braced([])
    ensures Normalise(t, cur, p, [e]) == Done(Members([Missing]), 1, [])
    ensures Scalars(t, Members([Missing])) == Zeros(ScalarCount(t))
  {
    MissingIsZero(t);
    if Count(t) > 0 { Unroll(t, 0, [Missing]); Unroll(t, 0, []); }
  }

  /** It clears what is designated and nothing else exactly where the rest of the aggregate is zero. */
  lemma EmptyBraceIff(t: Type, cur: Tree, p: seq<Desig>, e: Entry)
    requires !t.Scalar? && Valid(t, p) && NonEmpty(t) && e.item == Braced([])
    ensures var n, s, r := ScalarCount(Designated(t, p)), Scalars(t, cur), Normalise(t, cur, p, [e]);
            && r.Done? && Offset(t, p) + n <= |s|
            && (Overwrites(s, Offset(t, p), Zeros(n), Scalars(t, r.tree))
                <==> forall k :: 0 <= k < |s| && !(Offset(t, p) <= k < Offset(t, p) + n) ==> s[k] == 0)
  {
    EmptyBraceClears(t, cur, p, e);
    ScalarsLength(t, cur);
    TrailingEnds(t, p);
    ClearedIff(Scalars(t, cur), Offset(t, p), ScalarCount(Designated(t, p)));
  }

  lemma ClearedIff(s: seq<int>, at: nat, n: nat)
    requires at + n <= |s|
    ensures Overwrites(s, at, Zeros(n), Zeros(|s|)) <==>
            forall k :: 0 <= k < |s| && !(at <= k < at + n) ==> s[k] == 0
  {
    assert Holds(Zeros(|s|), at, Zeros(n));
    if Overwrites(s, at, Zeros(n), Zeros(|s|)) {
      forall k | 0 <= k < |s| && !(at <= k < at + n) ensures s[k] == 0 {
        assert Zeros(|s|)[k] == s[k];
      }
    }
  }

  /** `struct { struct { int b, c; } a; int d; } x = { .a.b = { 1 }, 2 }` initialises `d` with 2, where the same
      without the inner braces initialises `c`. */
  lemma BraceSkipsMember()
    ensures var pair := Struct([Scalar, Scalar]);
            var t, p := Struct([pair, Scalar]), [Field(0), Field(0)];
            && Valid(t, p) && !Trailing(pair, [Field(0)])
            && Loop(t, [], 0, p, [Entry(p, Braced([Entry([], Single(1))])), Entry([], Single(2))])
               == DoneAll([Members([Value(1)]), Value(2)], 2, [])
            && Loop(t, [], 0, p, [Entry(p, Single(1)), Entry([], Single(2))])
               == DoneAll([Members([Value(1), Value(2)])], 2, [])
  {
    var pair := Struct([Scalar, Scalar]);
    var t, p := Struct([pair, Scalar]), [Field(0), Field(0)];
    var one, two := Entry([], Single(1)), Entry([], Single(2));
    assert p[1..] == [Field(0)] && [Field(0)][1..] == [];
    WithBraces(t, pair, p, Entry(p, Braced([one])), two);
    WithoutBraces(t, pair, p, Entry(p, Single(1)), two);
  }

  lemma WithBraces(t: Type, pair: Type, p: seq<Desig>, e: Entry, two: Entry)
    requires pair == Struct([Scalar, Scalar]) && t == Struct([pair, Scalar]) && p == [Field(0), Field(0)]
    requires e.item == Braced([Entry([], Single(1))]) && two == Entry([], Single(2))
    ensures Loop(t, [], 0, p, [e, two]) == DoneAll([Members([Value(1)]), Value(2)], 2, [])
  {
    assert p[1..] == [Field(0)] && [e] + [two] == [e, two] && [two][1..] == [];
    AfterBrace(t, [], 0, p, e, [two]);
    OneInPair(pair, p[1..], e);
    var a := Members([Value(1)]);
    assert Padded([], 0, a) == [a];
    LastOfTwo(t, a, two);
  }

  lemma LastOfTwo(t: Type, a: Tree, two: Entry)
    requires t.Struct? && Count(t) == 2 && Sub(t, 1) == Scalar && two.item.Single?
    ensures Loop(t, [a], 1, [], [two]) == DoneAll([a, Value(two.item.v)], 1, [])
  {
    assert Normalise(Scalar, Missing, [], [two]) == Done(Value(two.item.v), 1, []);
    assert Padded([a], 1, Value(two.item.v)) == [a, Value(two.item.v)];
  }

  lemma OneInPair(pair: Type, p: seq<Desig>, e: Entry)
    requires pair == Struct([Scalar, Scalar]) && p == [Field(0)] && e.item == Braced([Entry([], Single(1))])
    ensures Normalise(pair, Missing, p, [e]) == Done(Members([Value(1)]), 1, [])
  {
    assert p[1..] == [] && [e][1..] == [] && [e][..1] == [e];
    assert Normalise(Scalar, Missing, [], e.item.entries) == Done(Value(1), 1, []);
    assert Normalise(Scalar, Missing, [], [e]) == Done(Value(1), 1, []);
    assert Padded([], 0, Value(1)) == [Value(1)];
    assert Loop(pair, [], 0, p, [e]) == DoneAll([Value(1)], 1, []);
  }

  lemma WithoutBraces(t: Type, pair: Type, p: seq<Desig>, e: Entry, two: Entry)
    requires pair == Struct([Scalar, Scalar]) && t == Struct([pair, Scalar]) && p == [Field(0), Field(0)]
    requires e.item == Single(1) && two == Entry([], Single(2))
    ensures Loop(t, [], 0, p, [e, two]) == DoneAll([Members([Value(1), Value(2)])], 2, [])
  {
    var es, q := [e, two], [Field(0)];
    assert p[1..] == q && q[1..] == [] && es[1..] == [two] && es[2..] == [] && [two][1..] == [] && es[..2] == es;
    assert RunLength([two]) == 1 && RunLength(es) == 2;
    assert Normalise(Scalar, Missing, [], es) == Done(Value(1), 1, []);
    assert Padded([], 0, Value(1)) == [Value(1)];
    LastOfTwo(pair, Value(1), two);
    assert Loop(pair, [], 0, q, es) == DoneAll([Value(1), Value(2)], 2, []);
    var a := Members([Value(1), Value(2)]);
    assert Normalise(pair, Missing, q, es) == Done(a, 2, []);
    assert Padded([], 0, a) == [a];
  }
}
