/** The scalars of an object, in the order of their addresses, and those of its parts. */
module DesigScalars {
  import opened InitSyntax
  import opened InitOrder
  import opened DesigSyntax

  /** Designators lead to a sub-object of `t`. */
  predicate Valid(t: Type, p: seq<Desig>)
    decreases |p|
  {
    p == [] || (!t.Scalar? && Matches(t, p[0]) && Valid(Sub(t, p[0].i), p[1..]))
  }

  /** Every aggregate holds at least one scalar. */
  predicate NonEmpty(t: Type)
    decreases t
  {
    t.Scalar? || (Count(t) > 0 && forall i :: 0 <= i < Count(t) ==> NonEmpty(Sub(t, i)))
  }

  /** The scalars of the sub-objects before the one at `i`. */
  function Before(t: Type, i: nat): nat
    requires !t.Scalar? && i <= Count(t)
  {
    if i == 0 then 0 else Before(t, i - 1) + ScalarCount(Sub(t, i - 1))
  }

  /** The first scalar of the designated sub-object. */
  function Offset(t: Type, p: seq<Desig>): nat
    requires Valid(t, p)
    decreases |p|
  {
    if p == [] then 0 else Before(t, p[0].i) + Offset(Sub(t, p[0].i), p[1..])
  }

  /** The sub-object that designators lead to. */
  function Designated(t: Type, p: seq<Desig>): Type
    requires Valid(t, p)
    decreases |p|
  {
    if p == [] then t else Designated(Sub(t, p[0].i), p[1..])
  }

  // ---- The scalars of an object --------------------------------------------------------------------------

  lemma {:induction false} Total(t: Type, i: nat)
    requires !t.Scalar? && i <= Count(t)
    ensures Before(t, i) + ScalarsFrom(t, i) == ScalarCount(t)
  {
    if i > 0 { Total(t, i - 1); }
  }

  lemma {:induction false} ScalarsLength(t: Type, tree: Tree)
    ensures |Scalars(t, tree)| == ScalarCount(t)
    decreases t, Count'(t)
  {
    if !t.Scalar? { ScalarsOfLength(t, 0, if tree.Members? then tree.subs else []); }
  }

  lemma {:induction false} ScalarsOfLength(t: Type, i: nat, subs: seq<Tree>)
    requires !t.Scalar? && i <= Count(t)
    ensures |ScalarsOf(t, i, subs)| == ScalarsFrom(t, i)
    decreases t, Count(t) - i
  {
    if i < Count(t) && subs != [] {
      ScalarsLength(Sub(t, i), subs[0]);
      ScalarsOfLength(t, i + 1, subs[1..]);
    }
  }

  lemma {:induction false} OffsetInside(t: Type, p: seq<Desig>)
    requires Valid(t, p) && NonEmpty(t)
    ensures Offset(t, p) < ScalarCount(t)
    decreases |p|, t
  {
    if p != [] {
      OffsetInside(Sub(t, p[0].i), p[1..]);
      Total(t, p[0].i);
    } else if !t.Scalar? {
      OffsetInside(Sub(t, 0), []);
      Total(t, 0);
    }
  }

  lemma ZerosJoin(m: nat, n: nat)
    ensures Zeros(m + n) == Zeros(m) + Zeros(n)
  {}

  /** What has not been initialised is zero. */
  lemma MissingIsZero(t: Type)
    ensures Scalars(t, Missing) == Zeros(ScalarCount(t))
  {
    if t.Scalar? {
      assert Zeros(1) == [0] + Zeros(0);
    } else if Count(t) == 0 {
      assert Zeros(0) == [];
    }
  }

  function Rest(subs: seq<Tree>): seq<Tree> {
    if subs == [] then [] else subs[1..]
  }

  /** The scalars of one sub-object after those of another. */
  lemma Unroll(t: Type, i: nat, subs: seq<Tree>)
    requires !t.Scalar? && i < Count(t)
    ensures ScalarsOf(t, i, subs) == Scalars(Sub(t, i), At(subs, 0)) + ScalarsOf(t, i + 1, Rest(subs))
  {
    if subs == [] {
      MissingIsZero(Sub(t, i));
      ZerosJoin(ScalarCount(Sub(t, i)), ScalarsFrom(t, i + 1));
      if i + 1 == Count(t) { assert Zeros(0) == []; }
    }
  }

  /** `part` is what `all` holds from `from` on. */
  ghost predicate Holds(all: seq<int>, from: int, part: seq<int>) {
    0 <= from && from + |part| <= |all| && forall k :: from <= k < from + |part| ==> all[k] == part[k - from]
  }

  /** `all'` is `all` with `part'` in place of `part`, which starts at `from`. */
  ghost predicate Replaces(all: seq<int>, from: int, part: seq<int>, part': seq<int>, all': seq<int>) {
    && |part| == |part'| && |all| == |all'|
    && Holds(all, from, part) && Holds(all', from, part')
    && forall k :: 0 <= k < |all| && !(from <= k < from + |part|) ==> all'[k] == all[k]
  }

  lemma ReplacesHead(head: seq<int>, tail: seq<int>, part': seq<int>)
    requires |part'| == |head|
    ensures Replaces(head + tail, 0, head, part', part' + tail)
  {}

  lemma ReplacesTail(head: seq<int>, tail: seq<int>, from: int, part: seq<int>, part': seq<int>, tail': seq<int>)
    requires Replaces(tail, from, part, part', tail')
    ensures Replaces(head + tail, |head| + from, part, part', head + tail')
  {}

  /** The scalars of the sub-object at `j`, in those from `i` on, when it changes from `was` to `x`. */
  lemma {:induction false} PartFrom(t: Type, i: nat, subs: seq<Tree>, k: nat, j: nat, was: Tree, x: Tree,
                                    subs': seq<Tree>, all: seq<int>, at: int, all': seq<int>)
    requires !t.Scalar? && j == i + k < Count(t) && was == At(subs, k) && subs' == Padded(subs, k, x)
    requires all == ScalarsOf(t, i, subs) && all' == ScalarsOf(t, i, subs') && at == Before(t, j) - Before(t, i)
    ensures Replaces(all, at, Scalars(Sub(t, j), was), Scalars(Sub(t, j), x), all')
    decreases k
  {
    if k == 0 {
      PartFirst(t, i, subs, x, subs');
    } else {
      var next, rest' := i + 1, Padded(Rest(subs), k - 1, x);
      var tail' := ScalarsOf(t, next, rest');
      PartFrom(t, next, Rest(subs), k - 1, j, was, x, rest', ScalarsOf(t, next, Rest(subs)),
               Before(t, j) - Before(t, next), tail');
      LaterPadded(t, i, subs, k, x, subs', rest', next);
      ReplacesNext(t, i, subs, next, Before(t, j), Scalars(Sub(t, j), was), Scalars(Sub(t, j), x), tail', all, at,
                   all');
    }
  }

  lemma PartFirst(t: Type, i: nat, subs: seq<Tree>, x: Tree, subs': seq<Tree>)
    requires !t.Scalar? && i < Count(t) && subs' == Padded(subs, 0, x)
    ensures Replaces(ScalarsOf(t, i, subs), 0, Scalars(Sub(t, i), At(subs, 0)), Scalars(Sub(t, i), x),
                     ScalarsOf(t, i, subs'))
  {
    ScalarsLength(Sub(t, i), x);
    ScalarsLength(Sub(t, i), At(subs, 0));
    Unroll(t, i, subs);
    PaddedAt(subs, 0, x);
    Unroll(t, i, subs');
    SameScalars(t, i + 1, Rest(subs'), Rest(subs));
    ReplacesHead(Scalars(Sub(t, i), At(subs, 0)), ScalarsOf(t, i + 1, Rest(subs)), Scalars(Sub(t, i), x));
  }

  lemma ReplacesNext(t: Type, i: nat, subs: seq<Tree>, next: nat, start: nat, part: seq<int>, part': seq<int>,
                     tail': seq<int>, all: seq<int>, at: int, all': seq<int>)
    requires !t.Scalar? && i < Count(t) && next == i + 1 && at == start - Before(t, i)
    requires Replaces(ScalarsOf(t, next, Rest(subs)), start - Before(t, next), part, part', tail')
    requires all == ScalarsOf(t, i, subs) && all' == Scalars(Sub(t, i), At(subs, 0)) + tail'
    ensures Replaces(all, at, part, part', all')
  {
    var head := Scalars(Sub(t, i), At(subs, 0));
    Unroll(t, i, subs);
    ScalarsLength(Sub(t, i), At(subs, 0));
    NextBefore(t, i);
    ReplacesLater(head, ScalarsOf(t, next, Rest(subs)), start - Before(t, next), part, part', tail', all, at, all');
  }

  lemma ReplacesLater(head: seq<int>, tail: seq<int>, from: int, part: seq<int>, part': seq<int>, tail': seq<int>,
                      all: seq<int>, at: int, all': seq<int>)
    requires Replaces(tail, from, part, part', tail') && all == head + tail && all' == head + tail'
              && at == |head| + from
    ensures Replaces(all, at, part, part', all')
  {
    ReplacesTail(head, tail, from, part, part', tail');
  }

  lemma LaterPadded(t: Type, i: nat, subs: seq<Tree>, k: nat, x: Tree, padded: seq<Tree>, rest': seq<Tree>, next: nat)
    requires !t.Scalar? && i + k < Count(t) && k > 0 && next == i + 1
    requires padded == Padded(subs, k, x) && rest' == Padded(Rest(subs), k - 1, x)
    ensures ScalarsOf(t, i, padded) == Scalars(Sub(t, i), At(subs, 0)) + ScalarsOf(t, next, rest')
  {
    PaddedAt(subs, k, x);
    PaddedAt(Rest(subs), k - 1, x);
    Unroll(t, i, padded);
    assert At(padded, 0) == At(subs, 0);
    forall j: nat ensures At(Rest(padded), j) == At(rest', j) {
      if j != k - 1 { assert At(padded, j + 1) == At(subs, j + 1); }
    }
    SameScalars(t, next, Rest(padded), rest');
  }

  lemma NextBefore(t: Type, i: nat)
    requires !t.Scalar? && i < Count(t)
    ensures Before(t, i + 1) == Before(t, i) + ScalarCount(Sub(t, i))
  {}

  lemma {:induction false} SameScalars(t: Type, i: nat, a: seq<Tree>, b: seq<Tree>)
    requires !t.Scalar? && i <= Count(t) && forall k: nat :: At(a, k) == At(b, k)
    ensures ScalarsOf(t, i, a) == ScalarsOf(t, i, b)
    decreases Count(t) - i
  {
    if i < Count(t) {
      Unroll(t, i, a);
      Unroll(t, i, b);
      assert At(a, 0) == At(b, 0);
      forall k: nat ensures At(Rest(a), k) == At(Rest(b), k) {
        assert At(a, k + 1) == At(b, k + 1);
      }
      SameScalars(t, i + 1, Rest(a), Rest(b));
    }
  }

  /** The scalars of a sub-object within those of the object, and how they change with it. */
  lemma Part(t: Type, subs: seq<Tree>, i: nat, x: Tree)
    requires !t.Scalar? && i < Count(t)
    ensures Replaces(Scalars(t, Members(subs)), Before(t, i), Scalars(Sub(t, i), At(subs, i)), Scalars(Sub(t, i), x),
                     Scalars(t, Members(Padded(subs, i, x))))
  {
    PartFrom(t, 0, subs, i, i, At(subs, i), x, Padded(subs, i, x), Scalars(t, Members(subs)), Before(t, i),
             Scalars(t, Members(Padded(subs, i, x))));
  }

  /** A designator is for an element of an array or for a member of a structure, and of no other kind; the source
      dies on one that is not for the object, or is beyond its end. */
  lemma Designates(t: Type, subs: seq<Tree>, i: nat, d: Desig, p: seq<Desig>, es: seq<Entry>)
    requires !t.Scalar? && i <= Count(t) && es != []
    requires match t
             case Array(_, n) => d.Field? || d.i >= n
             case Struct(ms) => d.Elem? || d.i >= |ms|
             case Scalar => true
    ensures Loop(t, subs, i, [d] + p, es).DieAll?
  {}

  lemma DesignatesPart(t: Type, subs: seq<Tree>, i: nat, d: Desig, v: int)
    requires !t.Scalar? && i <= Count(t)
    requires match t
             case Array(of, n) => of.Scalar? && d.Elem? && d.i < n
             case Struct(ms) => d.Field? && d.i < |ms| && ms[d.i].Scalar?
             case Scalar => true
    ensures var r := Loop(t, subs, i, [d], [Entry([d], Single(v))]);
            && r.DoneAll? && r.taken == 1 && At(r.subs, d.i) == Value(v)
            && forall k :: k != d.i ==> At(r.subs, k) == At(subs, k)
  {
    var es := [Entry([d], Single(v))];
    assert [d][1..] == [] && es[1..] == [];
    var first := Normalise(Sub(t, d.i), At(subs, d.i), [], es);
    assert first == Done(Value(v), 1, []);
    DesignatedTurn(t, subs, i, [d], es, d.i, first, d.i + 1);
    PaddedAt(subs, d.i, Value(v));
  }
}
