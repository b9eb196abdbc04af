/**
  Designated initialisers of nested structures and arrays (src/cc1/decl_init.c): normalisation with an object
  that earlier items have already initialised in part.
*/
module DesigSyntax {
  import opened InitSyntax

  /** `.m` for the member at `i`, or `[i]`. */
  datatype Desig = Field(i: nat) | Elem(i: nat)

  /** An item of an initialiser list, with the designators before it. */
  datatype Entry = Entry(desig: seq<Desig>, item: Item)
  datatype Item = Single(v: int) | Braced(entries: seq<Entry>)

  /** How far a list has been taken, and which designators the next item still has. */
  datatype Outcome = Die | Done(tree: Tree, taken: nat, left: seq<Desig>)
  datatype Outcomes = DieAll | DoneAll(subs: seq<Tree>, taken: nat, left: seq<Desig>)

  /** The sub-objects of an object initialised so far. */
  function SubsOf(cur: Tree): seq<Tree> {
    if cur.Members? then cur.subs else []
  }

  function At(subs: seq<Tree>, i: nat): Tree {
    if i < |subs| then subs[i] else Missing
  }

  /** dynarray_padinsert */
  function Padded(subs: seq<Tree>, i: nat, x: Tree): seq<Tree> {
    if i < |subs| then subs[i := x] else subs + Gap(i - |subs|) + [x]
  }

  function Gap(n: nat): (r: seq<Tree>)
    ensures |r| == n && forall k :: 0 <= k < n ==> r[k] == Missing
  {
    if n == 0 then [] else Gap(n - 1) + [Missing]
  }

  lemma PaddedAt(subs: seq<Tree>, i: nat, x: Tree)
    ensures var r := Padded(subs, i, x); At(r, i) == x && forall k :: k != i ==> At(r, k) == At(subs, k)
  {}

  function DesigAt(es: seq<Entry>, k: nat): seq<Desig> {
    if k < |es| then es[k].desig else []
  }

  /** find_desig, from the second item on: how many items there are before the next designated one. */
  function RunLength(es: seq<Entry>): (k: nat)
    requires es != []
    ensures 1 <= k <= |es| && (k < |es| ==> es[k].desig != [])
    ensures forall j :: 1 <= j < k ==> es[j].desig == []
  {
    if |es| == 1 || es[1].desig != [] then 1 else 1 + RunLength(es[1..])
  }

  /** Whether a designator can designate a sub-object of `t`. */
  predicate Matches(t: Type, d: Desig)
    requires !t.Scalar?
  {
    t.Array? == d.Elem? && d.i < Count(t)
  }

  /** decl_init_brace_up_r, with what has been initialised of the object, for the items `es`, the first of which
      still has the designators `p`. The source dies on a designator that does not match. */
  function Normalise(t: Type, cur: Tree, p: seq<Desig>, es: seq<Entry>): (r: Outcome)
    requires es != []
    ensures r.Done? ==> r.taken <= |es| && (r.taken == 0 ==> |r.left| <= |p|)
    decreases es, |p|, t, 1
  {
    if t.Scalar? then
      if p != [] then Die
      else
        match es[0].item
        case Single(v) => Done(Value(v), 1, DesigAt(es, 1))
        case Braced(sub) =>
          if sub == [] then Done(Value(0), 1, DesigAt(es, 1))
          else
            var r := Normalise(Scalar, cur, sub[0].desig, sub);
            if r.Die? then Die else Done(r.tree, 1, DesigAt(es, 1))
    else
      match es[0].item
      case Braced(sub) =>
        if sub == [] then Done(Members([Missing]), 1, DesigAt(es, 1))
        else
          assert es[..1] == [es[0]] && (|es| == 1 ==> es[..1] == es);
          var r := if p != [] then Loop(t, SubsOf(cur), 0, p, es[..1]) else Loop(t, [], 0, sub[0].desig, sub);
          if r.DieAll? then Die else Done(Members(r.subs), 1, DesigAt(es, 1))
      case Single(_) =>
        var k := RunLength(es);
        assert k == |es| ==> es[..k] == es;
        var r := Loop(t, SubsOf(cur), 0, p, es[..k]);
        if r.DieAll? then Die
        else Done(Members(r.subs), r.taken, if r.taken == k then DesigAt(es, k) else r.left)
  }

  /** decl_init_brace_up_array2 and decl_init_brace_up_sue2, from the sub-object at `i` on. */
  function Loop(t: Type, subs: seq<Tree>, i: nat, p: seq<Desig>, es: seq<Entry>): (r: Outcomes)
    requires !t.Scalar? && i <= Count(t)
    ensures r.DoneAll? ==> r.taken <= |es| && (r.taken == 0 ==> |r.left| <= |p|)
    decreases es, |p|, t, 0, Count(t) - i
  {
    if es == [] then DoneAll(subs, 0, [])
    else if p != [] && !Matches(t, p[0]) then DieAll
    else if p == [] && i == Count(t) then DoneAll(subs, 0, [])
    else
      var j := if p != [] then p[0].i else i;
      var first := Normalise(Sub(t, j), At(subs, j), if p != [] then p[1..] else [], es);
      if first.Die? then DieAll
      else
        assert first.taken == 0 ==> es[first.taken..] == es;
        var more := Loop(t, Padded(subs, j, first.tree), j + 1, first.left, es[first.taken..]);
        if more.DieAll? then DieAll else DoneAll(more.subs, first.taken + more.taken, more.left)
  }

  /** The first `k` items, and then what more there is to take. */
  function Continued(k: nat, r: Outcomes): Outcomes {
    if r.DieAll? then DieAll else DoneAll(r.subs, k + r.taken, r.left)
  }

  /** A turn of the loop without a designator, and one with. */
  lemma NextTurn(t: Type, subs: seq<Tree>, i: nat, es: seq<Entry>, first: Outcome, next: nat)
    requires !t.Scalar? && i < Count(t) && es != [] && next == i + 1
    requires first == Normalise(Sub(t, i), At(subs, i), [], es)
    ensures Loop(t, subs, i, [], es) ==
            if first.Die? then DieAll
            else Continued(first.taken, Loop(t, Padded(subs, i, first.tree), next, first.left, es[first.taken..]))
  {}

  lemma DesignatedTurn(t: Type, subs: seq<Tree>, i: nat, p: seq<Desig>, es: seq<Entry>, j: nat, first: Outcome,
                       next: nat)
    requires !t.Scalar? && i <= Count(t) && es != [] && p != [] && Matches(t, p[0]) && j == p[0].i && next == j + 1
    requires first == Normalise(Sub(t, j), At(subs, j), p[1..], es)
    ensures Loop(t, subs, i, p, es) ==
            if first.Die? then DieAll
            else Continued(first.taken, Loop(t, Padded(subs, j, first.tree), next, first.left, es[first.taken..]))
  {}
}

/** The same with cursors that are advanced in place, and an item whose designators are followed in place. */
module DesigCode {
  import opened InitSyntax
  import opened DesigSyntax

  /** init_iter: the items still to take, and the designators that the first of them still has. */
  class EntryIter {
    var pos: seq<Entry>
    var desig: seq<Desig>

    constructor (pos: seq<Entry>, desig: seq<Desig>)
      ensures this.pos == pos && this.desig == desig
    {
      this.pos := pos;
      this.desig := desig;
    }

    /** ++iter->pos */
    method Next()
      requires pos != []
      modifies this
      ensures pos == old(pos)[1..] && desig == DesigAt(old(pos), 1)
    {
      desig := DesigAt(pos, 1);
      pos := pos[1..];
    }
  }

  /** The loop has come to the sub-object at `i` and the item at `n`. */
  ghost predicate Reached(whole: Outcomes, n: nat, t: Type, subs: seq<Tree>, i: nat, p: seq<Desig>, es: seq<Entry>)
    requires !t.Scalar? && i <= Count(t)
  {
    whole == Continued(n, Loop(t, subs, i, p, es))
  }

  /** What a method leaves of the items `es` is what the specification says; it gives up where the source dies. */
  predicate Leaves(es: seq<Entry>, r: Outcome, ok: bool, tree: Tree, pos: seq<Entry>, desig: seq<Desig>)
    requires r.Done? ==> r.taken <= |es|
  {
    if r.Die? then !ok
    else ok && tree == r.tree && pos == es[r.taken..] && desig == r.left && (pos == [] ==> desig == [])
  }

  method BraceUpR(iter: EntryIter, t: Type, current: Tree) returns (ok: bool, tree: Tree)
    requires iter.pos != []
    modifies iter
    ensures match Normalise(t, current, old(iter.desig), old(iter.pos))
            case Die => !ok
            case Done(r, taken, left) =>
              ok && tree == r && iter.pos == old(iter.pos)[taken..] && iter.desig == left
              && (iter.pos == [] ==> iter.desig == [])
    decreases iter.pos, |iter.desig|, t, 5
  {
    if t.Scalar? {
      ok, tree := BraceUpScalar(iter, current);
    } else {
      ok, tree := BraceUpAggregate(iter, t, current);
    }
  }

  method BraceUpScalar(iter: EntryIter, current: Tree) returns (ok: bool, tree: Tree)
    requires iter.pos != []
    modifies iter
    ensures Leaves(old(iter.pos), Normalise(Scalar, current, old(iter.desig), old(iter.pos)), ok, tree, iter.pos,
                   iter.desig)
    decreases iter.pos, |iter.desig|, Scalar, 4
  {
    var first, desig := iter.pos[0], iter.desig;
    iter.Next();
    if desig != [] { return false, Missing; }
    if first.item.Single? { return true, Value(first.item.v); }
    if first.item.entries == [] { return true, Value(0); }
    var it := new EntryIter(first.item.entries, first.item.entries[0].desig);
    ok, tree := BraceUpR(it, Scalar, current);
  }

  /** find_desig(iter->pos + 1) */
  method FindDesig(es: seq<Entry>) returns (k: nat)
    requires es != []
    ensures k == RunLength(es)
  {
    k := 1;
    while k < |es| && es[k].desig == []
      invariant 1 <= k <= |es|
      invariant RunLength(es) == k - 1 + RunLength(es[k - 1..])
    {
      assert es[k - 1..][1..] == es[k..];
      k := k + 1;
    }
  }

  method BraceUpAggregate(iter: EntryIter, t: Type, current: Tree) returns (ok: bool, tree: Tree)
    requires iter.pos != [] && !t.Scalar?
    modifies iter
    ensures Leaves(old(iter.pos), Normalise(t, current, old(iter.desig), old(iter.pos)), ok, tree, iter.pos, iter.desig)
    decreases iter.pos, |iter.desig|, t, 4
  {
    if iter.pos[0].item.Braced? {
      ok, tree := BraceUpBraced(iter, t, current);
    } else {
      ok, tree := BraceUpRun(iter, t, current);
    }
  }

  /** The first branch: a list of its own, in which the designators still to follow are those of the braces. */
  method BraceUpBraced(iter: EntryIter, t: Type, current: Tree) returns (ok: bool, tree: Tree)
    requires iter.pos != [] && !t.Scalar? && iter.pos[0].item.Braced?
    modifies iter
    ensures Leaves(old(iter.pos), Normalise(t, current, old(iter.desig), old(iter.pos)), ok, tree, iter.pos, iter.desig)
    decreases iter.pos, |iter.desig|, t, 1
  {
    var first, desig := iter.pos[0], iter.desig;
    if first.item.entries == [] {
      iter.Next();
      return true, Members([Missing]);
    }
    assert iter.pos[..1] == [first] && (|iter.pos| == 1 ==> iter.pos == [first]);
    var subs;
    if desig != [] {
      var it := new EntryIter([first], desig);
      ok, subs := BraceUpSubObjects(it, t, SubsOf(current));
    } else {
      var it := new EntryIter(first.item.entries, first.item.entries[0].desig);
      ok, subs := BraceUpSubObjects(it, t, []);
    }
    iter.Next();
    tree := Members(subs);
  }

  /** The other two branches. */
  method BraceUpRun(iter: EntryIter, t: Type, current: Tree) returns (ok: bool, tree: Tree)
    requires iter.pos != [] && !t.Scalar? && iter.pos[0].item.Single?
    modifies iter
    ensures Leaves(old(iter.pos), Normalise(t, current, old(iter.desig), old(iter.pos)), ok, tree, iter.pos, iter.desig)
    decreases iter.pos, |iter.desig|, t, 2
  {
    var k := FindDesig(iter.pos);
    if k < |iter.pos| {
      ok, tree := BraceUpCut(iter, t, current, k);
    } else {
      ok, tree := BraceUpWhole(iter, t, current);
    }
  }

  /** The list ends before the next designated item while the sub-objects are initialised. */
  method BraceUpCut(iter: EntryIter, t: Type, current: Tree, k: nat) returns (ok: bool, tree: Tree)
    requires iter.pos != [] && !t.Scalar? && iter.pos[0].item.Single? && k == RunLength(iter.pos) < |iter.pos|
    modifies iter
    ensures Leaves(old(iter.pos), Normalise(t, current, old(iter.desig), old(iter.pos)), ok, tree, iter.pos, iter.desig)
    decreases iter.pos, |iter.desig|, t, 1
  {
    var es, desig := iter.pos, iter.desig;
    var it := new EntryIter(es[..k], desig);
    var subs;
    ok, subs := BraceUpSubObjects(it, t, SubsOf(current));
    CutLeaves(es, t, current, desig, k, Loop(t, SubsOf(current), 0, desig, es[..k]), ok, subs, it.pos, it.desig);
    if !ok { return false, current; }
    iter.pos := es[k - |it.pos|..];
    iter.desig := if it.pos == [] then DesigAt(es, k) else it.desig;
    tree := Members(subs);
  }

  method BraceUpWhole(iter: EntryIter, t: Type, current: Tree) returns (ok: bool, tree: Tree)
    requires iter.pos != [] && !t.Scalar? && iter.pos[0].item.Single? && RunLength(iter.pos) == |iter.pos|
    modifies iter
    ensures Leaves(old(iter.pos), Normalise(t, current, old(iter.desig), old(iter.pos)), ok, tree, iter.pos, iter.desig)
    decreases iter.pos, |iter.desig|, t, 1
  {
    ghost var es, desig := iter.pos, iter.desig;
    ghost var run := Loop(t, SubsOf(current), 0, desig, es);
    assert es[..|es|] == es;
    RunDone(t, current, desig, es, |es|, run);
    var subs;
    ok, subs := BraceUpSubObjects(iter, t, SubsOf(current));
    if !ok { return false, current; }
    WholeLeaves(es, t, current, desig, run, subs, iter.pos, iter.desig);
    tree := Members(subs);
  }

  lemma RunDone(t: Type, cur: Tree, p: seq<Desig>, es: seq<Entry>, k: nat, r: Outcomes)
    requires es != [] && !t.Scalar? && es[0].item.Single? && k == RunLength(es)
    requires r == Loop(t, SubsOf(cur), 0, p, es[..k])
    ensures Normalise(t, cur, p, es) ==
            if r.DieAll? then Die
            else Done(Members(r.subs), r.taken, if r.taken == k then DesigAt(es, k) else r.left)
  {}

  /** What is left of a list that has been cut off, and of the whole. */
  lemma Cut(es: seq<Entry>, k: nat, taken: nat, pos: seq<Entry>)
    requires taken <= k <= |es| && pos == es[..k][taken..]
    ensures |pos| <= k && es[k - |pos|..] == es[taken..] && (pos == [] <==> taken == k)
  {}

  lemma CutLeaves(es: seq<Entry>, t: Type, cur: Tree, p: seq<Desig>, k: nat, r: Outcomes, ok: bool, subs: seq<Tree>,
                  pos: seq<Entry>, left: seq<Desig>)
    requires es != [] && !t.Scalar? && es[0].item.Single? && k == RunLength(es) < |es|
    requires r == Loop(t, SubsOf(cur), 0, p, es[..k]) && ok == r.DoneAll?
    requires ok ==> r.subs == subs && r.left == left && pos == es[..k][r.taken..]
    ensures if !ok then Normalise(t, cur, p, es).Die?
            else
              && |pos| <= k
              && Leaves(es, Normalise(t, cur, p, es), true, Members(subs), es[k - |pos|..],
                        if pos == [] then DesigAt(es, k) else left)
  {
    RunDone(t, cur, p, es, k, r);
    if ok { Cut(es, k, r.taken, pos); }
  }

  lemma WholeLeaves(es: seq<Entry>, t: Type, cur: Tree, p: seq<Desig>, r: Outcomes, subs: seq<Tree>, pos: seq<Entry>,
                    left: seq<Desig>)
    requires es != [] && r.DoneAll? && r.taken <= |es| && r.subs == subs && r.left == left && pos == es[r.taken..]
    requires pos == [] ==> left == []
    requires Normalise(t, cur, p, es) ==
             Done(Members(r.subs), r.taken, if r.taken == |es| then DesigAt(es, |es|) else r.left)
    ensures Leaves(es, Normalise(t, cur, p, es), true, Members(subs), pos, left)
  {}

  /** The loops of decl_init_brace_up_array2 and decl_init_brace_up_sue2. */
  method BraceUpSubObjects(iter: EntryIter, t: Type, current: seq<Tree>) returns (ok: bool, subs: seq<Tree>)
    requires !t.Scalar? && (iter.pos == [] ==> iter.desig == [])
    modifies iter
    ensures var r := Loop(t, current, 0, old(iter.desig), old(iter.pos));
            if r.DieAll? then !ok
            else ok && subs == r.subs && iter.pos == old(iter.pos)[r.taken..] && iter.desig == r.left
                 && (iter.pos == [] ==> iter.desig == [])
    decreases iter.pos, |iter.desig|, t, 0
  {
    subs := current;
    var i: nat := 0;
    ghost var es, p := iter.pos, iter.desig;
    ghost var whole := Loop(t, current, 0, p, es);
    ghost var n: nat := 0;
    while iter.pos != []
      invariant i <= Count(t) && Reached(whole, n, t, subs, i, iter.desig, iter.pos)
      invariant IsRest(es, p, n, iter.pos, iter.desig)
      decreases |iter.pos|, |iter.desig|, Count(t) - i
    {
      ghost var q, desig, was, m := iter.pos, iter.desig, subs, n;
      var j := i;
      if iter.desig != [] {
        if !Matches(t, iter.desig[0]) { return false, subs; }
        j := iter.desig[0].i;
        iter.desig := iter.desig[1..];
      } else if i == Count(t) {
        return true, subs;
      }
      ghost var path, from := iter.desig, i;
      ghost var turn := Normalise(Sub(t, j), At(subs, j), path, q);
      var sub;
      ok, sub := BraceUpR(iter, Sub(t, j), At(subs, j));
      if !ok {
        TurnDies(whole, m, t, was, from, desig, q, j, path, turn);
        return false, subs;
      }
      n, subs, i := n + turn.taken, Padded(subs, j, sub), j + 1;
      Turned(whole, m, t, was, from, desig, q, j, path, turn, n, subs, i, iter.desig, iter.pos);
      RestOf(es, p, m, q, desig, turn.taken, n, iter.pos, iter.desig);
    }
    ok := true;
  }

  /** `pos` is what is left of `es` from the item at `n` on; its designators are no longer than `p` if that is the
      first. */
  ghost predicate IsRest(es: seq<Entry>, p: seq<Desig>, n: nat, pos: seq<Entry>, desig: seq<Desig>) {
    n <= |es| && pos == es[n..] && (n == 0 ==> |desig| <= |p|) && (pos == [] ==> desig == [])
  }

  lemma RestOf(es: seq<Entry>, p: seq<Desig>, m: nat, q: seq<Entry>, desig: seq<Desig>, taken: nat, n: nat,
               pos: seq<Entry>, desig': seq<Desig>)
    requires IsRest(es, p, m, q, desig) && taken <= |q| && pos == q[taken..] && (pos == [] ==> desig' == [])
    requires n == m + taken && (taken == 0 ==> |desig'| <= |desig|)
    ensures IsRest(es, p, n, pos, desig')
  {
    assert es[m..][taken..] == es[n..];
  }

  /** One turn of the loop, with the sub-object at `j` and the designators `path` that still lead into it. */
  ghost predicate Turns(t: Type, i: nat, p: seq<Desig>, j: nat, path: seq<Desig>)
    requires !t.Scalar?
  {
    && i <= Count(t) && j < Count(t)
    && if p != [] then Matches(t, p[0]) && j == p[0].i && path == p[1..] else j == i && path == []
  }

  lemma TurnDies(whole: Outcomes, n: nat, t: Type, subs: seq<Tree>, i: nat, p: seq<Desig>, es: seq<Entry>, j: nat,
                 path: seq<Desig>, turn: Outcome)
    requires !t.Scalar? && es != [] && Turns(t, i, p, j, path) && Reached(whole, n, t, subs, i, p, es)
    requires turn == Normalise(Sub(t, j), At(subs, j), path, es) && turn.Die?
    ensures whole.DieAll?
  {
    if p == [] { NextTurn(t, subs, j, es, turn, j + 1); } else { DesignatedTurn(t, subs, i, p, es, j, turn, j + 1); }
  }

  /** After the turn, with the values that the loop's variables have then. */
  lemma Turned(whole: Outcomes, n: nat, t: Type, subs: seq<Tree>, i: nat, p: seq<Desig>, es: seq<Entry>, j: nat,
               path: seq<Desig>, turn: Outcome, n': nat, subs': seq<Tree>, i': nat, p': seq<Desig>, es': seq<Entry>)
    requires !t.Scalar? && es != [] && Turns(t, i, p, j, path) && Reached(whole, n, t, subs, i, p, es)
    requires turn == Normalise(Sub(t, j), At(subs, j), path, es) && turn.Done?
    requires n' == n + turn.taken && subs' == Padded(subs, j, turn.tree) && i' == j + 1 && p' == turn.left
    requires es' == es[turn.taken..]
    ensures Reached(whole, n', t, subs', i', p', es')
  {
    var r := Loop(t, subs', i', p', es');
    if p == [] { NextTurn(t, subs, j, es, turn, i'); } else { DesignatedTurn(t, subs, i, p, es, j, turn, i'); }
    ContinuedOn(n, turn.taken, r);
  }

  lemma ContinuedOn(n: nat, k: nat, r: Outcomes)
    ensures Continued(n, Continued(k, r)) == Continued(n + k, r)
  {}
}
