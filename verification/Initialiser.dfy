/**
  Normalisation of initialisers (src/cc1/decl_init.c): an undesignated initialiser, with inner braces
  left out or written, becomes a fully braced tree shaped like the type.
*/
module InitSyntax {

  datatype Type =
    | Scalar
    | Array(of: Type, len: nat)
    | Struct(members: seq<Type>)

  /** An initialiser as parsed. */
  datatype Init = Expr(v: int) | Brace(items: seq<Init>)

  /** A normalised initialiser; `Missing` is the source's DYNARRAY_NULL, a zero-initialised slot. */
  datatype Tree = Value(v: int) | Members(subs: seq<Tree>) | Missing

  /** The number of direct sub-objects of an aggregate. */
  function Count(t: Type): nat
    requires !t.Scalar?
  {
    if t.Array? then t.len else |t.members|
  }

  /** The type of the sub-object at `i`. */
  function Sub(t: Type, i: nat): (r: Type)
    requires !t.Scalar? && i < Count(t)
    ensures r < t
  {
    if t.Array? then t.of else t.members[i]
  }

  /** The number of nodes in a list of initialisers. */
  function Size(items: seq<Init>): nat {
    if items == [] then 0
    else 1 + (if items[0].Brace? then Size(items[0].items) else 0) + Size(items[1..])
  }

  /** Normalised tree, initialisers left over, and whether an excess initialiser was reported. */
  datatype Result = Result(tree: Tree, rest: seq<Init>, excess: bool)
  datatype Results = Results(subs: seq<Tree>, rest: seq<Init>, excess: bool)

  /** decl_init_brace_up_r.  An aggregate is only ever initialised from a list that is not exhausted. */
  function BraceUp(t: Type, items: seq<Init>): (r: Result)
    requires t.Scalar? || items != []
    ensures Size(r.rest) <= Size(items)
    decreases Size(items), t, 1
  {
    if t.Scalar? then
      if items == [] then Result(Value(0), [], false)
      else
        match items[0]
        case Expr(v) => Result(Value(v), items[1..], false)
        case Brace(sub) =>
          var r := BraceUp(Scalar, sub);
          Result(r.tree, items[1..], r.excess || |sub| > 1)
    else
      match items[0]
      case Expr(_) =>
        var r := BraceUpSubs(t, 0, items);
        Result(Members(r.subs), r.rest, r.excess)
      case Brace(sub) =>
        if sub == [] then Result(Members([Missing]), items[1..], false)
        else
          var r := BraceUpSubs(t, 0, sub);
          Result(Members(r.subs), items[1..], r.excess || r.rest != [])
  }

  /** decl_init_brace_up_array2 and decl_init_brace_up_sue2, from the sub-object at `i` on. */
  function BraceUpSubs(t: Type, i: nat, items: seq<Init>): (r: Results)
    requires !t.Scalar? && i <= Count(t)
    ensures Size(r.rest) <= Size(items)
    decreases Size(items), t, 0, Count(t) - i
  {
    if items == [] || i == Count(t) then Results([], items, false)
    else
      var first := BraceUp(Sub(t, i), items);
      var more := BraceUpSubs(t, i + 1, first.rest);
      Results([first.tree] + more.subs, more.rest, first.excess || more.excess)
  }
}

/** What the normalised tree means, and that leaving out braces does not change it. */
module InitElision {
  import opened InitSyntax

  /** A value written out as an initialiser in which each aggregate either keeps its braces or not. */
  datatype Written = Leaf(v: int) | Node(braced: bool, kids: seq<Written>)

  /** The initialiser that `w` stands for, followed by `rest`. */
  function Flat(w: Written, rest: seq<Init>): seq<Init>
    decreases w, 1
  {
    match w
    case Leaf(v) => [Expr(v)] + rest
    case Node(true, kids) => [Brace(FlatAll(kids, []))] + rest
    case Node(false, kids) => FlatAll(kids, rest)
  }

  function FlatAll(kids: seq<Written>, rest: seq<Init>): seq<Init>
    decreases kids, 0
  {
    if kids == [] then rest else Flat(kids[0], FlatAll(kids[1..], rest))
  }

  /** The fully braced tree of the same value. */
  function Full(w: Written): Tree
    decreases w, 1
  {
    match w
    case Leaf(v) => Value(v)
    case Node(_, kids) => Members(if kids == [] then [Missing] else FullAll(kids))
  }

  function FullAll(kids: seq<Written>): seq<Tree>
    decreases kids, 0
  {
    if kids == [] then [] else [Full(kids[0])] + FullAll(kids[1..])
  }

  /** `w` initialises an object of type `t`.  Braced lists may stop early, leaving the remaining
      sub-objects zero; an unbraced one may do so only at the end of the list it is part of (`last`). */
  predicate Fits(w: Written, t: Type, last: bool)
    decreases w, 1
  {
    match w
    case Leaf(_) => t.Scalar?
    case Node(braced, kids) =>
      && !t.Scalar? && |kids| <= Count(t)
      && (!braced ==> kids != [])
      && (!braced && !last ==> |kids| == Count(t))
      && FitAll(kids, t, 0, braced || last)
  }

  /** `kids` initialise the sub-objects of `t` from `i` on. */
  predicate FitAll(kids: seq<Written>, t: Type, i: nat, last: bool)
    requires !t.Scalar?
    decreases kids, 0
  {
    kids == [] ||
    (i < Count(t) && Fits(kids[0], Sub(t, i), last && |kids| == 1) && FitAll(kids[1..], t, i + 1, last))
  }

  /** Whether the text of `w` starts with a brace that belongs to something inside it. */
  predicate HidesBrace(w: Written) {
    w.Node? && !w.braced && w.kids != [] && LeadsWithBrace(w.kids[0])
  }

  predicate LeadsWithBrace(w: Written) {
    w.Node? && (w.braced || (w.kids != [] && LeadsWithBrace(w.kids[0])))
  }

  function Nodes(w: Written): nat
    decreases w, 1
  {
    if w.Leaf? then 1 else 1 + NodesAll(w.kids)
  }

  function NodesAll(kids: seq<Written>): nat
    decreases kids, 0
  {
    if kids == [] then 0 else Nodes(kids[0]) + NodesAll(kids[1..])
  }

  /** The first brace in `w` is reached through aggregates with a single sub-object written each, and is
      not empty. */
  predicate Lone(w: Written) {
    w.Node? && w.kids != [] && (w.braced || (|w.kids| == 1 && Lone(w.kids[0])))
  }

  /** The same value without that brace. */
  function Bared(w: Written): (r: Written)
    requires Lone(w)
    ensures Nodes(r) == Nodes(w) && r.Node? && !r.braced && |r.kids| == |w.kids|
  {
    if w.braced then Node(false, w.kids)
    else
      assert [Bared(w.kids[0])][1..] == w.kids[1..];
      Node(false, [Bared(w.kids[0])])
  }

  /** Where braces may be left out. An opening brace always belongs to the outermost aggregate that starts
      there. So an aggregate without braces may start with a braced one only where it makes no difference
      which of them has the brace: where nothing else is written between the two. */
  predicate Readable(w: Written)
    decreases Nodes(w), 1
  {
    match w
    case Leaf(_) => true
    case Node(braced, kids) =>
      if HidesBrace(w) then
        |kids| == 1 && Lone(kids[0]) && (OneKid(w); Readable(Bared(kids[0])))
      else AllReadable(kids)
  }

  lemma OneKid(w: Written)
    requires w.Node? && |w.kids| == 1
    ensures Nodes(w.kids[0]) == NodesAll(w.kids) == NodesAll([w.kids[0]]) < Nodes(w)
  {
    assert w.kids == [w.kids[0]] && w.kids[1..] == [];
  }

  predicate AllReadable(kids: seq<Written>)
    decreases NodesAll(kids), 2
  {
    kids == [] || (Readable(kids[0]) && (assert Nodes(kids[0]) > 0; AllReadable(kids[1..])))
  }

  lemma {:induction false} BareStart(w: Written, t: Type, last: bool, rest: seq<Init>)
    requires Fits(w, t, last) && !LeadsWithBrace(w)
    ensures Flat(w, rest) != [] && Flat(w, rest)[0].Expr?
    decreases w
  {
    if w.Node? {
      BareStart(w.kids[0], Sub(t, 0), (w.braced || last) && |w.kids| == 1, FlatAll(w.kids[1..], rest));
    }
  }

  /** With nothing else between them, which aggregate has the brace cannot be told from the text. */
  lemma {:induction false} BraceMoves(w: Written, t: Type, last: bool, rest: seq<Init>)
    requires Fits(w, t, last) && Lone(w)
    ensures Flat(w, rest) == [Brace(FlatAll(Bared(w).kids, []))] + rest
    ensures Full(Bared(w)) == Full(w) && Fits(Bared(w), t, true)
    decreases w
  {
    if !w.braced {
      var kid := w.kids[0];
      BraceMoves(kid, Sub(t, 0), last, rest);
      assert w.kids == [kid] && w.kids[1..] == [] && [Bared(kid)][1..] == [];
      assert Flat(w, rest) == Flat(kid, FlatAll(w.kids[1..], rest)) == Flat(kid, rest);
      assert FlatAll(Bared(w).kids, []) == Flat(Bared(kid), []) == FlatAll(Bared(kid).kids, []);
      assert FullAll([Bared(kid)]) == [Full(kid)] == FullAll(w.kids);
    }
  }

  /** The kids of a brace that was taken by the outer aggregate. */
  lemma Retaken(w: Written, t: Type, last: bool, rest: seq<Init>)
    requires Fits(w, t, last) && HidesBrace(w) && |w.kids| == 1 && Lone(w.kids[0])
    ensures var kid := Bared(w.kids[0]);
            && Flat(w, rest) == [Brace(FlatAll([kid], []))] + rest && FitAll([kid], t, 0, true)
            && Full(w) == Members(FullAll([kid]))
  {
    BraceMoves(w, t, last, rest);
    BraceMoves(w.kids[0], Sub(t, 0), last, rest);
  }

  /** Normalising an initialiser with any readable choice of inner braces gives the fully braced tree,
      takes exactly the items that belong to it, and reports no excess. */
  lemma {:induction false} ElisionIsUndone(w: Written, t: Type, last: bool, rest: seq<Init>)
    requires Fits(w, t, last) && Readable(w)
    requires last && StartsBare(w) ==> rest == []
    ensures Flat(w, rest) != []
    ensures BraceUp(t, Flat(w, rest)) == Result(Full(w), rest, false)
    decreases Nodes(w), 1
  {
    match w
    case Leaf(_) =>
    case Node(braced, kids) =>
      if HidesBrace(w) {
        Retaken(w, t, last, rest);
        OneKid(w);
        assert NodesAll([Bared(kids[0])][1..]) == 0;
        SubsUndone([Bared(kids[0])], t, 0, true, []);
      } else if braced {
        if kids != [] { SubsUndone(kids, t, 0, true, []); }
      } else {
        BareStart(w, t, last, rest);
        SubsUndone(kids, t, 0, last, rest);
      }
  }

  /** Whether `w` itself has no braces. */
  predicate StartsBare(w: Written) {
    w.Leaf? || !w.braced
  }

  lemma {:induction false} SubsUndone(kids: seq<Written>, t: Type, i: nat, last: bool, rest: seq<Init>)
    requires !t.Scalar? && i + |kids| <= Count(t)
    requires FitAll(kids, t, i, last) && AllReadable(kids)
    requires last ==> rest == []
    requires !last ==> i + |kids| == Count(t)
    ensures kids != [] ==> FlatAll(kids, rest) != []
    ensures BraceUpSubs(t, i, FlatAll(kids, rest)) == Results(FullAll(kids), rest, false)
    decreases NodesAll(kids), 2
  {
    if kids != [] {
      assert Nodes(kids[0]) > 0;
      ElisionIsUndone(kids[0], Sub(t, i), last && |kids| == 1, FlatAll(kids[1..], rest));
      SubsUndone(kids[1..], t, i + 1, last, rest);
    }
  }

  // ---- Any other choice is not undone ------------------------------------------------------------------

  /** Values and zeroed slots of a tree, and of initialisers. */
  function Weight(tree: Tree): nat
    decreases tree, 1
  {
    if tree.Members? then WeightAll(tree.subs) else 1
  }

  function WeightAll(subs: seq<Tree>): nat
    decreases subs, 0
  {
    if subs == [] then 0 else Weight(subs[0]) + WeightAll(subs[1..])
  }

  function ItemWeight(items: seq<Init>): nat {
    if items == [] then 0
    else (if items[0].Expr? || items[0].items == [] then 1 else ItemWeight(items[0].items)) + ItemWeight(items[1..])
  }

  lemma {:induction false} SomeWeight(items: seq<Init>)
    requires items != []
    ensures ItemWeight(items) > 0
    decreases items
  {
    if items[0].Brace? && items[0].items != [] { SomeWeight(items[0].items); }
  }

  /** A scalar takes one item. */
  lemma ScalarRest(items: seq<Init>)
    requires items != []
    ensures BraceUp(Scalar, items).rest == items[1..]
  {}

  /** No item is used twice, and an excess is reported exactly if one is dropped. */
  lemma {:induction false} NoItemTwice(t: Type, items: seq<Init>)
    requires items != []
    ensures var r := BraceUp(t, items);
            && Weight(r.tree) + ItemWeight(r.rest) <= ItemWeight(items)
            && (r.excess <==> Weight(r.tree) + ItemWeight(r.rest) < ItemWeight(items))
    decreases Size(items), t, 1
  {
    if t.Scalar? {
      if items[0].Brace? && items[0].items != [] {
        var sub := items[0].items;
        NoItemTwice(Scalar, sub);
        ScalarRest(sub);
        if |sub| > 1 { SomeWeight(sub[1..]); }
      }
    } else if items[0].Expr? {
      NoItemTwiceInSubs(t, 0, items);
    } else if items[0].items != [] {
      NoItemTwiceInSubs(t, 0, items[0].items);
      var rest := BraceUpSubs(t, 0, items[0].items).rest;
      if rest != [] { SomeWeight(rest); }
    } else {
      assert WeightAll([Missing]) == 1 + WeightAll([Missing][1..]);
    }
  }

  lemma {:induction false} NoItemTwiceInSubs(t: Type, i: nat, items: seq<Init>)
    requires !t.Scalar? && i <= Count(t)
    ensures var r := BraceUpSubs(t, i, items);
            && WeightAll(r.subs) + ItemWeight(r.rest) <= ItemWeight(items)
            && (r.excess <==> WeightAll(r.subs) + ItemWeight(r.rest) < ItemWeight(items))
    decreases Size(items), t, 0, Count(t) - i
  {
    if items != [] && i < Count(t) {
      NoItemTwice(Sub(t, i), items);
      var first := BraceUp(Sub(t, i), items);
      NoItemTwiceInSubs(t, i + 1, first.rest);
      var more := BraceUpSubs(t, i + 1, first.rest);
      assert ([first.tree] + more.subs)[1..] == more.subs;
    }
  }

  lemma {:induction false} FullWeight(w: Written, t: Type, last: bool, rest: seq<Init>)
    requires Fits(w, t, last)
    ensures ItemWeight(Flat(w, rest)) == Weight(Full(w)) + ItemWeight(rest) && Weight(Full(w)) > 0
    decreases w, 1
  {
    if w.Node? {
      if w.kids == [] {
        assert WeightAll([Missing]) == 1 + WeightAll([Missing][1..]);
      } else {
        FullWeights(w.kids, t, 0, w.braced || last, if w.braced then [] else rest);
        if w.braced { FlatNotEmpty(w.kids, t, 0, true, []); }
      }
    }
  }

  lemma {:induction false} FullWeights(kids: seq<Written>, t: Type, i: nat, last: bool, rest: seq<Init>)
    requires !t.Scalar? && FitAll(kids, t, i, last)
    ensures ItemWeight(FlatAll(kids, rest)) == WeightAll(FullAll(kids)) + ItemWeight(rest)
    ensures WeightAll(FullAll(kids)) >= |kids|
    decreases kids, 0
  {
    if kids != [] {
      FullWeight(kids[0], Sub(t, i), last && |kids| == 1, FlatAll(kids[1..], rest));
      FullWeights(kids[1..], t, i + 1, last, rest);
      assert FullAll(kids)[1..] == FullAll(kids[1..]);
    }
  }

  lemma {:induction false} FlatNotEmpty(kids: seq<Written>, t: Type, i: nat, last: bool, rest: seq<Init>)
    requires !t.Scalar? && FitAll(kids, t, i, last) && kids != []
    ensures FlatAll(kids, rest) != []
    decreases kids
  {
    if kids[0].Node? && !kids[0].braced {
      FlatNotEmpty(kids[0].kids, Sub(t, i), 0, last && |kids| == 1, FlatAll(kids[1..], rest));
    }
  }

  /** The text of a hidden brace weighs less than all of `w`, if anything else is written in it. */
  lemma {:induction false} LightBrace(w: Written, t: Type, last: bool, rest: seq<Init>)
    requires Fits(w, t, last) && LeadsWithBrace(w)
    ensures Flat(w, rest) != [] && Flat(w, rest)[0].Brace?
    ensures ItemWeight(Flat(w, rest)[..1]) <= Weight(Full(w))
    ensures Lone(w) || Flat(w, rest)[0].items == [] || ItemWeight(Flat(w, rest)[..1]) < Weight(Full(w))
    decreases w
  {
    if w.braced {
      FullWeight(w, t, last, []);
      assert Flat(w, rest)[..1] == Flat(w, []);
    } else {
      var more := FlatAll(w.kids[1..], rest);
      LightBrace(w.kids[0], Sub(t, 0), last && |w.kids| == 1, more);
      FullWeights(w.kids[1..], t, 1, last, rest);
      assert FullAll(w.kids)[1..] == FullAll(w.kids[1..]);
    }
  }

  lemma {:induction false} BracesLost(w: Written, t: Type, last: bool, rest: seq<Init>)
    requires Fits(w, t, last) && !Readable(w)
    requires last && StartsBare(w) ==> rest == []
    ensures Flat(w, rest) != [] && BraceUp(t, Flat(w, rest)).tree != Full(w)
    decreases Nodes(w), 1
  {
    var kids := w.kids;
    if HidesBrace(w) && !Lone(w) {
      HiddenBraceLost(w, t, last, rest);
    } else if HidesBrace(w) {
      Retaken(w, t, last, rest);
      OneKid(w);
      assert NodesAll([Bared(kids[0])][1..]) == 0;
      FlatNotEmpty([Bared(kids[0])], t, 0, true, []);
      SubsLost([Bared(kids[0])], t, 0, true, []);
    } else if w.braced {
      FlatNotEmpty(kids, t, 0, true, []);
      SubsLost(kids, t, 0, true, []);
    } else {
      BareStart(w, t, last, rest);
      SubsLost(kids, t, 0, last, rest);
    }
  }

  lemma {:induction false} SubsLost(kids: seq<Written>, t: Type, i: nat, last: bool, rest: seq<Init>)
    requires !t.Scalar? && i + |kids| <= Count(t)
    requires FitAll(kids, t, i, last) && !AllReadable(kids)
    requires last ==> rest == []
    requires !last ==> i + |kids| == Count(t)
    ensures BraceUpSubs(t, i, FlatAll(kids, rest)).subs != FullAll(kids)
    decreases NodesAll(kids), 2
  {
    var more := FlatAll(kids[1..], rest);
    assert Nodes(kids[0]) > 0;
    assert FullAll(kids)[0] == Full(kids[0]) && FullAll(kids)[1..] == FullAll(kids[1..]);
    if Readable(kids[0]) {
      ElisionIsUndone(kids[0], Sub(t, i), last && |kids| == 1, more);
      SubsLost(kids[1..], t, i + 1, last, rest);
      var r := BraceUpSubs(t, i, FlatAll(kids, rest));
      assert r.subs[1..] == BraceUpSubs(t, i + 1, more).subs;
    } else {
      BracesLost(kids[0], Sub(t, i), last && |kids| == 1, more);
    }
  }

  lemma HiddenBraceLost(w: Written, t: Type, last: bool, rest: seq<Init>)
    requires Fits(w, t, last) && HidesBrace(w) && !Lone(w)
    ensures Flat(w, rest) != [] && BraceUp(t, Flat(w, rest)).tree != Full(w)
  {
    LightBrace(w, t, last, rest);
    var items := Flat(w, rest)[0].items;
    if items == [] {
      assert FullAll(w.kids)[0] == Full(w.kids[0]);
    } else {
      NoItemTwiceInSubs(t, 0, items);
      assert ItemWeight(Flat(w, rest)[..1]) == ItemWeight(items);
    }
  }

  /** Leaving out braces is undone, exactly the items of the value are taken and no excess is reported,
      exactly for the readable choices. */
  lemma ElisionIsUndoneIff(w: Written, t: Type, last: bool, rest: seq<Init>)
    requires Fits(w, t, last)
    requires last && StartsBare(w) ==> rest == []
    ensures Flat(w, rest) != []
    ensures BraceUp(t, Flat(w, rest)) == Result(Full(w), rest, false) <==> Readable(w)
    ensures BraceUp(t, Flat(w, rest)).tree == Full(w) <==> Readable(w)
  {
    if Readable(w) { ElisionIsUndone(w, t, last, rest); } else { BracesLost(w, t, last, rest); }
  }

  /** The condition is the language's own: in `{ { 1 }, { 2 } }` for an `int [1][2][1]` the first inner
      brace is taken by the outer `[2]`, so leaving that one's brace out does not give `{{ { 1 }, { 2 } }}`. */
  lemma BraceTakenByOuter()
    ensures var t := Array(Array(Array(Scalar, 1), 2), 1);
            var w := Node(true, [Node(false, [Node(true, [Leaf(1)]), Node(true, [Leaf(2)])])]);
            && Fits(w, t, true) && !Readable(w)
            && BraceUp(t, Flat(w, [])) == Result(Members([Members([Members([Value(1)])])]), [], true)
            && BraceUp(t, Flat(w, [])).tree != Full(w)
  {
    var inner := Array(Array(Scalar, 1), 2);
    var t := Array(inner, 1);
    var kids := [Node(true, [Leaf(1)]), Node(true, [Leaf(2)])];
    var w := Node(true, [Node(false, kids)]);
    var one, two := Brace([Expr(1)]), Brace([Expr(2)]);
    assert FlatAll([Leaf(1)], []) == [Expr(1)] && FlatAll([Leaf(2)], []) == [Expr(2)];
    assert FlatAll(kids[1..], []) == [two];
    assert FlatAll(kids, []) == [one, two];
    assert FlatAll([Node(false, kids)], []) == [one, two];
    assert Flat(w, []) == [Brace([one, two])];
    var s := BraceUpSubs(Array(Scalar, 1), 0, [Expr(1)]);
    assert s == Results([Value(1)], [], false);
    assert BraceUpSubs(inner, 0, [Expr(1)]) == Results([Members([Value(1)])], [], false);
    assert BraceUp(inner, [one, two]) == Result(Members([Members([Value(1)])]), [two], false);
    assert BraceUpSubs(t, 0, [one, two]) == Results([Members([Members([Value(1)])])], [two], false);
    assert FullAll(kids)[1] == Full(kids[1]);
    assert FullAll([Node(false, kids)]) == [Full(Node(false, kids))];
    assert FitAll(kids[1..], inner, 1, true);
  }
}

/** An independent reading of the result: without braces, expressions initialise the scalars of the
    object one after another, and the scalars not reached are zero (section 6.7.9 of ISO C11). */
module InitOrder {
  import opened InitSyntax

  function ScalarCount(t: Type): nat
    decreases t, Count'(t)
  {
    if t.Scalar? then 1 else ScalarsFrom(t, 0)
  }

  function Count'(t: Type): nat {
    if t.Scalar? then 0 else Count(t) + 1
  }

  /** The scalars of the sub-objects from `i` on. */
  function ScalarsFrom(t: Type, i: nat): nat
    requires !t.Scalar? && i <= Count(t)
    decreases t, Count(t) - i
  {
    if i == Count(t) then 0 else ScalarCount(Sub(t, i)) + ScalarsFrom(t, i + 1)
  }

  function Zeros(n: nat): (r: seq<int>)
    ensures |r| == n && forall i :: 0 <= i < n ==> r[i] == 0
  {
    if n == 0 then [] else [0] + Zeros(n - 1)
  }

  /** The values of the scalars of an object of type `t` initialised by `tree`, in address order. */
  function Scalars(t: Type, tree: Tree): seq<int>
    decreases t, Count'(t)
  {
    if t.Scalar? then [if tree.Value? then tree.v else 0]
    else ScalarsOf(t, 0, if tree.Members? then tree.subs else [])
  }

  function ScalarsOf(t: Type, i: nat, subs: seq<Tree>): seq<int>
    requires !t.Scalar? && i <= Count(t)
    decreases t, Count(t) - i
  {
    if i == Count(t) then []
    else if subs == [] then Zeros(ScalarsFrom(t, i))
    else Scalars(Sub(t, i), subs[0]) + ScalarsOf(t, i + 1, subs[1..])
  }

  function Exprs(vs: seq<int>): (r: seq<Init>)
    ensures |r| == |vs| && forall i :: 0 <= i < |vs| ==> r[i] == Expr(vs[i])
  {
    if vs == [] then [] else [Expr(vs[0])] + Exprs(vs[1..])
  }

  /** The values left after an object of `total` scalars has taken its own. */
  function Left(vs: seq<int>, total: nat): seq<int> {
    if |vs| <= total then [] else vs[total..]
  }

  /** What an object of `total` scalars holds: the first values, or all of them and then zeros. */
  function Taken(vs: seq<int>, total: nat): seq<int> {
    if |vs| <= total then vs + Zeros(total - |vs|) else vs[..total]
  }

  lemma {:induction false} PositionalOrder(t: Type, vs: seq<int>) returns (r: Result)
    requires vs != []
    ensures r == BraceUp(t, Exprs(vs))
    ensures r.rest == Exprs(Left(vs, ScalarCount(t))) && !r.excess
    ensures Scalars(t, r.tree) == Taken(vs, ScalarCount(t))
    decreases t, Count'(t)
  {
    r := BraceUp(t, Exprs(vs));
    if t.Scalar? {
      assert |vs| == 1 ==> vs == [vs[0]];
    } else {
      var subs := PositionalOrderOfSubs(t, 0, vs);
    }
  }

  lemma {:induction false} PositionalOrderOfSubs(t: Type, i: nat, vs: seq<int>) returns (r: Results)
    requires !t.Scalar? && i <= Count(t)
    ensures r == BraceUpSubs(t, i, Exprs(vs))
    ensures r.rest == Exprs(Left(vs, ScalarsFrom(t, i))) && !r.excess
    ensures ScalarsOf(t, i, r.subs) == Taken(vs, ScalarsFrom(t, i))
    decreases t, Count(t) - i
  {
    if i == Count(t) || vs == [] {
      NothingLeft(t, i, vs);
      r := Results([], Exprs(vs), false);
    } else {
      var here, there := ScalarCount(Sub(t, i)), ScalarsFrom(t, i + 1);
      var left := Left(vs, here);
      var first := PositionalOrder(Sub(t, i), vs);
      var more := PositionalOrderOfSubs(t, i + 1, left);
      r := SubsShape(t, i, vs, left, Taken(vs, here), Taken(left, there));
      JoinedSubs(t, i, vs, here, there);
    }
  }

  lemma NothingLeft(t: Type, i: nat, vs: seq<int>)
    requires !t.Scalar? && i <= Count(t) && (i == Count(t) || vs == [])
    ensures BraceUpSubs(t, i, Exprs(vs)) == Results([], Exprs(Left(vs, ScalarsFrom(t, i))), false)
    ensures ScalarsOf(t, i, []) == Taken(vs, ScalarsFrom(t, i))
  {
    assert [] + Zeros(ScalarsFrom(t, i)) == Zeros(ScalarsFrom(t, i));
    assert vs[0..] == vs;
  }

  lemma SubsShape(t: Type, i: nat, vs: seq<int>, left: seq<int>, first: seq<int>, more: seq<int>) returns (r: Results)
    requires !t.Scalar? && i < Count(t) && vs != []
    requires var a := BraceUp(Sub(t, i), Exprs(vs));
             a.rest == Exprs(left) && !a.excess && Scalars(Sub(t, i), a.tree) == first
    requires var b := BraceUpSubs(t, i + 1, Exprs(left)); !b.excess && ScalarsOf(t, i + 1, b.subs) == more
    ensures r == BraceUpSubs(t, i, Exprs(vs)) && !r.excess
    ensures r.rest == BraceUpSubs(t, i + 1, Exprs(left)).rest && ScalarsOf(t, i, r.subs) == first + more
  {
    r := BraceUpSubs(t, i, Exprs(vs));
    assert r.subs[1..] == BraceUpSubs(t, i + 1, Exprs(left)).subs;
  }

  lemma JoinedSubs(t: Type, i: nat, vs: seq<int>, here: nat, there: nat)
    requires !t.Scalar? && i < Count(t) && here == ScalarCount(Sub(t, i)) && there == ScalarsFrom(t, i + 1)
    ensures Left(Left(vs, here), there) == Left(vs, ScalarsFrom(t, i))
    ensures Taken(vs, here) + Taken(Left(vs, here), there) == Taken(vs, ScalarsFrom(t, i))
  {
    Joined(vs, here, there);
  }

  /** Splitting a list of values over two adjacent parts of an object. */
  lemma Joined(vs: seq<int>, here: nat, there: nat)
    ensures Left(Left(vs, here), there) == Left(vs, here + there)
    ensures Taken(vs, here) + Taken(Left(vs, here), there) == Taken(vs, here + there)
  {}
}

/** The same with a shared cursor that every level advances in place. */
module InitCode {
  import opened InitSyntax

  /** init_iter: the items not yet taken. */
  class InitIter {
    var pos: seq<Init>

    constructor (pos: seq<Init>)
      ensures this.pos == pos
    {
      this.pos := pos;
    }
  }

  method BraceUpR(iter: InitIter, t: Type) returns (tree: Tree, excess: bool)
    requires t.Scalar? || iter.pos != []
    modifies iter
    ensures BraceUp(t, old(iter.pos)) == Result(tree, iter.pos, excess)
    decreases Size(iter.pos), t, 1
  {
    if t.Scalar? {
      tree, excess := BraceUpScalar(iter);
    } else {
      tree, excess := BraceUpAggregate(iter, t);
    }
  }

  method BraceUpScalar(iter: InitIter) returns (tree: Tree, excess: bool)
    modifies iter
    ensures BraceUp(Scalar, old(iter.pos)) == Result(tree, iter.pos, excess)
    decreases Size(iter.pos), Scalar, 0
  {
    if iter.pos == [] { return Value(0), false; }
    var first := iter.pos[0];
    iter.pos := iter.pos[1..];
    match first
    case Expr(v) =>
      tree, excess := Value(v), false;
    case Brace(sub) =>
      var it := new InitIter(sub);
      tree, excess := BraceUpR(it, Scalar);
      excess := excess || |sub| > 1;
  }

  method BraceUpAggregate(iter: InitIter, t: Type) returns (tree: Tree, excess: bool)
    requires !t.Scalar? && iter.pos != []
    modifies iter
    ensures BraceUp(t, old(iter.pos)) == Result(tree, iter.pos, excess)
    decreases Size(iter.pos), t, 0
  {
    if iter.pos[0].Brace? {
      var sub := iter.pos[0].items;
      if sub == [] {
        tree, excess := Members([Missing]), false;
      } else {
        var it := new InitIter(sub);
        var inits;
        inits, excess := BraceUpSubObjects(it, t);
        tree, excess := Members(inits), excess || it.pos != [];
      }
      iter.pos := iter.pos[1..];
    } else {
      var inits;
      inits, excess := BraceUpSubObjects(iter, t);
      tree := Members(inits);
    }
  }

  /** The loops of decl_init_brace_up_array2 and decl_init_brace_up_sue2 for undesignated items. */
  method BraceUpSubObjects(iter: InitIter, t: Type) returns (current: seq<Tree>, excess: bool)
    requires !t.Scalar?
    modifies iter
    ensures BraceUpSubs(t, 0, old(iter.pos)) == Results(current, iter.pos, excess)
    decreases Size(iter.pos), t, -1
  {
    current, excess := [], false;
    var i := 0;
    while iter.pos != [] && i < Count(t)
      decreases Count(t) - i
      invariant i <= Count(t)
      invariant Size(iter.pos) <= Size(old(iter.pos))
      invariant BraceUpSubs(t, 0, old(iter.pos)) == After(current, excess, BraceUpSubs(t, i, iter.pos))
    {
      ghost var here := iter.pos;
      var braced, more := BraceUpR(iter, Sub(t, i));
      Took(current, excess, t, i, here);
      current := current + [braced];
      excess := excess || more;
      i := i + 1;
    }
  }

  /** What is already braced up, put before what the rest of the loop will give. */
  ghost function After(current: seq<Tree>, excess: bool, r: Results): Results {
    Results(current + r.subs, r.rest, excess || r.excess)
  }

  lemma Took(current: seq<Tree>, excess: bool, t: Type, i: nat, items: seq<Init>)
    requires !t.Scalar? && i < Count(t) && items != []
    ensures var one := BraceUp(Sub(t, i), items);
            After(current, excess, BraceUpSubs(t, i, items)) ==
            After(current + [one.tree], excess || one.excess, BraceUpSubs(t, i + 1, one.rest))
  {
    var one := BraceUp(Sub(t, i), items);
    var more := BraceUpSubs(t, i + 1, one.rest);
    assert current + ([one.tree] + more.subs) == current + [one.tree] + more.subs;
  }
}
