/**
  The hash-consed graph of types (src/cc1/type_nav.c).  Typedefs, attributes, variable-length arrays and
  `__auto_type` are not part of it; the parameters of a function type are an opaque number.
*/
module TypeStructure {
  import opened Common

  datatype Qual = Const | Volatile | Restrict

  datatype Tag = BtypeTag | PtrTag | BlockTag | ArrayTag | FuncTag | CastTag | WhereTag

  /** The outermost layer of a type.  A pointer made by array decay remembers the array's length. */
  datatype Shape =
    | Btype(prim: nat)
    | Ptr(decayed: Option<(Option<nat>, bool)>)
    | Block
    | Array(size: Option<nat>, isStatic: bool)
    | Func(sig: nat)
    | Cast(quals: set<Qual>)

  /** What a node of the graph unfolds to. */
  datatype Type = Leaf(top: Shape) | Over(top: Shape, ref: Type)

  /** type_qual: the qualifiers above the first concrete layer. */
  function QualsOf(t: Type): set<Qual> {
    if t.Over? && t.top.Cast? then t.top.quals + QualsOf(t.ref) else {}
  }

  /** type_skip_all */
  function Skip(t: Type): Type {
    if t.Over? && t.top.Cast? then Skip(t.ref) else t
  }

  /** No qualifier layer is empty or repeats a qualifier found below it. */
  predicate NoRepeats(t: Type) {
    t.Over? ==> NoRepeats(t.ref) && (t.top.Cast? ==> t.top.quals != {} && t.top.quals !! QualsOf(t.ref))
  }

  /** What type_qualify makes of a type: nothing if it adds nothing, else the new qualifiers on top, or on
      the elements of an array (section 6.7.3 of ISO C11). */
  function Qualified(t: Type, q: set<Qual>): Type
    decreases t
  {
    if q <= QualsOf(t) then t
    else
      var s := Skip(t);
      SkipShrinks(t);
      if s.Over? && s.top.Array? then Over(Array(s.top.size, false), Qualified(s.ref, q - QualsOf(t)))
      else Over(Cast(q - QualsOf(t)), t)
  }

  /** What type_qualify_transform_array makes of it when it is not to move qualifiers to the elements. */
  function Layered(t: Type, q: set<Qual>): Type {
    if q <= QualsOf(t) then t else Over(Cast(q - QualsOf(t)), t)
  }

  /** Then exactly the requested qualifiers are added to arrays too, and once is enough. */
  lemma LayeredAddsExactly(t: Type, q: set<Qual>)
    requires NoRepeats(t)
    ensures NoRepeats(Layered(t, q)) && QualsOf(Layered(t, q)) == QualsOf(t) + q && Skip(Layered(t, q)) == Skip(t)
    ensures Layered(Layered(t, q), q) == Layered(t, q)
  {
    if !(q <= QualsOf(t)) {
      var x :| x in q && x !in QualsOf(t);
      assert x in q - QualsOf(t);
    }
  }

  lemma SkipShrinks(t: Type)
    ensures Skip(t) == t || Skip(t) < t
    ensures Skip(t).Over? ==> Skip(t).ref < t
  {}

  predicate IsArray(t: Type) {
    Skip(t).Over? && Skip(t).top.Array?
  }

  /** The element type of an array, below the array's own qualifiers. */
  function Elem(t: Type): (r: Type)
    requires IsArray(t)
    ensures r < t
  {
    SkipShrinks(t);
    Skip(t).ref
  }

  lemma {:induction false} SkipKeepsNoRepeats(t: Type)
    requires NoRepeats(t)
    ensures NoRepeats(Skip(t))
  {
    if t.Over? && t.top.Cast? { SkipKeepsNoRepeats(t.ref); }
  }

  /** Qualifying adds exactly the requested qualifiers to a type that is not an array, and never leaves a
      qualifier layer that repeats one below it. */
  lemma {:induction false} QualifiedAddsExactly(t: Type, q: set<Qual>)
    requires NoRepeats(t)
    ensures NoRepeats(Qualified(t, q))
    ensures !IsArray(t) ==> QualsOf(Qualified(t, q)) == QualsOf(t) + q && Skip(Qualified(t, q)) == Skip(t)
    decreases t
  {
    if !(q <= QualsOf(t)) {
      var x :| x in q && x !in QualsOf(t);
      assert x in q - QualsOf(t);
      if IsArray(t) {
        SkipKeepsNoRepeats(t);
        QualifiedAddsExactly(Elem(t), q - QualsOf(t));
      }
    }
  }

  /** The type already has the qualifiers, on itself or, for a plain array, on its elements. */
  predicate Holds(t: Type, q: set<Qual>)
    decreases t
  {
    || q <= QualsOf(t)
    || (t.Over? && t.top.Array? && !t.top.isStatic && Holds(t.ref, q))
  }

  lemma {:induction false} HoldsIsFixpoint(t: Type, q: set<Qual>)
    ensures Qualified(t, q) == t <==> Holds(t, q)
    decreases t
  {
    if !(q <= QualsOf(t)) && IsArray(t) && !t.top.Cast? {
      HoldsIsFixpoint(t.ref, q);
      assert q - QualsOf(t) == q;
    }
  }

  /** The type holds all of `q` once it has been given `d`. */
  predicate HoldsAfter(t: Type, d: set<Qual>, q: set<Qual>)
    decreases t
  {
    if d <= QualsOf(t) then Holds(t, q)
    else if IsArray(t) then HoldsAfter(Elem(t), d - QualsOf(t), q)
    else q <= QualsOf(t) + d
  }

  lemma {:induction false} HoldsAfterQualified(t: Type, d: set<Qual>, q: set<Qual>)
    requires NoRepeats(t) && d <= q
    ensures Holds(Qualified(t, d), q) <==> HoldsAfter(t, d, q)
    decreases t
  {
    if !(d <= QualsOf(t)) {
      if IsArray(t) {
        SkipKeepsNoRepeats(t);
        HoldsAfterQualified(Elem(t), d - QualsOf(t), q);
      } else {
        QualifiedAddsExactly(t, d);
      }
    }
  }

  /** Where qualifiers come to rest: below the arrays that lack some of them. */
  function Landing(t: Type, q: set<Qual>): Type
    decreases t
  {
    if q <= QualsOf(t) || !IsArray(t) then t else Landing(Elem(t), q - QualsOf(t))
  }

  /** The qualifiers that those arrays have themselves. */
  function Passed(t: Type, q: set<Qual>): set<Qual>
    decreases t
  {
    if q <= QualsOf(t) || !IsArray(t) then {} else QualsOf(t) + Passed(Elem(t), q - QualsOf(t))
  }

  /** No array has a qualifier of its own, among those asked for, that what lies below it lacks. */
  predicate KeepsOwn(t: Type, q: set<Qual>) {
    q * Passed(t, q) <= QualsOf(Landing(t, q))
  }

  lemma {:induction false} HoldsAfterIff(t: Type, d: set<Qual>, passed: set<Qual>, q: set<Qual>)
    requires d == q - passed && (d != {} || passed == {})
    ensures HoldsAfter(t, d, q) <==> q * (passed + Passed(t, d)) <= QualsOf(Landing(t, d))
    decreases t
  {
    if !(d <= QualsOf(t)) && IsArray(t) {
      var x :| x in d && x !in QualsOf(t);
      assert x in d - QualsOf(t);
      HoldsAfterIff(Elem(t), d - QualsOf(t), passed + QualsOf(t), q);
      assert passed + QualsOf(t) + Passed(Elem(t), d - QualsOf(t)) == passed + Passed(t, d);
    } else {
      StopsHere(d, passed, q, QualsOf(t));
    }
  }

  lemma StopsHere(d: set<Qual>, passed: set<Qual>, q: set<Qual>, own: set<Qual>)
    requires d == q - passed
    ensures q * (passed + {}) <= own <==> q <= own + d
    ensures d <= own ==> (q <= own + d <==> q <= own)
  {
    if q <= own + d {
      forall x | x in q * (passed + {}) ensures x in own { assert x in q && x !in d; }
    }
    if q * (passed + {}) <= own {
      forall x | x in q ensures x in own + d {
        if x in passed { assert x in q * (passed + {}); } else { assert x in d; }
      }
    }
  }

  /** Qualifying twice is qualifying once, exactly when no array has a qualifier of its own, among those asked for,
      that what lies below it lacks: qualifying an array moves to the elements only what the array lacks, and
      drops the array's own qualifiers. */
  lemma QualifiedIsIdempotent(t: Type, q: set<Qual>)
    requires NoRepeats(t)
    ensures Qualified(Qualified(t, q), q) == Qualified(t, q) <==> KeepsOwn(t, q)
  {
    HoldsIsFixpoint(Qualified(t, q), q);
    HoldsAfterQualified(t, q, q);
    HoldsAfterIff(t, q, {}, q);
    assert {} + Passed(t, q) == Passed(t, q) && q - {} == q;
  }

  /** Qualifiers are never on an array itself. */
  predicate PlainArrays(t: Type)
  {
    t.Over? ==> PlainArrays(t.ref) && (t.top.Cast? ==> !IsArray(t))
  }

  /** In particular it holds through arrays of any depth that have no qualifiers of their own. */
  lemma PlainArraysAreIdempotent(t: Type, q: set<Qual>)
    requires NoRepeats(t) && PlainArrays(t)
    ensures Qualified(Qualified(t, q), q) == Qualified(t, q)
  {
    PlainPassed(t, q);
    QualifiedIsIdempotent(t, q);
  }

  lemma {:induction false} PlainPassed(t: Type, q: set<Qual>)
    requires PlainArrays(t)
    ensures Passed(t, q) == {}
    decreases t
  {
    if !(q <= QualsOf(t)) && IsArray(t) {
      assert !t.top.Cast?;
      PlainPassed(Elem(t), q - QualsOf(t));
    }
  }

  /** The type of the elements of an array of any number of dimensions, and those dimensions. */
  function Innermost(t: Type): Type
    decreases t
  {
    if IsArray(t) then Innermost(Elem(t)) else t
  }

  function Dimensions(t: Type): seq<(Option<nat>, bool)>
    decreases t
  {
    if IsArray(t) then [(Skip(t).top.size, Skip(t).top.isStatic)] + Dimensions(Elem(t)) else []
  }

  /** How many dimensions lack some of the qualifiers, one below the other. */
  function Crossed(t: Type, q: set<Qual>): nat
    decreases t
  {
    if q <= QualsOf(t) || !IsArray(t) then 0 else 1 + Crossed(Elem(t), q - QualsOf(t))
  }

  /** Qualifying an array keeps the length of every dimension, and loses `static` in those crossed. The elements get
      the qualifiers that no array on the way has, unless an array on the way has all that were left. */
  lemma {:induction false} ArrayQualified(t: Type, q: set<Qual>)
    requires NoRepeats(t)
    ensures var r := Qualified(t, q);
            && |Dimensions(r)| == |Dimensions(t)| && Skip(Innermost(r)) == Skip(Innermost(t))
            && (forall k :: 0 <= k < |Dimensions(t)| ==>
                  Dimensions(r)[k] == (Dimensions(t)[k].0, Dimensions(t)[k].1 && k >= Crossed(t, q)))
            && QualsOf(Innermost(r)) ==
               QualsOf(Innermost(t)) + if IsArray(Landing(t, q)) then {} else q - Passed(t, q)
    decreases t
  {
    var own := QualsOf(t);
    if q <= own {
      if !IsArray(t) { assert own + (q - {}) == own; }
    } else if IsArray(t) {
      SkipKeepsNoRepeats(t);
      ArrayQualified(Elem(t), q - own);
      var r := Qualified(t, q);
      assert IsArray(r) && Elem(r) == Qualified(Elem(t), q - own);
      assert Dimensions(r) == [(Skip(t).top.size, false)] + Dimensions(Elem(r));
      assert q - own - Passed(Elem(t), q - own) == q - Passed(t, q);
    } else {
      QualifiedAddsExactly(t, q);
      assert q - {} == q;
    }
  }

  /** A `volatile` array qualified `const volatile` loses its own `volatile`, so doing it again adds it back. */
  lemma VolatileArrayLoses(prim: nat, size: Option<nat>)
    ensures var t := Over(Cast({Volatile}), Over(Array(size, false), Leaf(Btype(prim))));
            && Qualified(t, {Const, Volatile}) == Over(Array(size, false), Over(Cast({Const}), Leaf(Btype(prim))))
            && NoRepeats(t) && !KeepsOwn(t, {Const, Volatile})
  {
    var elem := Leaf(Btype(prim));
    var t := Over(Cast({Volatile}), Over(Array(size, false), elem));
    assert Volatile in QualsOf(t) && Const !in QualsOf(t);
    assert {Const, Volatile} - QualsOf(t) == {Const};
    assert Const !in QualsOf(elem);
    assert {Const} - QualsOf(elem) == {Const};
    assert Qualified(elem, {Const}) == Over(Cast({Const}), elem);
    assert Skip(t) == Over(Array(size, false), elem) && !({Const, Volatile} <= QualsOf(t));
    assert Elem(t) == elem && Landing(t, {Const, Volatile}) == elem;
    assert Volatile in {Const, Volatile} * Passed(t, {Const, Volatile}) && Volatile !in QualsOf(elem);
  }

  lemma QualifiedArrayIsNotIdempotent(prim: nat, size: Option<nat>)
    ensures var t := Over(Cast({Volatile}), Over(Array(size, false), Leaf(Btype(prim))));
            Qualified(Qualified(t, {Const, Volatile}), {Const, Volatile}) != Qualified(t, {Const, Volatile})
  {
    VolatileArrayLoses(prim, size);
    QualifiedIsIdempotent(Over(Cast({Volatile}), Over(Array(size, false), Leaf(Btype(prim)))), {Const, Volatile});
  }
}

/** The graph itself: nodes, the list of users that each node keeps for each kind, and the constructors. */
module TypeGraph {
  import opened Common
  import opened TypeStructure

  /** The bits of a node; a decayed pointer holds the node of the array it decayed from. */
  datatype Bits =
    | BBtype(prim: nat)
    | BPtr(decayedFrom: Option<nat>)
    | BBlock
    | BArray(size: Option<nat>, isStatic: bool)
    | BFunc(sig: nat)
    | BCast(quals: set<Qual>)
    | BWhere(loc: nat)

  /** `ref` is the number of the node below; base types have none and keep 0. */
  datatype Node = Node(bits: Bits, ref: nat)

  function TagOf(b: Bits): Tag {
    match b
    case BBtype(_) => BtypeTag
    case BPtr(_) => PtrTag
    case BBlock => BlockTag
    case BArray(_, _) => ArrayTag
    case BFunc(_) => FuncTag
    case BCast(_) => CastTag
    case BWhere(_) => WhereTag
  }

  type Nodes = seq<Node>

  predicate IsWhere(nodes: Nodes, n: nat)
    requires n < |nodes|
  {
    nodes[n].bits.BWhere?
  }

  /** Nodes refer to earlier nodes, and only to nodes that are not source-location wrappers. */
  predicate NodeOk(nodes: Nodes, n: nat)
    requires n < |nodes|
  {
    var Node(bits, ref) := nodes[n];
    && (if bits.BBtype? then ref == 0 else ref < n && !IsWhere(nodes, ref))
    && (bits.BPtr? && bits.decayedFrom.Some? ==>
          bits.decayedFrom.value < n && nodes[bits.decayedFrom.value].bits.BArray?)
  }

  predicate AllOk(nodes: Nodes) {
    forall n :: 0 <= n < |nodes| ==> NodeOk(nodes, n)
  }

  /** A decayed pointer refers to an array's node. */
  predicate DecayOk(nodes: Nodes, bits: Bits) {
    bits.BPtr? && bits.decayedFrom.Some? ==>
      bits.decayedFrom.value < |nodes| && nodes[bits.decayedFrom.value].bits.BArray?
  }

  /** The shape a node adds to what is below it. */
  function ShapeOf(nodes: Nodes, bits: Bits): Shape
    requires !bits.BWhere?
    requires DecayOk(nodes, bits)
  {
    match bits
    case BBtype(p) => Btype(p)
    case BPtr(d) =>
      if d.None? then Ptr(None) else Ptr(Some((nodes[d.value].bits.size, nodes[d.value].bits.isStatic)))
    case BBlock => Block
    case BArray(n, s) => Array(n, s)
    case BFunc(sig) => Func(sig)
    case BCast(q) => Cast(q)
  }

  /** What a node unfolds to. */
  function Unfold(nodes: Nodes, n: nat): Type
    requires n < |nodes| && AllOk(nodes)
    decreases n
  {
    assert NodeOk(nodes, n);
    var Node(bits, ref) := nodes[n];
    if bits.BBtype? then Leaf(Btype(bits.prim))
    else if bits.BWhere? then Unfold(nodes, ref)
    else Over(ShapeOf(nodes, bits), Unfold(nodes, ref))
  }

  /** Two nodes that are not wrappers, sit on the same node and add the same shape are the same node. */
  ghost predicate Unique(nodes: Nodes)
    requires AllOk(nodes)
  {
    forall i, j :: 0 <= i < j < |nodes| && !IsWhere(nodes, i) && !IsWhere(nodes, j) ==> Differ(nodes, i, j)
  }

  ghost predicate Differ(nodes: Nodes, i: nat, j: nat)
    requires AllOk(nodes) && i < |nodes| && j < |nodes| && !IsWhere(nodes, i) && !IsWhere(nodes, j)
  {
    assert NodeOk(nodes, i) && NodeOk(nodes, j);
    nodes[i].ref != nodes[j].ref || ShapeOf(nodes, nodes[i].bits) != ShapeOf(nodes, nodes[j].bits)
  }

  /** In a graph with unique nodes, structural equality is node equality. */
  lemma {:induction false} DistinctNodesUnfoldApart(nodes: Nodes, i: nat, j: nat)
    requires AllOk(nodes) && Unique(nodes)
    requires i < |nodes| && j < |nodes| && !IsWhere(nodes, i) && !IsWhere(nodes, j)
    requires i != j
    ensures Unfold(nodes, i) != Unfold(nodes, j)
    decreases i + j
  {
    assert NodeOk(nodes, i) && NodeOk(nodes, j);
    assert Differ(nodes, if i < j then i else j, if i < j then j else i);
    if !nodes[i].bits.BBtype? && !nodes[j].bits.BBtype? && nodes[i].ref != nodes[j].ref {
      DistinctNodesUnfoldApart(nodes, nodes[i].ref, nodes[j].ref);
    }
  }

  /** Adding nodes does not change what the older ones unfold to. */
  lemma {:induction false} OlderNodesKeep(nodes: Nodes, more: Nodes, n: nat)
    requires AllOk(nodes) && AllOk(more) && nodes <= more && n < |nodes|
    ensures Unfold(more, n) == Unfold(nodes, n)
    decreases n
  {
    assert NodeOk(nodes, n) && NodeOk(more, n);
    assert more[n] == nodes[n];
    if !nodes[n].bits.BBtype? {
      OlderNodesKeep(nodes, more, nodes[n].ref);
      if nodes[n].bits.BPtr? && nodes[n].bits.decayedFrom.Some? {
        assert more[nodes[n].bits.decayedFrom.value] == nodes[nodes[n].bits.decayedFrom.value];
      }
    }
  }

  /** A new node at the end is in order if it is unlike every older one, or a wrapper. */
  lemma NodeAdded(nodes: Nodes, x: Node)
    requires AllOk(nodes) && Unique(nodes)
    requires NodeOk(nodes + [x], |nodes|)
    requires !x.bits.BWhere? ==> forall i :: 0 <= i < |nodes| && !IsWhere(nodes, i) ==> Unlike(nodes, i, x)
    ensures var more := nodes + [x];
            AllOk(more) && Unique(more) && forall n :: 0 <= n < |nodes| ==> Unfold(more, n) == Unfold(nodes, n)
  {
    var more := nodes + [x];
    forall n | 0 <= n < |more| ensures NodeOk(more, n) {
      if n < |nodes| { assert NodeOk(nodes, n); }
    }
    forall n | 0 <= n < |nodes| ensures Unfold(more, n) == Unfold(nodes, n) {
      OlderNodesKeep(nodes, more, n);
    }
    forall i, j | 0 <= i < j < |more| && !IsWhere(more, i) && !IsWhere(more, j) ensures Differ(more, i, j) {
      assert NodeOk(nodes, i) && NodeOk(more, j);
      if j < |nodes| {
        assert NodeOk(nodes, j) && Differ(nodes, i, j);
      } else {
        assert Unlike(nodes, i, x);
      }
    }
  }

  /** The node `i` does not sit on the same node as `x` and add the same shape. */
  ghost predicate Unlike(nodes: Nodes, i: nat, x: Node)
    requires AllOk(nodes) && i < |nodes| && !IsWhere(nodes, i) && !x.bits.BWhere?
    requires NodeOk(nodes + [x], |nodes|)
  {
    assert NodeOk(nodes, i);
    nodes[i].ref != x.ref || ShapeOf(nodes, nodes[i].bits) != ShapeOf(nodes, x.bits)
  }

  /** The eq_ functions of the source: whether a candidate node is the one that is looked for. */
  predicate Eq(nodes: Nodes, candidate: Bits, want: Bits)
    requires TagOf(candidate) == TagOf(want)
              && (want.BPtr? || want.BBlock? || want.BArray? || want.BFunc? || want.BCast?)
    requires DecayOk(nodes, candidate) && DecayOk(nodes, want)
  {
    match want
    case BPtr(None) => candidate.decayedFrom.None?
    case BPtr(Some(a)) =>
      candidate.decayedFrom.Some? && EqArray(nodes[candidate.decayedFrom.value].bits, nodes[a].bits)
    case BBlock => true
    case BArray(_, _) => EqArray(candidate, want)
    case BFunc(sig) => candidate.sig == sig
    case BCast(q) => candidate.quals == q
  }

  /** A candidate is the one looked for exactly if it adds the same shape. */
  lemma EqIsSameShape(nodes: Nodes, candidate: Bits, want: Bits)
    requires TagOf(candidate) == TagOf(want)
              && (want.BPtr? || want.BBlock? || want.BArray? || want.BFunc? || want.BCast?)
    requires DecayOk(nodes, candidate) && DecayOk(nodes, want)
    ensures Eq(nodes, candidate, want) <==> ShapeOf(nodes, candidate) == ShapeOf(nodes, want)
  {}

  /** The node that has been found unfolds to what was asked for. */
  lemma FoundUnfolds(nodes: Nodes, on: nat, to: nat, found: nat, bits: Bits)
    requires AllOk(nodes) && on < |nodes| && to < |nodes| && found < |nodes| && Unfold(nodes, to) == Unfold(nodes, on)
    requires nodes[found].ref == to && !IsWhere(nodes, found) && !nodes[found].bits.BBtype?
    requires !bits.BWhere? && DecayOk(nodes, bits) && DecayOk(nodes, nodes[found].bits)
    requires ShapeOf(nodes, nodes[found].bits) == ShapeOf(nodes, bits)
    ensures Unfold(nodes, found) == Over(ShapeOf(nodes, bits), Unfold(nodes, on))
  {
    assert NodeOk(nodes, found);
  }

  /** The node `n` does not add the shape of `bits`. */
  predicate OtherShape(nodes: Nodes, n: nat, bits: Bits)
    requires !bits.BWhere? && DecayOk(nodes, bits)
  {
    && n < |nodes| && !IsWhere(nodes, n) && DecayOk(nodes, nodes[n].bits)
    && ShapeOf(nodes, nodes[n].bits) != ShapeOf(nodes, bits)
  }

  predicate EqArray(candidate: Bits, want: Bits)
    requires candidate.BArray? && want.BArray?
  {
    candidate.isStatic == want.isStatic && candidate.size == want.size
  }

  /** type_qual, on nodes */
  function TypeQual(nodes: Nodes, n: nat): (r: set<Qual>)
    requires n < |nodes| && AllOk(nodes)
    ensures r == QualsOf(Unfold(nodes, n))
    decreases n
  {
    assert NodeOk(nodes, n);
    match nodes[n].bits
    case BWhere(_) => TypeQual(nodes, nodes[n].ref)
    case BCast(q) => q + TypeQual(nodes, nodes[n].ref)
    case _ => {}
  }

  class TypeNav {
    var nodes: Nodes
    /** For each node and kind, the nodes of that kind that sit on it: the source's uptree. */
    var ups: map<(nat, Tag), seq<nat>>
    /** The nodes of the base types made so far. */
    var btypes: map<nat, nat>

    constructor ()
      ensures Valid() && nodes == []
    {
      nodes, ups, btypes := [], map[], map[];
    }

    ghost predicate Listed(n: nat)
      requires n < |nodes|
      reads this
    {
      match nodes[n].bits
      case BBtype(p) => p in btypes && btypes[p] == n
      case BWhere(_) => true
      case _ => (nodes[n].ref, TagOf(nodes[n].bits)) in ups && n in ups[(nodes[n].ref, TagOf(nodes[n].bits))]
    }

    /** The entry `e` of a user list is a node of the kind of the list on the node of the list. */
    ghost predicate Entry(to: nat, tag: Tag, e: nat)
      reads this
    {
      e < |nodes| && nodes[e].ref == to && TagOf(nodes[e].bits) == tag
    }

    ghost predicate Valid()
      reads this
    {
      && AllOk(nodes) && Unique(nodes)
      && (forall n :: 0 <= n < |nodes| ==> Listed(n))
      && (forall to, tag, e :: (to, tag) in ups && e in ups[(to, tag)] ==> Entry(to, tag, e))
      && (forall p :: p in btypes ==> btypes[p] < |nodes| && nodes[btypes[p]].bits == BBtype(p))
      && (forall key :: key in ups ==> key.1 != BtypeTag && key.1 != WhereTag)
      && (forall n :: 0 <= n < |nodes| ==> NoRepeats(Unfold(nodes, n)))
    }

    /** The graph has only grown: older nodes are as they were. */
    twostate predicate Grew()
      reads this
    {
      old(nodes) <= nodes
    }

    /** type_nav_btype */
    method BtypeNode(p: nat) returns (r: nat)
      requires Valid()
      modifies this
      ensures Valid() && Grew() && r < |nodes| && !IsWhere(nodes, r)
      ensures Unfold(nodes, r) == Leaf(Btype(p))
    {
      if p !in btypes {
        var x := Node(BBtype(p), 0);
        forall i | 0 <= i < |nodes| && !IsWhere(nodes, i) ensures Unlike(nodes, i, x) {
          assert NodeOk(nodes, i) && Listed(i);
        }
        NodeAdded(nodes, x);
        nodes := nodes + [x];
        btypes := btypes[p := |nodes| - 1];
        Relisted(|nodes| - 1);
      }
      r := btypes[p];
      assert NodeOk(nodes, r);
    }

    /** After a node has been added at `k` and listed, the older nodes are still listed. */
    twostate lemma Relisted(k: nat)
      requires old(Valid()) && k == |old(nodes)| && |nodes| == k + 1 && nodes[..k] == old(nodes)
      requires forall p :: p in old(btypes) ==> p in btypes && btypes[p] == old(btypes)[p]
      requires forall key :: key in old(ups) ==> key in ups && forall e :: e in old(ups)[key] ==> e in ups[key]
      requires Listed(k)
      ensures forall n :: 0 <= n < |nodes| ==> Listed(n)
    {
      forall n | 0 <= n < |nodes| ensures Listed(n) {
        if n < k {
          assert old(Listed(n)) && nodes[n] == old(nodes)[n];
        }
      }
    }

    /** type_skip_wheres */
    method SkipWheres(t: nat) returns (r: nat)
      requires Valid() && t < |nodes|
      ensures r <= t && !IsWhere(nodes, r) && Unfold(nodes, r) == Unfold(nodes, t)
    {
      r := t;
      while nodes[r].bits.BWhere?
        invariant r <= t && Unfold(nodes, r) == Unfold(nodes, t)
        decreases r
      {
        assert NodeOk(nodes, r);
        r := nodes[r].ref;
      }
    }

    /** type_uptree_find_or_new */
    method FindOrNew(on: nat, bits: Bits) returns (r: nat)
      requires Valid() && on < |nodes|
      requires bits.BPtr? || bits.BBlock? || bits.BArray? || bits.BFunc? || bits.BCast?
      requires DecayOk(nodes, bits)
      requires bits.BCast? ==> bits.quals != {} && bits.quals !! QualsOf(Unfold(nodes, on))
      modifies this
      ensures Valid() && Grew() && r < |nodes| && !IsWhere(nodes, r)
      ensures Unfold(nodes, r) == Over(ShapeOf(old(nodes), bits), Unfold(old(nodes), on))
    {
      var to := SkipWheres(on);
      var key := (to, TagOf(bits));
      var list := if key in ups then ups[key] else [];
      var i := Search(to, bits, list);
      if i < |list| {
        FoundUnfolds(nodes, on, to, list[i], bits);
        r := list[i];
      } else {
        r := NewNode(to, bits, list);
      }
    }

    /** The first candidate that adds the shape looked for, or the end of the list. */
    method Search(to: nat, bits: Bits, list: seq<nat>) returns (i: nat)
      requires Valid() && DecayOk(nodes, bits)
      requires bits.BPtr? || bits.BBlock? || bits.BArray? || bits.BFunc? || bits.BCast?
      requires var key := (to, TagOf(bits)); list == if key in ups then ups[key] else []
      ensures i <= |list| && forall j :: 0 <= j < i ==> OtherShape(nodes, list[j], bits)
      ensures i < |list| ==>
                && list[i] < |nodes| && nodes[list[i]].ref == to && TagOf(nodes[list[i]].bits) == TagOf(bits)
                && DecayOk(nodes, nodes[list[i]].bits)
                && ShapeOf(nodes, nodes[list[i]].bits) == ShapeOf(nodes, bits)
    {
      i := 0;
      while i < |list|
        invariant i <= |list|
        invariant forall j :: 0 <= j < i ==> OtherShape(nodes, list[j], bits)
      {
        var candidate := list[i];
        assert Entry(to, TagOf(bits), candidate) && NodeOk(nodes, candidate);
        EqIsSameShape(nodes, nodes[candidate].bits, bits);
        if Eq(nodes, nodes[candidate].bits, bits) { return; }
        i := i + 1;
      }
    }

    /** The second half of type_uptree_find_or_new: no candidate was the right one. */
    method NewNode(to: nat, bits: Bits, list: seq<nat>) returns (r: nat)
      requires Valid() && to < |nodes| && !IsWhere(nodes, to)
      requires bits.BPtr? || bits.BBlock? || bits.BArray? || bits.BFunc? || bits.BCast?
      requires DecayOk(nodes, bits)
      requires bits.BCast? ==> bits.quals != {} && bits.quals !! QualsOf(Unfold(nodes, to))
      requires var key := (to, TagOf(bits)); list == if key in ups then ups[key] else []
      requires forall j :: 0 <= j < |list| ==> OtherShape(nodes, list[j], bits)
      modifies this
      ensures Valid() && Grew() && r < |nodes| && !IsWhere(nodes, r)
      ensures Unfold(nodes, r) == Over(ShapeOf(old(nodes), bits), Unfold(old(nodes), to))
    {
      var x := Node(bits, to);
      assert NodeOk(nodes + [x], |nodes|);
      forall i | 0 <= i < |nodes| && !IsWhere(nodes, i) ensures Unlike(nodes, i, x) {
        assert NodeOk(nodes, i) && Listed(i);
        if nodes[i].ref == to && TagOf(nodes[i].bits) == TagOf(bits) {
          assert i in list;
        }
      }
      NodeAdded(nodes, x);
      r := |nodes|;
      var key := (to, TagOf(bits));
      nodes := nodes + [x];
      ups := ups[key := list + [r]];
      assert NodeOk(nodes, r);
      Relisted(r);
      forall t, tag, e | (t, tag) in ups && e in ups[(t, tag)] ensures Entry(t, tag, e) {
        if e != r || (t, tag) != key {
          assert (t, tag) in old(ups) && e in old(ups)[(t, tag)];
          assert old(Entry(t, tag, e));
        }
      }
    }

    /** type_ptr_to */
    method PtrTo(to: nat) returns (r: nat)
      requires Valid() && to < |nodes|
      modifies this
      ensures Valid() && Grew() && r < |nodes| && !IsWhere(nodes, r)
      ensures Unfold(nodes, r) == Over(Ptr(None), Unfold(old(nodes), to))
    {
      r := FindOrNew(to, BPtr(None));
    }

    /** type_block_of */
    method BlockOf(fn: nat) returns (r: nat)
      requires Valid() && fn < |nodes|
      modifies this
      ensures Valid() && Grew() && r < |nodes| && !IsWhere(nodes, r)
      ensures Unfold(nodes, r) == Over(Block, Unfold(old(nodes), fn))
    {
      r := FindOrNew(fn, BBlock);
    }

    /** type_array_of_static */
    method ArrayOf(of: nat, size: Option<nat>, isStatic: bool) returns (r: nat)
      requires Valid() && of < |nodes|
      modifies this
      ensures Valid() && Grew() && r < |nodes| && !IsWhere(nodes, r)
      ensures Unfold(nodes, r) == Over(Array(size, isStatic), Unfold(old(nodes), of))
    {
      r := FindOrNew(of, BArray(size, isStatic));
    }

    /** type_func_of */
    method FuncOf(ret: nat, sig: nat) returns (r: nat)
      requires Valid() && ret < |nodes|
      modifies this
      ensures Valid() && Grew() && r < |nodes| && !IsWhere(nodes, r)
      ensures Unfold(nodes, r) == Over(Func(sig), Unfold(old(nodes), ret))
    {
      r := FindOrNew(ret, BFunc(sig));
    }

    /** type_decayed_ptr_to */
    method DecayedPtrTo(to: nat, array_: nat) returns (r: nat)
      requires Valid() && to < |nodes| && array_ < |nodes| && nodes[array_].bits.BArray?
      modifies this
      ensures Valid() && Grew() && r < |nodes| && !IsWhere(nodes, r)
      ensures Unfold(nodes, r) ==
              Over(Ptr(Some((old(nodes)[array_].bits.size, old(nodes)[array_].bits.isStatic))), Unfold(old(nodes), to))
    {
      r := FindOrNew(to, BPtr(Some(array_)));
    }

    /** type_at_where: a wrapper is not shared, and changes nothing in what is unfolded. */
    method AtWhere(t: nat, loc: nat) returns (r: nat)
      requires Valid() && t < |nodes|
      modifies this
      ensures Valid() && Grew() && r < |nodes|
      ensures Unfold(nodes, r) == Unfold(old(nodes), t)
    {
      if nodes[t].bits == BWhere(loc) { return t; }
      var to := SkipWheres(t);
      var x := Node(BWhere(loc), to);
      assert NodeOk(nodes + [x], |nodes|);
      NodeAdded(nodes, x);
      r := |nodes|;
      nodes := nodes + [x];
      assert NodeOk(nodes, r);
      Relisted(r);
      forall t, tag, e | (t, tag) in ups && e in ups[(t, tag)] ensures Entry(t, tag, e) {
        assert old(Entry(t, tag, e));
      }
    }

    /** type_is(t, type_array): the array node below wrappers and qualifiers, if there is one. */
    method SkipAll(t: nat) returns (r: nat)
      requires Valid() && t < |nodes|
      ensures r <= t && !nodes[r].bits.BWhere? && !nodes[r].bits.BCast?
      ensures Unfold(nodes, r) == Skip(Unfold(nodes, t))
    {
      r := t;
      while nodes[r].bits.BWhere? || nodes[r].bits.BCast?
        invariant r <= t && Skip(Unfold(nodes, r)) == Skip(Unfold(nodes, t))
        decreases r
      {
        assert NodeOk(nodes, r);
        r := nodes[r].ref;
      }
      assert NodeOk(nodes, r);
    }

    /** type_qualify3: nothing if it adds nothing; else the new qualifiers, on the elements of an array if they
        are to be moved there. */
    method Qualify3(t: nat, q: set<Qual>, transform: bool) returns (r: nat)
      requires Valid() && t < |nodes|
      modifies this
      ensures Valid() && Grew() && r < |nodes|
      ensures var was := Unfold(old(nodes), t);
              Unfold(nodes, r) == if transform then Qualified(was, q) else Layered(was, q)
      ensures if q <= QualsOf(Unfold(old(nodes), t)) then r == t else !IsWhere(nodes, r)
      decreases t, 0
    {
      var existing := TypeQual(nodes, t);
      if q <= existing { return t; }
      var extra := q - existing;
      var ar := SkipAll(t);
      assert NodeOk(nodes, ar);
      if transform && nodes[ar].bits.BArray? {
        var elem := Qualify(nodes[ar].ref, extra);
        OlderNodesKeep(old(nodes), nodes, ar);
        r := ArrayOf(elem, nodes[ar].bits.size, false);
      } else {
        var x :| x in q && x !in existing;
        assert x in extra;
        r := FindOrNew(t, BCast(extra));
      }
    }

    /** type_qualify */
    method Qualify(t: nat, q: set<Qual>) returns (r: nat)
      requires Valid() && t < |nodes|
      modifies this
      ensures Valid() && Grew() && r < |nodes|
      ensures Unfold(nodes, r) == Qualified(Unfold(old(nodes), t), q)
      ensures if q <= QualsOf(Unfold(old(nodes), t)) then r == t else !IsWhere(nodes, r)
      decreases t, 1
    {
      r := Qualify3(t, q, true);
    }

    /** Two nodes that are not wrappers are the same exactly when they unfold to the same structure. */
    lemma NodesAreStructures(i: nat, j: nat)
      requires Valid() && i < |nodes| && j < |nodes| && !IsWhere(nodes, i) && !IsWhere(nodes, j)
      ensures i == j <==> Unfold(nodes, i) == Unfold(nodes, j)
    {
      if i != j { DistinctNodesUnfoldApart(nodes, i, j); }
    }

    /** Asking for the same qualifiers again gives the same node, exactly when nothing has been lost. */
    method QualifyTwice(t: nat, q: set<Qual>) returns (once: nat, twice: nat)
      requires Valid() && t < |nodes|
      modifies this
      ensures Valid() && Grew() && once < |nodes| && twice < |nodes|
      ensures once == twice <==> KeepsOwn(Unfold(old(nodes), t), q)
    {
      once := Qualify(t, q);
      ghost var mid := nodes;
      twice := Qualify(once, q);
      OlderNodesKeep(mid, nodes, once);
      QualifiedIsIdempotent(Unfold(old(nodes), t), q);
      if !IsWhere(nodes, once) && !IsWhere(nodes, twice) { NodesAreStructures(once, twice); }
    }

    /** The array that loses a qualifier is one that the constructors make: `volatile` is put over it as the
        declarator parser does, without moving it to the elements. Qualifying it twice then gives two nodes. */
    method QualifyVolatileArray(prim: nat, size: Option<nat>) returns (once: nat, twice: nat)
      requires Valid()
      modifies this
      ensures Valid() && Grew() && once < |nodes| && twice < |nodes| && once != twice
    {
      var elem := BtypeNode(prim);
      var ar := ArrayOf(elem, size, false);
      var t := Qualify3(ar, {Volatile}, false);
      ghost var was := Unfold(nodes, t);
      ghost var array_ := Over(Array(size, false), Leaf(Btype(prim)));
      assert QualsOf(array_) == {} && {Volatile} - QualsOf(array_) == {Volatile} && Volatile in {Volatile};
      assert was == Over(Cast({Volatile}), Over(Array(size, false), Leaf(Btype(prim))));
      VolatileArrayLoses(prim, size);
      once, twice := QualifyTwice(t, {Const, Volatile});
    }
  }
}
