/** The type printer: its walk over the reversed type chain, as the source runs it. */
module DeclPrinter {
  import opened Common
  import opened DeclSyntax
  import opened DeclGrammar

  /** The nodes of a type from the one above the base to the outermost, each one's `ref` the one before:
      the chain that type_set_parent threads through `tmp`. */
  predicate IsChain(chain: seq<Type>) {
    forall k :: 0 <= k < |chain| ==> Follows(chain, k)
  }

  predicate Follows(chain: seq<Type>, k: int)
    requires 0 <= k < |chain|
  {
    && Declared(chain[k]) && !chain[k].Base?
    && (if k == 0 then chain[k].ref.Base? else chain[k].ref == chain[k - 1])
  }

  /** Whether the node at `i` is a qualifier: then it belongs to the node before it. */
  predicate QualAt(chain: seq<Type>, i: nat) {
    i < |chain| && chain[i].Qualified?
  }

  function QualsAt(chain: seq<Type>, i: nat): Quals {
    if QualAt(chain, i) then chain[i].quals else NO_QUALS
  }

  predicate SuffixedAt(chain: seq<Type>, i: nat)
    requires IsChain(chain)
  {
    i < |chain| && Follows(chain, i) && IsSuffixed(chain[i].ref)
  }

  /** The declarator layers of the part of the chain from `i` on. */
  function LayersFrom(chain: seq<Type>, i: nat): seq<Layer>
    decreases |chain| - i
  {
    if i >= |chain| then []
    else
      var next := if QualAt(chain, i + 1) then i + 2 else i + 1;
      match chain[i]
      case Array(_, n) => [Subscript(QualsAt(chain, i + 1), n)] + LayersFrom(chain, next)
      case Func(_, p) => [Call(p)] + LayersFrom(chain, i + 1)
      case Ptr(_) => [Pointer(false, QualsAt(chain, i + 1))] + LayersFrom(chain, next)
      case Block(_) => [Pointer(true, QualsAt(chain, i + 1))] + LayersFrom(chain, next)
      case _ => LayersFrom(chain, i + 1)
  }

  /** A text followed by more text is their concatenation. */
  lemma {:induction false} EmitAppends(layers: seq<Layer>, name: Option<string>, suffixed: bool, a: seq<Token>,
      b: seq<Token>)
    ensures Emit(layers, name, suffixed, a) + b == Emit(layers, name, suffixed, a + b)
    decreases |layers|
  {
    if layers != [] {
      var l := layers[0];
      if l.Pointer? {
        var close := if suffixed then [CloseParen] + a else a;
        EmitAppends(layers[1..], name, false, close, b);
        CloseAppends(a, b);
        PointerAppends(if suffixed then [OpenParen] else [], if l.block then Caret else Star, l.quals,
                       Emit(layers[1..], name, false, close), b);
      } else if l.Subscript? {
        EmitAppends(layers[1..], name, true, SubscriptToks(l.quals, l.size, a), b);
        SubscriptAppends(l.quals, l.size, a, b);
      } else {
        EmitAppends(layers[1..], name, true, CallToks(l.params, a), b);
        CallAppends(l.params, a, b);
      }
    }
  }

  lemma CloseAppends(a: seq<Token>, b: seq<Token>)
    ensures [CloseParen] + a + b == [CloseParen] + (a + b)
  {}

  lemma SubscriptAppends(q: Quals, n: Option<nat>, a: seq<Token>, b: seq<Token>)
    ensures SubscriptToks(q, n, a) + b == SubscriptToks(q, n, a + b)
  {}

  lemma CallAppends(p: Option<nat>, a: seq<Token>, b: seq<Token>)
    ensures CallToks(p, a) + b == CallToks(p, a + b)
  {}

  lemma PointerAppends(open: seq<Token>, star: Token, q: Quals, inner: seq<Token>, b: seq<Token>)
    ensures open + ([star] + (QualToks(q) + inner)) + b == open + ([star] + (QualToks(q) + (inner + b)))
  {}

  lemma {:induction false} AppendedNode(chain: seq<Type>, x: Type, i: nat)
    requires i <= |chain| && !x.Qualified?
    ensures LayersFrom(chain + [x], i) == LayersFrom(chain, i) + LayersFrom([x], 0)
    decreases |chain| - i
  {
    if i == |chain| {
      assert (chain + [x])[i] == x;
    } else {
      AppendedNode(chain, x, i + 1);
      if QualAt(chain, i + 1) { AppendedNode(chain, x, i + 2); }
      AppendStep(chain, chain + [x], i, LayersFrom([x], 0));
    }
  }

  /** The layers of a chain continued by others, one node further out. */
  lemma AppendStep(chain: seq<Type>, all: seq<Type>, i: nat, more: seq<Layer>)
    requires i < |chain| <= |all| && all[..|chain|] == chain
    requires i + 1 == |chain| ==> !QualAt(all, i + 1)
    requires LayersFrom(all, i + 1) == LayersFrom(chain, i + 1) + more
    requires QualAt(chain, i + 1) ==> LayersFrom(all, i + 2) == LayersFrom(chain, i + 2) + more
    ensures LayersFrom(all, i) == LayersFrom(chain, i) + more
  {
    assert all[i] == chain[i] && (i + 1 < |chain| ==> all[i + 1] == chain[i + 1]);
    assert QualAt(all, i + 1) == QualAt(chain, i + 1) && QualsAt(all, i + 1) == QualsAt(chain, i + 1);
    Prepended(LayerAt(chain, i), LayersFrom(chain, i + Steps(chain, i)), more);
  }

  /** What a node contributes, and how many nodes it takes. */
  function LayerAt(chain: seq<Type>, i: nat): seq<Layer>
    requires i < |chain|
    ensures LayersFrom(chain, i) == LayerAt(chain, i) + LayersFrom(chain, i + Steps(chain, i))
  {
    match chain[i]
    case Array(_, n) => [Subscript(QualsAt(chain, i + 1), n)]
    case Func(_, p) => [Call(p)]
    case Ptr(_) => [Pointer(false, QualsAt(chain, i + 1))]
    case Block(_) => [Pointer(true, QualsAt(chain, i + 1))]
    case _ => []
  }

  function Steps(chain: seq<Type>, i: nat): nat
    requires i < |chain|
  {
    if (chain[i].Array? || chain[i].Ptr? || chain[i].Block?) && QualAt(chain, i + 1) then 2 else 1
  }

  lemma Prepended(a: seq<Layer>, b: seq<Layer>, c: seq<Layer>)
    ensures a + (b + c) == a + b + c
  {}

  lemma {:induction false} AppendedPair(chain: seq<Type>, x: Type, q: Type, i: nat)
    requires i <= |chain| && (x.Ptr? || x.Block? || x.Array?) && q.Qualified?
    ensures LayersFrom(chain + [x] + [q], i) == LayersFrom(chain, i) + LayersFrom([x, q], 0)
    decreases |chain| - i
  {
    var all := chain + [x] + [q];
    if i == |chain| {
      assert all[i] == x && all[i + 1] == q;
      assert LayersFrom(all, i + 2) == [] == LayersFrom([x, q], 2);
      assert LayersFrom(all, i + 1) == [] == LayersFrom([x, q], 1);
    } else {
      AppendedPair(chain, x, q, i + 1);
      if QualAt(chain, i + 1) { AppendedPair(chain, x, q, i + 2); }
      assert all[..|chain|] == chain;
      AppendStep(chain, all, i, LayersFrom([x, q], 0));
    }
  }

  lemma ChainPrefix(chain: seq<Type>)
    requires IsChain(chain) && chain != []
    ensures IsChain(chain[..|chain| - 1])
  {
    var c := chain[..|chain| - 1];
    forall k | 0 <= k < |c| ensures Follows(c, k) {
      assert Follows(chain, k);
    }
  }

  /** The chain of nodes of a type has the layers of the type. */
  lemma {:induction false} ChainLayers(chain: seq<Type>)
    requires IsChain(chain) && chain != []
    ensures Follows(chain, |chain| - 1) && LayersFrom(chain, 0) == LayersOf(chain[|chain| - 1])
    decreases |chain|
  {
    var last := chain[|chain| - 1];
    var below := chain[..|chain| - 1];
    assert chain == below + [last];
    ChainPrefix(chain);
    if |chain| == 1 {
    } else if last.Qualified? {
      var x := below[|below| - 1];
      assert Follows(chain, |chain| - 1);
      var rest := below[..|below| - 1];
      assert below == rest + [x];
      assert Follows(below, |below| - 1);
      ChainPrefix(below);
      AppendedPair(rest, x, last, 0);
      assert LayersFrom([x, last], 2) == [];
      if rest != [] {
        ChainLayers(rest);
        assert Follows(below, |below| - 1);
      }
    } else {
      AppendedNode(below, last, 0);
      ChainLayers(below);
      assert Follows(chain, |chain| - 1);
    }
  }

  /** What the base's own qualifiers print before the declarator. */
  function BaseQualToks(t: Type): seq<Token> {
    if BaseOf(t).Qualified? then QualToks(BaseOf(t).quals) else []
  }

  /** They are printed, each once and in this order, whatever is declared of the base; nothing is without them. */
  lemma BasePrinted(t: Type, id: nat, q: Quals)
    requires Declared(t)
    ensures BaseOf(t) == Base(id) ==> BaseQualToks(t) == []
    ensures BaseOf(t) == Qualified(Base(id), q) ==>
              BaseQualToks(t) ==
              (if q.cons then [Const] else []) + (if q.vol then [Volatile] else [])
              + (if q.restr then [Restrict] else [])
    ensures t == Base(id) ==> BaseOf(t) == t
    ensures t == Qualified(Base(id), q) ==> BaseOf(t) == t
    ensures BaseOf(Ptr(t)) == BaseOf(Block(t)) == BaseOf(t)
    ensures forall n: Option<nat> :: BaseOf(Array(t, n)) == BaseOf(Func(t, n)) == BaseOf(t)
    ensures !t.Base? ==> BaseOf(Qualified(t, q)) == BaseOf(t)
  {}

  /** What type_add_str prints for the chain from `i` on. */
  function Printed(chain: seq<Type>, i: nat, spel: Option<string>): seq<Token>
    requires IsChain(chain)
  {
    if QualAt(chain, i) then QualToks(chain[i].quals) + Emit(LayersFrom(chain, i + 1), spel, false, [])
    else Emit(LayersFrom(chain, i), spel, SuffixedAt(chain, i), [])
  }

  lemma EmitPointer(l: Layer, inner: seq<Layer>, spel: Option<string>, suffixed: bool)
    requires l.Pointer?
    ensures Emit([l] + inner, spel, suffixed, []) ==
            (if suffixed then [OpenParen] else []) + [if l.block then Caret else Star] +
            (QualToks(l.quals) + Emit(inner, spel, false, [])) + (if suffixed then [CloseParen] else [])
  {
    assert ([l] + inner)[1..] == inner;
    var star, text := if l.block then Caret else Star, Emit(inner, spel, false, []);
    if suffixed {
      EmitAppends(inner, spel, false, [], [CloseParen]);
      assert [] + [CloseParen] == [CloseParen] && [CloseParen] + [] == [CloseParen];
      Enclosed([OpenParen], star, QualToks(l.quals), text, [CloseParen]);
    } else {
      Enclosed([], star, QualToks(l.quals), text, []);
      assert text + [] == text;
    }
  }

  lemma Enclosed(open: seq<Token>, star: Token, quals: seq<Token>, inner: seq<Token>, close: seq<Token>)
    ensures open + [star] + (quals + inner) + close == open + ([star] + (quals + (inner + close)))
  {}

  /** The tokens an array or a function prints after what it encloses. */
  function SuffixToks(l: Layer): seq<Token>
    requires !l.Pointer?
  {
    if l.Subscript? then SubscriptToks(l.quals, l.size, []) else CallToks(l.params, [])
  }

  lemma EmitSuffix(l: Layer, inner: seq<Layer>, spel: Option<string>, suffixed: bool)
    requires !l.Pointer?
    ensures Emit([l] + inner, spel, suffixed, []) == Emit(inner, spel, true, []) + SuffixToks(l)
  {
    assert ([l] + inner)[1..] == inner;
    EmitAppends(inner, spel, true, [], SuffixToks(l));
    assert [] + SuffixToks(l) == SuffixToks(l);
  }

  lemma PrintedQual(chain: seq<Type>, i: nat, spel: Option<string>)
    requires IsChain(chain) && QualAt(chain, i)
    requires i > 0 ==> !chain[i - 1].Array?
    ensures Printed(chain, i, spel) == QualToks(chain[i].quals) + Printed(chain, i + 1, spel)
  {
    assert i + 1 < |chain| ==> Follows(chain, i + 1);
    assert Follows(chain, i);
    assert Declared(chain[i]) && Skip(chain[i]) == Skip(chain[i].ref) == chain[i].ref;
  }

  lemma PrintedPointer(chain: seq<Type>, i: nat, spel: Option<string>)
    requires IsChain(chain) && i < |chain| && (chain[i].Ptr? || chain[i].Block?)
    ensures var suffixed := SuffixedAt(chain, i);
            Printed(chain, i, spel) ==
            (if suffixed then [OpenParen] else []) + [if chain[i].Block? then Caret else Star] +
            Printed(chain, i + 1, spel) + (if suffixed then [CloseParen] else [])
  {
    var inner := LayersFrom(chain, if QualAt(chain, i + 1) then i + 2 else i + 1);
    EmitPointer(Pointer(chain[i].Block?, QualsAt(chain, i + 1)), inner, spel, SuffixedAt(chain, i));
    InsidePointer(chain, i, i + 1, inner, spel);
  }

  /** What is printed inside a pointer: its qualifiers first. */
  lemma InsidePointer(chain: seq<Type>, i: nat, next: nat, inner: seq<Layer>, spel: Option<string>)
    requires IsChain(chain) && i < |chain| && (chain[i].Ptr? || chain[i].Block?) && next == i + 1
    requires inner == LayersFrom(chain, if QualAt(chain, next) then next + 1 else next)
    ensures Printed(chain, next, spel) == QualToks(QualsAt(chain, next)) + Emit(inner, spel, false, [])
  {
    assert next < |chain| ==> Follows(chain, next);
    assert QualToks(NO_QUALS) + Emit(inner, spel, false, []) == Emit(inner, spel, false, []);
  }

  lemma PrintedSuffix(chain: seq<Type>, i: nat, spel: Option<string>)
    requires IsChain(chain) && i < |chain| && (chain[i].Array? || chain[i].Func?)
    ensures var next := if QualAt(chain, i + 1) then i + 2 else i + 1;
            Printed(chain, i, spel) ==
            Printed(chain, next, spel) +
            SuffixToks(if chain[i].Array? then Subscript(QualsAt(chain, i + 1), chain[i].size)
                else Call(chain[i].params))
    ensures chain[i].Func? ==> !QualAt(chain, i + 1)
  {
    if chain[i].Array? { PrintedArray(chain, i, spel); } else { PrintedFunc(chain, i, spel); }
  }

  lemma PrintedArray(chain: seq<Type>, i: nat, spel: Option<string>)
    requires IsChain(chain) && i < |chain| && chain[i].Array?
    ensures var next := if QualAt(chain, i + 1) then i + 2 else i + 1;
            Printed(chain, i, spel) ==
            Printed(chain, next, spel) + SuffixToks(Subscript(QualsAt(chain, i + 1), chain[i].size))
  {
    var next, l := if QualAt(chain, i + 1) then i + 2 else i + 1, Subscript(QualsAt(chain, i + 1), chain[i].size);
    ArrayLayer(chain, i);
    InsideSuffix(chain, i, next, spel);
    EmitSuffix(l, LayersFrom(chain, next), spel, SuffixedAt(chain, i));
  }

  lemma ArrayLayer(chain: seq<Type>, i: nat)
    requires IsChain(chain) && i < |chain| && chain[i].Array?
    ensures var next := if QualAt(chain, i + 1) then i + 2 else i + 1;
            && !QualAt(chain, next)
            && LayersFrom(chain, i) == [Subscript(QualsAt(chain, i + 1), chain[i].size)] + LayersFrom(chain, next)
  {
    if QualAt(chain, i + 1) { QualifierAlone(chain, i + 1); }
  }

  /** No two qualifier nodes follow each other. */
  lemma QualifierAlone(chain: seq<Type>, i: nat)
    requires IsChain(chain) && 0 < i < |chain| && chain[i].Qualified?
    ensures !QualAt(chain, i + 1)
  {
    if i + 1 < |chain| { assert Follows(chain, i + 1); }
  }

  lemma SuffixedAfter(chain: seq<Type>, i: nat, next: nat)
    requires IsChain(chain) && i < |chain| && (chain[i].Array? || chain[i].Func?)
    requires next == i + 1 || (next == i + 2 && QualAt(chain, i + 1))
    ensures next < |chain| ==> SuffixedAt(chain, next)
  {
    if next < |chain| {
      assert Follows(chain, next) && Follows(chain, i + 1);
      assert Skip(chain[i]) == chain[i];
      assert next == i + 2 ==> chain[next].ref == chain[i + 1] && Skip(chain[i + 1]) == Skip(chain[i]);
    }
  }

  /** What is printed around the name inside a suffix. */
  lemma InsideSuffix(chain: seq<Type>, i: nat, next: nat, spel: Option<string>)
    requires IsChain(chain) && i < |chain| && (chain[i].Array? || chain[i].Func?)
    requires next == i + 1 || (next == i + 2 && QualAt(chain, i + 1))
    requires !QualAt(chain, next)
    ensures Emit(LayersFrom(chain, next), spel, true, []) == Printed(chain, next, spel)
  {
    SuffixedAfter(chain, i, next);
    if next >= |chain| { assert LayersFrom(chain, next) == []; }
  }

  lemma FuncLayer(chain: seq<Type>, i: nat, next: nat, spel: Option<string>)
    requires IsChain(chain) && i < |chain| && chain[i].Func? && next == i + 1
    ensures !QualAt(chain, next)
    ensures Printed(chain, i, spel) ==
            Emit([Call(chain[i].params)] + LayersFrom(chain, next), spel, SuffixedAt(chain, i), [])
  {
    assert next < |chain| ==> Follows(chain, next);
  }

  lemma PrintedFunc(chain: seq<Type>, i: nat, spel: Option<string>)
    requires IsChain(chain) && i < |chain| && chain[i].Func?
    ensures !QualAt(chain, i + 1)
    ensures Printed(chain, i, spel) == Printed(chain, i + 1, spel) + SuffixToks(Call(chain[i].params))
  {
    var next := i + 1;
    FuncLayer(chain, i, next, spel);
    InsideSuffix(chain, i, next, spel);
    EmitSuffix(Call(chain[i].params), LayersFrom(chain, next), spel, SuffixedAt(chain, i));
  }

  predicate NeedParen(chain: seq<Type>, i: nat)
    requires IsChain(chain) && i < |chain|
  {
    (chain[i].Ptr? || chain[i].Block?) && SuffixedAt(chain, i)
  }

  /** What type_add_str_pre prints for one node. */
  function PreToks(chain: seq<Type>, i: nat): seq<Token>
    requires IsChain(chain) && i < |chain|
  {
    var r := chain[i];
    (if NeedParen(chain, i) then [OpenParen] else []) +
    (if r.Ptr? then [Star] else if r.Block? then [Caret] else if r.Qualified? then QualToks(r.quals) else [])
  }

  /** What type_add_str prints for one node after the nodes outside it. */
  function PostToks(chain: seq<Type>, i: nat): seq<Token>
    requires IsChain(chain) && i < |chain|
  {
    var r := chain[i];
    (if r.Array? then SubscriptToks(QualsAt(chain, i + 1), r.size, [])
     else if r.Func? then CallToks(r.params, []) else []) +
    (if NeedParen(chain, i) then [CloseParen] else [])
  }

  /** The node type_add_str goes on with: an array prints the qualifiers above it itself. */
  function Next(chain: seq<Type>, i: nat): nat
    requires i < |chain|
  {
    if chain[i].Array? && QualAt(chain, i + 1) then i + 2 else i + 1
  }

  lemma PrintedNode(chain: seq<Type>, i: nat, spel: Option<string>)
    requires IsChain(chain) && i < |chain|
    requires i > 0 && QualAt(chain, i) ==> !chain[i - 1].Array?
    ensures Printed(chain, i, spel) == PreToks(chain, i) + Printed(chain, Next(chain, i), spel) + PostToks(chain, i)
  {
    assert Follows(chain, i);
    if chain[i].Func? || chain[i].Array? {
      SuffixNode(chain, i, spel);
    } else if chain[i].Qualified? {
      QualNode(chain, i, spel);
    } else {
      PointerNode(chain, i, spel);
    }
  }

  lemma QualNode(chain: seq<Type>, i: nat, spel: Option<string>)
    requires IsChain(chain) && i < |chain| && chain[i].Qualified?
    requires i > 0 ==> !chain[i - 1].Array?
    ensures Printed(chain, i, spel) == PreToks(chain, i) + Printed(chain, Next(chain, i), spel) + PostToks(chain, i)
  {
    PrintedQual(chain, i, spel);
    QualTexts(chain, i);
    NothingAfter(PreToks(chain, i), Printed(chain, i + 1, spel));
  }

  lemma QualTexts(chain: seq<Type>, i: nat)
    requires IsChain(chain) && i < |chain| && chain[i].Qualified?
    ensures PreToks(chain, i) == QualToks(chain[i].quals) && PostToks(chain, i) == [] && Next(chain, i) == i + 1
  {}

  lemma NothingAfter(a: seq<Token>, b: seq<Token>)
    ensures a + b + [] == a + b
  {}

  lemma PointerNode(chain: seq<Type>, i: nat, spel: Option<string>)
    requires IsChain(chain) && i < |chain| && (chain[i].Ptr? || chain[i].Block?)
    ensures Printed(chain, i, spel) == PreToks(chain, i) + Printed(chain, Next(chain, i), spel) + PostToks(chain, i)
  {
    assert Follows(chain, i);
    PrintedPointer(chain, i, spel);
    assert PostToks(chain, i) == if SuffixedAt(chain, i) then [CloseParen] else [];
  }

  lemma SuffixNode(chain: seq<Type>, i: nat, spel: Option<string>)
    requires IsChain(chain) && i < |chain| && (chain[i].Array? || chain[i].Func?)
    ensures Printed(chain, i, spel) == PreToks(chain, i) + Printed(chain, Next(chain, i), spel) + PostToks(chain, i)
  {
    PrintedSuffix(chain, i, spel);
    assert PreToks(chain, i) == [];
    assert [] + Printed(chain, Next(chain, i), spel) == Printed(chain, Next(chain, i), spel);
  }

  lemma NextNode(chain: seq<Type>, i: nat)
    requires IsChain(chain) && i < |chain|
    ensures Next(chain, i) <= |chain|
    ensures QualAt(chain, Next(chain, i)) ==> !chain[Next(chain, i) - 1].Array?
  {
    assert i + 2 < |chain| ==> Follows(chain, i + 2);
  }

  lemma Assemble(before: seq<Token>, pre: seq<Token>, mid: seq<Token>, post: seq<Token>)
    ensures before + pre + mid + post == before + (pre + mid + post)
  {}

  class TypePrinter {
    var buf: seq<Token>

    constructor ()
      ensures buf == []
    {
      buf := [];
    }

    /** type_to_str_r_spel_opts, from the end of the base type's words on. */
    method TypeToStr(t: Type, spel: Option<string>)
      requires Declared(t)
      modifies this
      ensures buf == old(buf) + (BaseQualToks(t) + Emit(LayersOf(t), spel, false, []))
    {
      var chain := SetParent(t);
      if chain != [] { ChainLayers(chain); }
      AddStr(chain, 0, spel);
    }

    /** type_set_parent */
    method SetParent(t: Type) returns (chain: seq<Type>)
      requires Declared(t)
      ensures IsChain(chain)
      ensures if t.Base? then chain == [] else chain != [] && chain[|chain| - 1] == t
      ensures BaseQualToks(t) == QualToks(QualsAt(chain, 0))
    {
      chain := [];
      var r := t;
      while !r.Base?
        invariant Declared(r)
        invariant BaseOf(t) == if r.Base? && chain != [] && chain[0].Qualified? then chain[0] else BaseOf(r)
        invariant forall k :: 0 < k < |chain| ==> Follows(chain, k)
        invariant chain != [] ==> Declared(chain[0]) && !chain[0].Base?
        invariant chain != [] ==> !t.Base?
        invariant if chain == [] then r == t else chain[0].ref == r && chain[|chain| - 1] == t
        decreases r
      {
        ghost var tail := chain;
        chain := [r] + chain;
        forall k | 0 < k < |chain| ensures Follows(chain, k) {
          assert k > 1 ==> Follows(tail, k - 1);
        }
        r := r.ref;
      }
    }

    /** type_add_str on the node at `i`. */
    method AddStr(chain: seq<Type>, i: nat, spel: Option<string>)
      requires IsChain(chain) && i <= |chain|
      requires i > 0 && QualAt(chain, i) ==> !chain[i - 1].Array?
      modifies this
      ensures buf == old(buf) + Printed(chain, i, spel)
      decreases |chain| - i
    {
      if i == |chain| {
        if spel.Some? { buf := buf + [Ident(spel.value)]; }
        return;
      }
      NextNode(chain, i);
      ghost var before, pre, mid, post :=
        buf, PreToks(chain, i), Printed(chain, Next(chain, i), spel), PostToks(chain, i);
      assert Printed(chain, i, spel) == pre + mid + post by { PrintedNode(chain, i, spel); }
      var needParen := AddPre(chain, i);
      var arrayQual := if chain[i].Array? then QualsAt(chain, i + 1) else NO_QUALS;
      AddStr(chain, Next(chain, i), spel);
      AddPost(chain, i, arrayQual, needParen);
      Assemble(before, pre, mid, post);
    }

    /** type_add_str_pre */
    method AddPre(chain: seq<Type>, i: nat) returns (needParen: bool)
      requires IsChain(chain) && i < |chain|
      modifies this
      ensures buf == old(buf) + PreToks(chain, i) && needParen == NeedParen(chain, i)
    {
      assert Follows(chain, i);
      var r := chain[i];
      needParen := (r.Ptr? || r.Block?) && IsSuffixed(r.ref);
      if needParen { buf := buf + [OpenParen]; }
      if r.Ptr? {
        buf := buf + [Star];
      } else if r.Block? {
        buf := buf + [Caret];
      } else if r.Qualified? {
        buf := buf + QualToks(r.quals);
      }
    }

    /** The second half of type_add_str: suffixes and the closing parenthesis. */
    method AddPost(chain: seq<Type>, i: nat, arrayQual: Quals, needParen: bool)
      requires IsChain(chain) && i < |chain|
      requires needParen == NeedParen(chain, i)
      requires chain[i].Array? ==> arrayQual == QualsAt(chain, i + 1)
      modifies this
      ensures buf == old(buf) + PostToks(chain, i)
    {
      var r := chain[i];
      if r.Func? {
        buf := buf + CallToks(r.params, []);
      } else if r.Array? {
        buf := buf + SubscriptToks(arrayQual, r.size, []);
      }
      if needParen { buf := buf + [CloseParen]; }
    }
  }
}
