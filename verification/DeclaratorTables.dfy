/** How declarators are read, said with tokens alone (src/cc1/parse_type.c): which tokens are qualifiers, and that a
    suffix binds tighter than a pointer. */
module DeclTables {
  import opened Common
  import opened DeclSyntax
  import opened DeclGrammar
  import opened DeclRoundTrip

  /** The declarator `toks` makes the type `t` of `base`, for the name `x`. */
  ghost predicate Denotes(base: Type, toks: seq<Token>, t: Type, x: string) {
    forall mode: Mode :: mode.named ==> ParseType(mode, base, toks) == Some((t, Some(x), []))
  }

  /** A pointer is to what is declared so far, a block if it is written `^`, and has the qualifiers that are written
      behind it, each of them once however often it is written. */
  lemma {:induction false} QualifiersRead(mode: Mode, star: Token, quals: seq<Token>, inner: seq<Token>)
    requires star in [Star, Caret] && forall k :: 0 <= k < |quals| ==> quals[k] in [Const, Volatile, Restrict]
    requires inner == [] || inner[0] !in [Const, Volatile, Restrict]
    ensures ParseDecl(mode, [star] + (quals + inner)) ==
            match ParseDecl(mode, inner)
            case Error => Error
            case Parsed(sub, name, rest) =>
              Parsed([Pointer(star == Caret, Quals(Const in quals, Volatile in quals, Restrict in quals))] + sub,
                     name, rest)
  {
    var toks := [star] + (quals + inner);
    assert toks[1..] == quals + inner;
    AllRead(NO_QUALS, quals, inner);
  }

  lemma {:induction false} AllRead(q: Quals, quals: seq<Token>, rest: seq<Token>)
    requires forall k :: 0 <= k < |quals| ==> quals[k] in [Const, Volatile, Restrict]
    requires rest == [] || rest[0] !in [Const, Volatile, Restrict]
    ensures ReadQuals(q, quals + rest) ==
            (Quals(q.cons || Const in quals, q.vol || Volatile in quals, q.restr || Restrict in quals), rest)
    decreases |quals|
  {
    if quals == [] {
      assert quals + rest == rest;
    } else {
      assert (quals + rest)[1..] == quals[1..] + rest;
      AllRead(Or(q, QualOf(quals[0])), quals[1..], rest);
      assert quals == [quals[0]] + quals[1..];
    }
  }

  /** `* const p` is a constant pointer. */
  lemma PointerDenotes(base: Type, star: Token, quals: seq<Token>, x: string)
    requires star in [Star, Caret] && forall k :: 0 <= k < |quals| ==> quals[k] in [Const, Volatile, Restrict]
    ensures var p := if star == Star then Ptr(base) else Block(base);
            Denotes(base, [star] + (quals + [Ident(x)]),
                    if quals == [] then p
                    else Qualified(p, Quals(Const in quals, Volatile in quals, Restrict in quals)), x)
  {
    var q := Quals(Const in quals, Volatile in quals, Restrict in quals);
    if quals != [] { assert quals[0] in quals; }
    var layers := [Pointer(star == Caret, q)];
    BuildOne(base, layers[0]);
    forall mode: Mode | mode.named
      ensures ParseDecl(mode, [star] + (quals + [Ident(x)])) == Parsed(layers, Some(x), [])
    {
      QualifiersRead(mode, star, quals, [Ident(x)]);
      NameRead(mode, x, []);
      assert [Ident(x)] + [] == [Ident(x)] && layers + [] == layers;
    }
  }

  lemma BuildOne(base: Type, l: Layer)
    ensures Build(base, [l]) == Apply(l, base)
  {
    assert [l][1..] == [];
  }

  lemma BuildTwo(base: Type, l: Layer, m: Layer)
    ensures Build(base, [l, m]) == Apply(m, Apply(l, base))
  {
    assert [l, m][1..] == [m];
    BuildOne(Apply(l, base), m);
  }

  /** A declarator that starts with its name has only suffixes behind it. */
  lemma NameFirst(mode: Mode, x: string, rest: seq<Token>)
    requires mode.named
    ensures ParseDecl(mode, [Ident(x)] + rest) == Suffixes([], Some(x), rest)
  {
    var toks := [Ident(x)] + rest;
    assert toks[1..] == rest;
    assert ParseNest(mode, toks) == Parsed([], Some(x), rest);
  }

  lemma NameRead(mode: Mode, x: string, rest: seq<Token>)
    requires mode.named && (rest == [] || rest[0] == CloseParen)
    ensures ParseDecl(mode, [Ident(x)] + rest) == Parsed([], Some(x), rest)
  {
    NameFirst(mode, x, rest);
  }

  /** The tokens of a suffix, and the type that it makes of the one before it. */
  datatype Suffix = Index(n: nat) | EmptyIndex | EmptyCall | ParamCall(id: nat)

  function SuffixToks(s: Suffix): seq<Token> {
    match s
    case Index(n) => [OpenSquare, Size(n), CloseSquare]
    case EmptyIndex => [OpenSquare, CloseSquare]
    case EmptyCall => [OpenParen, CloseParen]
    case ParamCall(id) => [OpenParen, Params(id), CloseParen]
  }

  function Of(s: Suffix, t: Type): Type {
    match s
    case Index(n) => Array(t, Some(n))
    case EmptyIndex => Array(t, None)
    case EmptyCall => Func(t, None)
    case ParamCall(id) => Func(t, Some(id))
  }

  function LayerOf(s: Suffix): Layer {
    match s
    case Index(n) => Subscript(NO_QUALS, Some(n))
    case EmptyIndex => Subscript(NO_QUALS, None)
    case EmptyCall => Call(None)
    case ParamCall(id) => Call(Some(id))
  }

  lemma OfIsLayer(s: Suffix, t: Type)
    requires QualsOf(t) == NO_QUALS
    ensures Apply(LayerOf(s), t) == Of(s, t)
  {}

  lemma SuffixRead(s: Suffix, layers: seq<Layer>, x: string, rest: seq<Token>)
    ensures Suffixes(layers, Some(x), SuffixToks(s) + rest) == Suffixes([LayerOf(s)] + layers, Some(x), rest)
  {
    var toks := SuffixToks(s) + rest;
    match s
    case Index(n) =>
      assert toks[1..] == [Size(n), CloseSquare] + rest && toks[2..] == [CloseSquare] + rest && toks[3..] == rest;
      assert toks[1..][1..] == toks[2..] && toks[2..][1..] == rest;
      assert ReadQuals(NO_QUALS, toks[1..]) == (NO_QUALS, toks[1..]);
    case EmptyIndex =>
      assert toks[1..] == [CloseSquare] + rest && toks[1..][1..] == rest;
      assert ReadQuals(NO_QUALS, toks[1..]) == (NO_QUALS, toks[1..]);
    case EmptyCall =>
      assert toks[1..] == [CloseParen] + rest && toks[1..][1..] == rest;
    case ParamCall(id) =>
      assert toks[1..] == [Params(id), CloseParen] + rest && toks[2..] == [CloseParen] + rest && toks[3..] == rest;
      assert toks[1..][1..] == toks[2..] && toks[2..][1..] == rest;
  }

  /** One suffix, and two, up to where the declarator ends. */
  lemma OneSuffix(layers: seq<Layer>, x: string, s: Suffix)
    ensures Suffixes(layers, Some(x), SuffixToks(s)) == Parsed([LayerOf(s)] + layers, Some(x), [])
  {
    SuffixRead(s, layers, x, []);
    assert SuffixToks(s) + [] == SuffixToks(s);
    assert Suffixes([LayerOf(s)] + layers, Some(x), []) == Parsed([LayerOf(s)] + layers, Some(x), []);
  }

  lemma TwoSuffixes(x: string, s: Suffix, t: Suffix)
    ensures Suffixes([], Some(x), SuffixToks(s) + SuffixToks(t)) == Parsed([LayerOf(t), LayerOf(s)], Some(x), [])
  {
    SuffixRead(s, [], x, SuffixToks(t));
    assert [LayerOf(s)] + [] == [LayerOf(s)];
    OneSuffix([LayerOf(s)], x, t);
    assert [LayerOf(t)] + [LayerOf(s)] == [LayerOf(t), LayerOf(s)];
  }

  function PointerTo(star: Token, t: Type): Type {
    if star == Star then Ptr(t) else Block(t)
  }

  /** A suffix binds tighter than a pointer: `*x[3]` is an array of pointers. */
  lemma SuffixFirst(base: Type, star: Token, x: string, s: Suffix)
    requires star in [Star, Caret]
    ensures Denotes(base, [star, Ident(x)] + SuffixToks(s), Of(s, PointerTo(star, base)), x)
  {
    var p := Pointer(star == Caret, NO_QUALS);
    BuildTwo(base, p, LayerOf(s));
    OfIsLayer(s, PointerTo(star, base));
    var toks, inner := [star, Ident(x)] + SuffixToks(s), [Ident(x)] + SuffixToks(s);
    assert toks == [star] + ([] + inner) && [p] + [LayerOf(s)] == [p, LayerOf(s)];
    forall mode: Mode | mode.named ensures ParseDecl(mode, toks) == Parsed([p, LayerOf(s)], Some(x), []) {
      QualifiersRead(mode, star, [], inner);
      NameFirst(mode, x, SuffixToks(s));
      OneSuffix([], x, s);
      assert [LayerOf(s)] + [] == [LayerOf(s)];
    }
  }

  /** Unless the pointer is in parentheses: `(*x)[3]` is a pointer to an array. */
  lemma ParenthesesFirst(base: Type, star: Token, x: string, s: Suffix)
    requires star in [Star, Caret] && QualsOf(base) == NO_QUALS
    ensures Denotes(base, [OpenParen, star, Ident(x), CloseParen] + SuffixToks(s), PointerTo(star, Of(s, base)), x)
  {
    var p := Pointer(star == Caret, NO_QUALS);
    BuildTwo(base, LayerOf(s), p);
    OfIsLayer(s, base);
    var toks := [OpenParen, star, Ident(x), CloseParen] + SuffixToks(s);
    forall mode: Mode | mode.named ensures ParseDecl(mode, toks) == Parsed([LayerOf(s), p], Some(x), []) {
      NestedPointer(mode, star, x, SuffixToks(s), toks);
      OneSuffix([p], x, s);
      assert [LayerOf(s)] + [p] == [LayerOf(s), p];
    }
  }

  lemma NestedPointer(mode: Mode, star: Token, x: string, rest: seq<Token>, toks: seq<Token>)
    requires star in [Star, Caret] && mode.named && toks == [OpenParen, star, Ident(x), CloseParen] + rest
    ensures ParseDecl(mode, toks) == Suffixes([Pointer(star == Caret, NO_QUALS)], Some(x), rest)
  {
    var p := Pointer(star == Caret, NO_QUALS);
    var after := [CloseParen] + rest;
    assert toks[1..] == [star] + ([] + ([Ident(x)] + after)) && after[1..] == rest;
    PointerRead(mode, star, x, after);
    assert ParseNest(mode, toks) == Parsed([p], Some(x), rest);
  }

  lemma PointerRead(mode: Mode, star: Token, x: string, after: seq<Token>)
    requires star in [Star, Caret] && mode.named && after != [] && after[0] == CloseParen
    ensures ParseDecl(mode, [star] + ([] + ([Ident(x)] + after))) ==
            Parsed([Pointer(star == Caret, NO_QUALS)], Some(x), after)
  {
    QualifiersRead(mode, star, [], [Ident(x)] + after);
    NameRead(mode, x, after);
    assert [Pointer(star == Caret, NO_QUALS)] + [] == [Pointer(star == Caret, NO_QUALS)];
  }

  /** Of two suffixes the one next to the name is the outermost: `x[2][3]` is two arrays of three. */
  lemma NearestOutermost(base: Type, x: string, s: Suffix, t: Suffix)
    requires QualsOf(base) == NO_QUALS
    ensures Denotes(base, [Ident(x)] + (SuffixToks(s) + SuffixToks(t)), Of(s, Of(t, base)), x)
  {
    BuildTwo(base, LayerOf(t), LayerOf(s));
    OfIsLayer(t, base);
    OfIsLayer(s, Of(t, base));
    var toks := [Ident(x)] + (SuffixToks(s) + SuffixToks(t));
    forall mode: Mode | mode.named ensures ParseDecl(mode, toks) == Parsed([LayerOf(t), LayerOf(s)], Some(x), []) {
      NameFirst(mode, x, SuffixToks(s) + SuffixToks(t));
      TwoSuffixes(x, s, t);
    }
  }

  // ---- What is printed ---------------------------------------------------------------------------------

  function If(b: bool, t: Token): seq<Token> {
    if b then [t] else []
  }

  /** Qualifiers are printed behind the pointer that they belong to, in this order. */
  lemma PointerPrinted(id: nat, star: Token, q: Quals, x: string)
    requires star in [Star, Caret]
    ensures var p := PointerTo(star, Base(id));
            var t := if q == NO_QUALS then p else Qualified(p, q);
            Declared(t) &&
            Emit(LayersOf(t), Some(x), false, []) ==
            [star] + If(q.cons, Const) + If(q.vol, Volatile) + If(q.restr, Restrict) + [Ident(x)]
  {
    var p := PointerTo(star, Base(id));
    var t := if q == NO_QUALS then p else Qualified(p, q);
    assert LayersOf(t) == [Pointer(star == Caret, q)];
    QualifiedFirst(star, q, x);
    assert QualToks(q) == If(q.cons, Const) + If(q.vol, Volatile) + If(q.restr, Restrict);
    assert [star] + (QualToks(q) + [Ident(x)]) ==
           [star] + If(q.cons, Const) + If(q.vol, Volatile) + If(q.restr, Restrict) + [Ident(x)];
  }

  lemma QualifiedFirst(star: Token, q: Quals, x: string)
    requires star in [Star, Caret]
    ensures Emit([Pointer(star == Caret, q)], Some(x), false, []) == [star] + (QualToks(q) + [Ident(x)])
  {
    var layers := [Pointer(star == Caret, q)];
    assert layers[1..] == [] && Emit([], Some(x), false, []) == [Ident(x)];
    assert [] + ([star] + (QualToks(q) + [Ident(x)])) == [star] + (QualToks(q) + [Ident(x)]);
  }

  lemma OuterLayer(t: Type, star: Token, s: Suffix)
    requires star in [Star, Caret] && Declared(t)
    ensures Declared(PointerTo(star, t))
    ensures LayersOf(PointerTo(star, t)) == LayersOf(t) + [Pointer(star == Caret, NO_QUALS)]
    ensures Declared(Of(s, t)) && LayersOf(Of(s, t)) == LayersOf(t) + [LayerOf(s)]
  {}

  /** Parentheses are printed around a pointer under a suffix, and nowhere else. */
  lemma PointerInSuffix(id: nat, star: Token, s: Suffix, x: string)
    requires star in [Star, Caret]
    ensures var t := Of(s, PointerTo(star, Base(id)));
            Declared(t) && Emit(LayersOf(t), Some(x), false, []) == [star, Ident(x)] + SuffixToks(s)
  {
    var p, l := Pointer(star == Caret, NO_QUALS), LayerOf(s);
    OuterLayer(Base(id), star, s);
    OuterLayer(PointerTo(star, Base(id)), star, s);
    assert [] + [p] + [l] == [p] + [l];
    PointerFirst(p, [l], Some(x), false, []);
    LayerLast(s, Some(x), false, []);
    assert [star] + ([Ident(x)] + SuffixToks(s)) == [star, Ident(x)] + SuffixToks(s);
  }

  lemma SuffixInPointer(id: nat, star: Token, s: Suffix, x: string)
    requires star in [Star, Caret]
    ensures var t := PointerTo(star, Of(s, Base(id)));
            Declared(t) &&
            Emit(LayersOf(t), Some(x), false, []) == [OpenParen, star, Ident(x), CloseParen] + SuffixToks(s)
  {
    var p, l, toks := Pointer(star == Caret, NO_QUALS), LayerOf(s), SuffixToks(s);
    OuterLayer(Base(id), star, s);
    OuterLayer(Of(s, Base(id)), star, s);
    assert [] + [l] + [p] == [l] + [p];
    LayerPrinted(s, [p], Some(x), false, []);
    assert toks + [] == toks && [p] + [] == [p];
    PointerFirst(p, [], Some(x), true, toks);
    assert Emit([], Some(x), false, [CloseParen] + toks) == [Ident(x)] + ([CloseParen] + toks);
    assert [OpenParen] + ([star] + ([Ident(x)] + ([CloseParen] + toks))) ==
           [OpenParen, star, Ident(x), CloseParen] + toks;
  }

  lemma LayerLast(s: Suffix, name: Option<string>, suffixed: bool, rest: seq<Token>)
    ensures Emit([LayerOf(s)], name, suffixed, rest) ==
            (if name.Some? then [Ident(name.value)] else []) + (SuffixToks(s) + rest)
    ensures SuffixToks(s) + [] == SuffixToks(s)
  {
    LayerPrinted(s, [], name, suffixed, rest);
    assert [LayerOf(s)] + [] == [LayerOf(s)];
  }

  lemma LayerPrinted(s: Suffix, layers: seq<Layer>, name: Option<string>, suffixed: bool, rest: seq<Token>)
    ensures Emit([LayerOf(s)] + layers, name, suffixed, rest) == Emit(layers, name, true, SuffixToks(s) + rest)
  {
    assert ([LayerOf(s)] + layers)[1..] == layers;
    match s
    case Index(n) => assert SubscriptToks(NO_QUALS, Some(n), rest) == SuffixToks(s) + rest;
    case EmptyIndex => assert SubscriptToks(NO_QUALS, None, rest) == SuffixToks(s) + rest;
    case EmptyCall => assert CallToks(None, rest) == SuffixToks(s) + rest;
    case ParamCall(id) => assert CallToks(Some(id), rest) == SuffixToks(s) + rest;
  }

  lemma PointerFirst(p: Layer, layers: seq<Layer>, name: Option<string>, suffixed: bool, rest: seq<Token>)
    requires p.Pointer? && p.quals == NO_QUALS
    ensures var star := if p.block then Caret else Star;
            Emit([p] + layers, name, suffixed, rest) ==
            if suffixed then [OpenParen] + ([star] + Emit(layers, name, false, [CloseParen] + rest))
            else [star] + Emit(layers, name, false, rest)
  {
    var star := if p.block then Caret else Star;
    assert ([p] + layers)[1..] == layers;
    var inner := Emit(layers, name, false, if suffixed then [CloseParen] + rest else rest);
    assert QualToks(NO_QUALS) + inner == inner && [] + ([star] + inner) == [star] + inner;
  }

  /** Pointers to pointers, and suffixes of suffixes, need none. */
  lemma PointerInPointer(id: nat, star: Token, inner: Token, x: string)
    requires star in [Star, Caret] && inner in [Star, Caret]
    ensures var t := PointerTo(star, PointerTo(inner, Base(id)));
            Declared(t) && Emit(LayersOf(t), Some(x), false, []) == [inner, star, Ident(x)]
  {
    var p, q := Pointer(star == Caret, NO_QUALS), Pointer(inner == Caret, NO_QUALS);
    OuterLayer(Base(id), inner, EmptyCall);
    OuterLayer(PointerTo(inner, Base(id)), star, EmptyCall);
    assert [] + [q] + [p] == [q] + [p];
    PointerFirst(q, [p], Some(x), false, []);
    PointerFirst(p, [], Some(x), false, []);
    assert [p] + [] == [p] && [inner] + ([star] + [Ident(x)]) == [inner, star, Ident(x)];
  }

  lemma SuffixInSuffix(id: nat, s: Suffix, t: Suffix, x: string)
    ensures Declared(Of(s, Of(t, Base(id))))
    ensures Emit(LayersOf(Of(s, Of(t, Base(id)))), Some(x), false, []) == [Ident(x)] + (SuffixToks(s) + SuffixToks(t))
  {
    OuterLayer(Base(id), Star, t);
    OuterLayer(Of(t, Base(id)), Star, s);
    assert [] + [LayerOf(t)] + [LayerOf(s)] == [LayerOf(t)] + [LayerOf(s)];
    LayerPrinted(t, [LayerOf(s)], Some(x), false, []);
    assert SuffixToks(t) + [] == SuffixToks(t);
    LayerLast(s, Some(x), true, SuffixToks(t));
  }
}
