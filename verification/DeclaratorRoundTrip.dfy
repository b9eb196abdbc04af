/** Parsing undoes printing. */
module DeclRoundTrip {
  import opened Common
  import opened DeclSyntax
  import opened DeclGrammar

  /** Tokens that cannot extend a declarator. */
  predicate Foreign(rest: seq<Token>) {
    rest != [] ==>
      var t := rest[0];
      !(t.Star? || t.Caret? || IsQual(t) || t.Ident? || t.OpenParen? || t.OpenSquare?)
  }

  /** Tokens that may follow a declarator printed below an array or a function. */
  predicate SuffixOrForeign(rest: seq<Token>) {
    || Foreign(rest)
    || rest[0].OpenSquare?
    || (rest[0].OpenParen? && |rest| > 1 && (rest[1].Params? || rest[1].CloseParen?))
  }

  predicate Asked(mode: Mode, name: Option<string>) {
    if name.Some? then mode.named else !mode.need
  }

  lemma QualsReadBack(q: Quals, rest: seq<Token>)
    requires rest != [] ==> !IsQual(rest[0])
    ensures ReadQuals(NO_QUALS, QualToks(q) + rest) == (q, rest)
  {
    var q1 := Quals(q.cons, false, false);
    var q2 := Quals(q.cons, q.vol, false);
    var t3 := (if q.restr then [Restrict] else []) + rest;
    var t2 := (if q.vol then [Volatile] else []) + t3;
    var t1 := (if q.cons then [Const] else []) + t2;
    assert QualToks(q) + rest == t1;
    QualStep(q2, Restrict, q.restr, rest);
    QualStep(q1, Volatile, q.vol, t3);
    QualStep(NO_QUALS, Const, q.cons, t2);
  }

  lemma QualStep(q: Quals, t: Token, present: bool, rest: seq<Token>)
    requires IsQual(t)
    ensures ReadQuals(q, (if present then [t] else []) + rest) ==
            ReadQuals(if present then Or(q, QualOf(t)) else q, rest)
  {
    assert [] + rest == rest;
  }

  /** The size of an array and the closing bracket. */
  function SizeToks(n: Option<nat>, rest: seq<Token>): seq<Token> {
    (if n.Some? then [Size(n.value)] else []) + ([CloseSquare] + rest)
  }

  lemma SizeReadsBack(n: Option<nat>, rest: seq<Token>)
    ensures var toks := SizeToks(n, rest);
            && toks != [] && !IsQual(toks[0]) && OptSize(toks) == (n, [CloseSquare] + rest)
  {
    var close := [CloseSquare] + rest;
    assert n.None? ==> [] + close == close;
    assert n.Some? ==> ([Size(n.value)] + close)[1..] == close;
  }

  /** An array suffix with any words for its qualifiers `q`. */
  lemma IndexReadsBack(q: Quals, quals: seq<Token>, n: Option<nat>, layers: seq<Layer>, name: Option<string>,
                       rest: seq<Token>)
    requires ReadQuals(NO_QUALS, quals + SizeToks(n, rest)) == (q, SizeToks(n, rest))
    ensures Suffixes(layers, name, [OpenSquare] + (quals + SizeToks(n, rest))) ==
            Suffixes([Subscript(q, n)] + layers, name, rest)
  {
    SizeReadsBack(n, rest);
    var toks := [OpenSquare] + (quals + SizeToks(n, rest));
    assert toks[1..] == quals + SizeToks(n, rest) && ([CloseSquare] + rest)[1..] == rest;
  }

  lemma SubscriptReadsBack(q: Quals, n: Option<nat>, layers: seq<Layer>, name: Option<string>, rest: seq<Token>)
    ensures var toks := SubscriptToks(q, n, rest);
            Suffixes(layers, name, toks) == Suffixes([Subscript(q, n)] + layers, name, rest)
  {
    SizeReadsBack(n, rest);
    QualsReadBack(q, SizeToks(n, rest));
    IndexReadsBack(q, QualToks(q), n, layers, name, rest);
    assert SubscriptToks(q, n, rest) == [OpenSquare] + (QualToks(q) + SizeToks(n, rest));
  }

  lemma CallReadsBack(p: Option<nat>, layers: seq<Layer>, name: Option<string>, rest: seq<Token>)
    ensures var toks := CallToks(p, rest);
            Suffixes(layers, name, toks) == Suffixes([Call(p)] + layers, name, rest)
  {
    var close := [CloseParen] + rest;
    assert [] + close == close;
    assert CallToks(p, rest)[1..] == (if p.Some? then [Params(p.value)] else []) + close;
  }

  /** The first token printed for a declarator that does not start with a pointer is not a qualifier. */
  lemma {:induction false} StartsUnqualified(layers: seq<Layer>, name: Option<string>, suffixed: bool, rest: seq<Token>)
    requires SuffixOrForeign(rest)
    ensures var t := Emit(layers, name, suffixed, rest); t != [] ==> !IsQual(t[0])
    ensures var t := Emit(layers, name, suffixed, rest);
            t != [] && (t[0].Star? || t[0].Caret?) ==> layers != [] && layers[0].Pointer?
    decreases |layers|
  {
    if layers != [] {
      match layers[0]
      case Pointer(_, _) =>
      case Subscript(q, n) =>
        StartsUnqualified(layers[1..], name, true,
          SubscriptToks(q, n, rest));
        UnderSuffix(layers, name, rest);
      case Call(p) =>
        StartsUnqualified(layers[1..], name, true,
          CallToks(p, rest));
        UnderSuffix(layers, name, rest);
    }
  }

  /** Below an array or a function, a printed declarator never starts with a bare star. */
  lemma {:induction false} UnderSuffix(layers: seq<Layer>, name: Option<string>, rest: seq<Token>)
    requires SuffixOrForeign(rest)
    ensures layers != [] && !layers[0].Pointer? ==>
              var t := Emit(layers, name, false, rest); t != [] && !t[0].Star? && !t[0].Caret?
    ensures var t := Emit(layers, name, true, rest); t != [] ==> !t[0].Star? && !t[0].Caret?
    decreases |layers|
  {
    if layers != [] && !layers[0].Pointer? {
      match layers[0]
      case Subscript(q, n) =>
        UnderSuffix(layers[1..], name,
          SubscriptToks(q, n, rest));
      case Call(p) =>
        UnderSuffix(layers[1..], name,
          CallToks(p, rest));
    }
  }

  lemma ParenthesisedReadsBack(mode: Mode, layers: seq<Layer>, name: Option<string>, rest: seq<Token>)
    requires layers != [] && layers[0].Pointer?
    requires ParseDecl(mode, Emit(layers, name, false, [CloseParen] + rest)) == Parsed(layers, name,
              [CloseParen] + rest)
    ensures ParseFuncOrArray(mode, Emit(layers, name, true, rest)) == Suffixes(layers, name, rest)
  {
    var inner := Emit(layers, name, false, [CloseParen] + rest);
    assert Emit(layers, name, true, rest) == [OpenParen] + inner;
    PointerText(layers, name, [CloseParen] + rest);
    ParenthesisedIsRead(mode, inner, layers, name, rest);
  }

  lemma PointerText(layers: seq<Layer>, name: Option<string>, rest: seq<Token>)
    requires layers != [] && layers[0].Pointer?
    ensures var t := Emit(layers, name, false, rest);
            && t != [] && t[0] == (if layers[0].block then Caret else Star)
            && t[1..] == QualToks(layers[0].quals) + Emit(layers[1..], name, false, rest)
  {}

  lemma ParenthesisedIsRead(mode: Mode, inner: seq<Token>, layers: seq<Layer>, name: Option<string>, rest: seq<Token>)
    requires inner != [] && (inner[0].Star? || inner[0].Caret?)
    requires ParseDecl(mode, inner) == Parsed(layers, name, [CloseParen] + rest)
    ensures ParseFuncOrArray(mode, [OpenParen] + inner) == Suffixes(layers, name, rest)
  {
    assert ([OpenParen] + inner)[1..] == inner && ([CloseParen] + rest)[1..] == rest;
  }

  lemma PointerIsRead(mode: Mode, toks: seq<Token>, inner: seq<Token>, q: Quals, sub: seq<Layer>,
      name: Option<string>, rest: seq<Token>)
    requires toks != [] && (toks[0].Star? || toks[0].Caret?) && ReadQuals(NO_QUALS, toks[1..]) == (q, inner)
    requires ParseDecl(mode, inner) == Parsed(sub, name, rest)
    ensures ParseDecl(mode, toks) == Parsed([Pointer(toks[0].Caret?, q)] + sub, name, rest)
  {}

  /** Reading a declarator printed below a suffix brings the suffix loop to whatever follows it. */
  lemma {:induction false} SuffixedReadsBack(mode: Mode, layers: seq<Layer>, name: Option<string>, rest: seq<Token>)
    requires Asked(mode, name) && SuffixOrForeign(rest)
    ensures ParseFuncOrArray(mode, Emit(layers, name, true, rest)) == Suffixes(layers, name, rest)
    decreases |layers|, 1
  {
    if layers == [] {
      NameReadsBack(mode, name, rest);
      return;
    }
    match layers[0]
    case Pointer(block, q) =>
      PointerReadsBack(mode, layers, name, [CloseParen] + rest);
      ParenthesisedReadsBack(mode, layers, name, rest);
    case Subscript(q, n) =>
      SuffixedReadsBack(mode, layers[1..], name, SubscriptToks(q, n, rest));
      SubscriptAdded(mode, layers, name, rest);
    case Call(p) =>
      CallStartsSuffix(p, rest);
      SuffixedReadsBack(mode, layers[1..], name, CallToks(p, rest));
      CallAdded(mode, layers, name, rest);
  }

  lemma SubscriptAdded(mode: Mode, layers: seq<Layer>, name: Option<string>, rest: seq<Token>)
    requires layers != [] && layers[0].Subscript?
    requires var toks := SubscriptToks(layers[0].quals, layers[0].size, rest);
             ParseFuncOrArray(mode, Emit(layers[1..], name, true, toks)) == Suffixes(layers[1..], name, toks)
    ensures ParseFuncOrArray(mode, Emit(layers, name, true, rest)) == Suffixes(layers, name, rest)
  {
    SubscriptReadsBack(layers[0].quals, layers[0].size, layers[1..], name, rest);
    assert layers == [layers[0]] + layers[1..];
  }

  lemma CallAdded(mode: Mode, layers: seq<Layer>, name: Option<string>, rest: seq<Token>)
    requires layers != [] && layers[0].Call?
    requires var toks := CallToks(layers[0].params, rest);
             ParseFuncOrArray(mode, Emit(layers[1..], name, true, toks)) == Suffixes(layers[1..], name, toks)
    ensures ParseFuncOrArray(mode, Emit(layers, name, true, rest)) == Suffixes(layers, name, rest)
  {
    CallReadsBack(layers[0].params, layers[1..], name, rest);
    assert layers == [layers[0]] + layers[1..];
  }

  lemma NameReadsBack(mode: Mode, name: Option<string>, rest: seq<Token>)
    requires Asked(mode, name) && SuffixOrForeign(rest)
    ensures ParseFuncOrArray(mode, Emit([], name, true, rest)) == Suffixes([], name, rest)
  {
    assert [] + rest == rest;
  }

  lemma CallStartsSuffix(p: Option<nat>, rest: seq<Token>)
    ensures SuffixOrForeign(CallToks(p, rest))
  {}

  lemma {:induction false} PointerReadsBack(mode: Mode, layers: seq<Layer>, name: Option<string>, rest: seq<Token>)
    requires layers != [] && layers[0].Pointer?
    requires Asked(mode, name) && Foreign(rest)
    ensures ParseDecl(mode, Emit(layers, name, false, rest)) == Parsed(layers, name, rest)
    decreases |layers|, 0
  {
    var Pointer(block, q) := layers[0];
    var inner := Emit(layers[1..], name, false, rest);
    LayersReadBack(mode, layers[1..], name, rest);
    StartsUnqualified(layers[1..], name, false, rest);
    QualsReadBack(q, inner);
    PointerStep(mode, layers, name, rest);
  }

  lemma PointerStep(mode: Mode, layers: seq<Layer>, name: Option<string>, rest: seq<Token>)
    requires layers != [] && layers[0].Pointer?
    requires var inner := Emit(layers[1..], name, false, rest);
             && ReadQuals(NO_QUALS, QualToks(layers[0].quals) + inner) == (layers[0].quals, inner)
             && ParseDecl(mode, inner) == Parsed(layers[1..], name, rest)
    ensures ParseDecl(mode, Emit(layers, name, false, rest)) == Parsed(layers, name, rest)
  {
    assert layers == [layers[0]] + layers[1..];
    PointerText(layers, name, rest);
    PointerIsRead(mode, Emit(layers, name, false, rest), Emit(layers[1..], name, false, rest), layers[0].quals,
                  layers[1..], name, rest);
  }

  /** Parsing a printed declarator gives back its layers and its name, and stops where it ends. */
  lemma {:induction false} LayersReadBack(mode: Mode, layers: seq<Layer>, name: Option<string>, rest: seq<Token>)
    requires Asked(mode, name) && Foreign(rest)
    ensures ParseDecl(mode, Emit(layers, name, false, rest)) == Parsed(layers, name, rest)
    decreases |layers|, 2
  {
    if layers != [] && layers[0].Pointer? {
      PointerReadsBack(mode, layers, name, rest);
    } else {
      UnderSuffix(layers, name, rest);
      assert Emit(layers, name, false, rest) == Emit(layers, name, true, rest);
      SuffixedReadsBack(mode, layers, name, rest);
    }
  }

  // ---- The same on types -----------------------------------------------------------------------

  /** The type without the qualifiers that the parser drops from return types. */
  function Stripped(t: Type): (r: Type)
    requires Declared(t)
    ensures r.Qualified? == t.Qualified? && QualsOf(r) == QualsOf(t)
  {
    match t
    case Base(_) => t
    case Ptr(r) => Ptr(Stripped(r))
    case Block(r) => Block(Stripped(r))
    case Array(r, n) => Array(Stripped(r), n)
    case Func(r, p) => Func(if QualsOf(r) != NO_QUALS then Unqualify(Stripped(r)) else Stripped(r), p)
    case Qualified(r, q) => Qualified(Stripped(r), q)
  }

  /** No function in `t` returns a type with qualifiers that the parser would drop: it drops them unless
      they include `restrict`. */
  predicate KeepsReturns(t: Type)
  {
    match t
    case Base(_) => true
    case Ptr(r) => KeepsReturns(r)
    case Block(r) => KeepsReturns(r)
    case Array(r, _) => KeepsReturns(r)
    case Func(r, _) => (r.Qualified? ==> r.quals.restr) && KeepsReturns(r)
    case Qualified(r, _) => KeepsReturns(r)
  }

  lemma {:induction false} BuildAppends(base: Type, layers: seq<Layer>, last: Layer)
    ensures Build(base, layers + [last]) == Apply(last, Build(base, layers))
    decreases |layers|
  {
    if layers == [] {
      assert [] + [last] == [last];
    } else {
      BuildAppends(Apply(layers[0], base), layers[1..], last);
      assert (layers + [last])[1..] == layers[1..] + [last];
    }
  }

  /** Applying the layers of a type to its base, as the parser does, rebuilds it up to return qualifiers. */
  lemma {:induction false} BuildFromLayers(t: Type)
    requires Declared(t)
    ensures Build(BaseOf(t), LayersOf(t)) == Stripped(t)
  {
    match t
    case Base(_) =>
    case Ptr(r) =>
      BuildFromLayers(r);
      BuildAppends(BaseOf(t), LayersOf(r), Pointer(false, NO_QUALS));
    case Block(r) =>
      BuildFromLayers(r);
      BuildAppends(BaseOf(t), LayersOf(r), Pointer(true, NO_QUALS));
    case Array(r, n) =>
      BuildFromLayers(r);
      BuildAppends(BaseOf(t), LayersOf(r), Subscript(NO_QUALS, n));
    case Func(r, p) =>
      BuildFromLayers(r);
      BuildAppends(BaseOf(t), LayersOf(r), DeclSyntax.Call(p));
    case Qualified(r, q) =>
      if !r.Base? {
        BuildFromLayers(r.ref);
        BuildAppends(BaseOf(t), LayersOf(r.ref),
          if r.Array? then Subscript(q, r.size) else Pointer(r.Block?, q));
      }
  }

  lemma {:induction false} StrippedIsSame(t: Type)
    requires Declared(t)
    ensures Stripped(t) == t <==> KeepsReturns(t)
  {
    match t
    case Base(_) =>
    case Func(r, _) =>
      StrippedIsSame(r);
      if r.Qualified? && !r.quals.restr {
        assert !r.ref.Qualified? && !Stripped(r).ref.Qualified?;
        assert !Unqualify(Stripped(r)).Qualified?;
      }
    case _ => StrippedIsSame(t.ref);
  }

  /** parse_type_declarator_to_type: the type, the name and the remaining tokens. */
  function ParseType(mode: Mode, base: Type, toks: seq<Token>): Option<(Type, Option<string>, seq<Token>)> {
    match ParseDecl(mode, toks)
    case Error => None
    case Parsed(layers, name, rest) => Some((Build(base, layers), name, rest))
  }

  /** Parsing the printed declarator of a type over its base gives back the name and the type, exactly
      when no function in it returns a type whose qualifiers the parser drops. */
  lemma ParseUndoesPrint(mode: Mode, t: Type, name: Option<string>, rest: seq<Token>)
    requires Declared(t) && Asked(mode, name) && Foreign(rest)
    ensures var printed := Emit(LayersOf(t), name, false, rest);
            && ParseType(mode, BaseOf(t), printed) == Some((Stripped(t), name, rest))
            && (ParseType(mode, BaseOf(t), printed) == Some((t, name, rest)) <==> KeepsReturns(t))
  {
    LayersReadBack(mode, LayersOf(t), name, rest);
    BuildFromLayers(t);
    StrippedIsSame(t);
  }

  /** `int *const f()` comes back as `int *f()`. */
  lemma ReturnQualifiersAreDropped()
    ensures var ptr := Qualified(Ptr(Base(0)), Quals(true, false, false));
            ParseType(Mode(true, true), Base(0), Emit(LayersOf(Func(ptr, None)), Some("f"), false, [])) ==
            Some((Func(Ptr(Base(0)), None), Some("f"), []))
  {
    var ptr := Qualified(Ptr(Base(0)), Quals(true, false, false));
    assert Declared(ptr);
    ParseUndoesPrint(Mode(true, true), Func(ptr, None), Some("f"), []);
  }

  // ---- Whatever is parsed was written so ------------------------------------------------------------

  /** A declarator as it is written, with whatever parentheses and repeated qualifiers it has. */
  datatype Written =
    | Unnamed
    | Named(name: string)
    | Parens(w: Written)
    | Pointing(block: bool, quals: seq<Token>, w: Written)
    | Indexed(w: Written, quals: seq<Token>, size: Option<nat>)
    | Called(w: Written, params: Option<nat>)

  /** Pointers stand before what they apply to, in parentheses before a suffix; empty parentheses are a call;
      qualifiers are qualifiers. */
  predicate WrittenOk(w: Written) {
    match w
    case Unnamed => true
    case Named(_) => true
    case Parens(w') => !w'.Unnamed? && WrittenOk(w')
    case Pointing(_, quals, w') => AllQuals(quals) && WrittenOk(w')
    case Indexed(w', quals, _) => AllQuals(quals) && !w'.Pointing? && WrittenOk(w')
    case Called(w', _) => !w'.Pointing? && WrittenOk(w')
  }

  predicate AllQuals(toks: seq<Token>) {
    forall i :: 0 <= i < |toks| ==> IsQual(toks[i])
  }

  function WrittenText(w: Written, rest: seq<Token>): seq<Token>
    decreases w
  {
    match w
    case Unnamed => rest
    case Named(n) => [Ident(n)] + rest
    case Parens(w') => [OpenParen] + WrittenText(w', [CloseParen] + rest)
    case Pointing(block, quals, w') => [if block then Caret else Star] + (quals + WrittenText(w', rest))
    case Indexed(w', quals, n) => WrittenText(w', [OpenSquare] + (quals + SizeToks(n, rest)))
    case Called(w', p) => WrittenText(w', CallToks(p, rest))
  }

  /** The qualifiers named by any of some tokens. */
  function QualsIn(q: Quals, toks: seq<Token>): Quals
    decreases |toks|
  {
    if toks == [] then q else QualsIn(Or(q, QualOf(toks[0])), toks[1..])
  }

  function WrittenLayers(w: Written): seq<Layer> {
    match w
    case Unnamed => []
    case Named(_) => []
    case Parens(w') => WrittenLayers(w')
    case Pointing(block, quals, w') => [Pointer(block, QualsIn(NO_QUALS, quals))] + WrittenLayers(w')
    case Indexed(w', quals, n) => [Subscript(QualsIn(NO_QUALS, quals), n)] + WrittenLayers(w')
    case Called(w', p) => [Call(p)] + WrittenLayers(w')
  }

  function WrittenName(w: Written): Option<string> {
    match w
    case Unnamed => None
    case Named(n) => Some(n)
    case _ => WrittenName(w.w)
  }

  /** A name stands only where it is asked for, and is missing only where it need not be there or a parameter list
      stands in its place. */
  predicate Wanted(mode: Mode, w: Written) {
    match w
    case Unnamed => !mode.need
    case Named(_) => mode.named
    case Called(w', _) => w'.Unnamed? || Wanted(mode, w')
    case _ => Wanted(mode, w.w)
  }

  /** `w` is how the outcome `r` was written in `toks`. */
  ghost predicate Writes(mode: Mode, w: Written, toks: seq<Token>, r: Outcome) {
    r.Parsed? ==>
      && WrittenOk(w) && toks == WrittenText(w, r.rest) && Wanted(mode, w)
      && r.layers == WrittenLayers(w) && r.name == WrittenName(w)
  }

  lemma {:induction false} QualsFaithful(q: Quals, toks: seq<Token>) returns (quals: seq<Token>)
    ensures var r := ReadQuals(q, toks);
            AllQuals(quals) && toks == quals + r.1 && r.0 == QualsIn(q, quals)
    decreases |toks|
  {
    quals := [];
    if toks != [] && IsQual(toks[0]) {
      var more := QualsFaithful(Or(q, QualOf(toks[0])), toks[1..]);
      quals := [toks[0]] + more;
      assert quals[1..] == more && toks == [toks[0]] + toks[1..];
    }
  }

  /** Whatever declarator is parsed, the text consumed spells its layers and its name, up to parentheses that
      are not needed and qualifiers that are repeated. */
  lemma {:induction false} DeclFaithful(mode: Mode, toks: seq<Token>) returns (w: Written)
    ensures Writes(mode, w, toks, ParseDecl(mode, toks))
    decreases |toks|, 2
  {
    if At(toks, Star) || At(toks, Caret) {
      var quals := QualsFaithful(NO_QUALS, toks[1..]);
      var t := ReadQuals(NO_QUALS, toks[1..]).1;
      var sub := DeclFaithful(mode, t);
      w := Pointing(toks[0].Caret?, quals, sub);
      assert toks == [toks[0]] + toks[1..];
    } else {
      w := SuffixedFaithful(mode, toks);
    }
  }

  lemma {:induction false} SuffixedFaithful(mode: Mode, toks: seq<Token>) returns (w: Written)
    ensures Writes(mode, w, toks, ParseFuncOrArray(mode, toks))
    decreases |toks|, 1
  {
    w := NestFaithful(mode, toks);
    var r := ParseNest(mode, toks);
    if r.Parsed? { w := SuffixesFaithful(mode, w, r.rest); }
  }

  predicate StartsCall(toks: seq<Token>) {
    At(toks, OpenParen) && |toks| > 1 && (toks[1].Params? || toks[1].CloseParen?)
  }

  /** So far, where a parameter list may still come in place of a name. */
  predicate WantedBefore(mode: Mode, w: Written, toks: seq<Token>) {
    Wanted(mode, w) || (w.Unnamed? && StartsCall(toks))
  }

  lemma {:induction false} NestFaithful(mode: Mode, toks: seq<Token>) returns (w: Written)
    ensures !w.Pointing?
    ensures var r := ParseNest(mode, toks);
            r.Parsed? ==>
              && WrittenOk(w) && toks == WrittenText(w, r.rest) && WantedBefore(mode, w, r.rest)
              && r.layers == WrittenLayers(w) && r.name == WrittenName(w)
    decreases |toks|, 0
  {
    w := Unnamed;
    if At(toks, OpenParen) {
      if StartsCall(toks) { return; }
      var sub := DeclFaithful(mode, toks[1..]);
      var r := ParseDecl(mode, toks[1..]);
      if r.Parsed? && At(r.rest, CloseParen) {
        assert r.rest == [CloseParen] + r.rest[1..] && toks == [OpenParen] + toks[1..];
      }
      w := Parens(sub);
    } else if toks != [] && toks[0].Ident? {
      assert toks == [toks[0]] + toks[1..];
      w := Named(toks[0].name);
    }
  }

  lemma {:induction false} SuffixesFaithful(mode: Mode, w: Written, toks: seq<Token>) returns (w': Written)
    requires WrittenOk(w) && !w.Pointing? && WantedBefore(mode, w, toks)
    ensures Writes(mode, w', WrittenText(w, toks), Suffixes(WrittenLayers(w), WrittenName(w), toks))
    decreases |toks|
  {
    w' := w;
    if At(toks, OpenParen) {
      var (p, t) := OptParams(toks[1..]);
      if At(t, CloseParen) {
        CallWritten(toks, p, t);
        w' := SuffixesFaithful(mode, Called(w, p), t[1..]);
      }
    } else if At(toks, OpenSquare) {
      var quals := QualsFaithful(NO_QUALS, toks[1..]);
      var (q, t) := ReadQuals(NO_QUALS, toks[1..]);
      var (n, u) := OptSize(t);
      if At(u, CloseSquare) {
        IndexWritten(toks, quals, t, n, u);
        w' := SuffixesFaithful(mode, Indexed(w, quals, n), u[1..]);
      }
    }
  }

  lemma CallWritten(toks: seq<Token>, p: Option<nat>, t: seq<Token>)
    requires At(toks, OpenParen) && (p, t) == OptParams(toks[1..]) && At(t, CloseParen)
    ensures toks == CallToks(p, t[1..])
  {
    assert t == [CloseParen] + t[1..] && toks == [OpenParen] + toks[1..];
    assert p.Some? ==> toks[1..] == [Params(p.value)] + t;
    assert [] + t == t;
  }

  lemma IndexWritten(toks: seq<Token>, quals: seq<Token>, t: seq<Token>, n: Option<nat>, u: seq<Token>)
    requires At(toks, OpenSquare) && toks[1..] == quals + t && (n, u) == OptSize(t) && At(u, CloseSquare)
    ensures toks == [OpenSquare] + (quals + SizeToks(n, u[1..]))
  {
    assert u == [CloseSquare] + u[1..] && toks == [OpenSquare] + toks[1..];
    assert n.Some? ==> t == [Size(n.value)] + u;
    assert [] + u == u;
  }

  // ---- And whatever is written so is parsed -----------------------------------------------------------

  lemma {:induction false} WrittenQualsRead(q: Quals, quals: seq<Token>, rest: seq<Token>)
    requires AllQuals(quals) && (rest != [] ==> !IsQual(rest[0]))
    ensures ReadQuals(q, quals + rest) == (QualsIn(q, quals), rest)
    decreases |quals|
  {
    if quals == [] {
      assert quals + rest == rest;
    } else {
      assert (quals + rest)[1..] == quals[1..] + rest;
      WrittenQualsRead(Or(q, QualOf(quals[0])), quals[1..], rest);
    }
  }

  /** The first token of a written declarator. */
  lemma {:induction false} WrittenStarts(w: Written, rest: seq<Token>)
    requires WrittenOk(w) && SuffixOrForeign(rest)
    ensures var t := WrittenText(w, rest);
            && (t != [] ==> !IsQual(t[0]) && (t[0].Star? || t[0].Caret? ==> w.Pointing?))
            && (!w.Unnamed? ==> t != [] && !t[0].Params? && !t[0].CloseParen?)
  {
    match w
    case Indexed(w', quals, n) => WrittenStarts(w', [OpenSquare] + (quals + SizeToks(n, rest)));
    case Called(w', p) => WrittenStarts(w', CallToks(p, rest));
    case _ =>
  }

  lemma {:induction false} WrittenSuffixedRead(mode: Mode, w: Written, rest: seq<Token>)
    requires WrittenOk(w) && !w.Pointing? && SuffixOrForeign(rest) && WantedBefore(mode, w, rest)
    ensures ParseFuncOrArray(mode, WrittenText(w, rest)) == Suffixes(WrittenLayers(w), WrittenName(w), rest)
    decreases w, 0
  {
    match w
    case Unnamed =>
    case Named(n) => assert ([Ident(n)] + rest)[1..] == rest;
    case Parens(w') =>
      var inner := WrittenText(w', [CloseParen] + rest);
      WrittenStarts(w', [CloseParen] + rest);
      WrittenRead(mode, w', [CloseParen] + rest);
      assert ([OpenParen] + inner)[1..] == inner && ([CloseParen] + rest)[1..] == rest;
    case Indexed(w', quals, n) => WrittenIndexRead(mode, w', quals, n, rest);
    case Called(w', p) =>
      WrittenSuffixedRead(mode, w', CallToks(p, rest));
      CallReadsBack(p, WrittenLayers(w'), WrittenName(w'), rest);
  }

  lemma {:induction false} WrittenIndexRead(mode: Mode, w: Written, quals: seq<Token>, n: Option<nat>, rest: seq<Token>)
    requires WrittenOk(w) && !w.Pointing? && AllQuals(quals) && Wanted(mode, w)
    ensures var all := Indexed(w, quals, n);
            ParseFuncOrArray(mode, WrittenText(all, rest)) == Suffixes(WrittenLayers(all), WrittenName(all), rest)
    decreases w, 1
  {
    WrittenSuffixedRead(mode, w, [OpenSquare] + (quals + SizeToks(n, rest)));
    IndexTextRead(quals, n, WrittenLayers(w), WrittenName(w), rest);
  }

  lemma IndexTextRead(quals: seq<Token>, n: Option<nat>, layers: seq<Layer>, name: Option<string>, rest: seq<Token>)
    requires AllQuals(quals)
    ensures Suffixes(layers, name, [OpenSquare] + (quals + SizeToks(n, rest))) ==
            Suffixes([Subscript(QualsIn(NO_QUALS, quals), n)] + layers, name, rest)
  {
    SizeReadsBack(n, rest);
    WrittenQualsRead(NO_QUALS, quals, SizeToks(n, rest));
    IndexReadsBack(QualsIn(NO_QUALS, quals), quals, n, layers, name, rest);
  }

  /** Any written declarator before tokens that cannot extend it is parsed into its layers and its name. */
  lemma {:induction false} WrittenRead(mode: Mode, w: Written, rest: seq<Token>)
    requires WrittenOk(w) && Wanted(mode, w) && Foreign(rest)
    ensures ParseDecl(mode, WrittenText(w, rest)) == Parsed(WrittenLayers(w), WrittenName(w), rest)
    decreases w, 2
  {
    if w.Pointing? {
      var inner := WrittenText(w.w, rest);
      WrittenStarts(w.w, rest);
      WrittenRead(mode, w.w, rest);
      WrittenQualsRead(NO_QUALS, w.quals, inner);
      var toks := WrittenText(w, rest);
      assert toks[1..] == w.quals + inner;
      PointerIsRead(mode, toks, inner, QualsIn(NO_QUALS, w.quals), WrittenLayers(w.w), WrittenName(w.w), rest);
    } else {
      WrittenStarts(w, rest);
      WrittenSuffixedRead(mode, w, rest);
    }
  }

  ghost predicate Spells(mode: Mode, w: Written, toks: seq<Token>, r: Outcome)
    requires r.Parsed?
  {
    && WrittenOk(w) && Wanted(mode, w) && toks == WrittenText(w, r.rest)
    && r.layers == WrittenLayers(w) && r.name == WrittenName(w)
  }

  /** Before tokens that cannot extend a declarator, exactly those layers and that name are returned that some
      written declarator spells. */
  lemma ParsedIffWritten(mode: Mode, toks: seq<Token>, layers: seq<Layer>, name: Option<string>, rest: seq<Token>)
    requires Foreign(rest)
    ensures ParseDecl(mode, toks) == Parsed(layers, name, rest) <==>
            exists w :: Spells(mode, w, toks, Parsed(layers, name, rest))
  {
    var r := Parsed(layers, name, rest);
    if ParseDecl(mode, toks) == r {
      var w := DeclFaithful(mode, toks);
      assert Spells(mode, w, toks, r);
    }
    if exists w :: Spells(mode, w, toks, r) {
      var w :| Spells(mode, w, toks, r);
      WrittenRead(mode, w, rest);
    }
  }
}
